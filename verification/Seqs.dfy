// How often a value occurs in a sequence.
module Seqs {
  function Occ(s: seq<nat>, x: nat): nat {
    if s == [] then 0 else (if s[0] == x then 1 else 0) + Occ(s[1..], x)
  }

  predicate Distinct(s: seq<nat>) {
    forall i, j | 0 <= i < j < |s| :: s[i] != s[j]
  }

  lemma {:induction false} OccAppend(s: seq<nat>, t: seq<nat>, x: nat)
    ensures Occ(s + t, x) == Occ(s, x) + Occ(t, x)
  {
    if s == [] {
      assert s + t == t;
    } else {
      OccAppend(s[1..], t, x);
      assert (s + t)[1..] == s[1..] + t;
    }
  }

  lemma OccOne(y: nat, x: nat)
    ensures Occ([y], x) == if y == x then 1 else 0
  {
    assert [y][1..] == [];
  }

  lemma {:induction false} OccIn(s: seq<nat>, x: nat)
    ensures Occ(s, x) > 0 <==> x in s
    ensures Distinct(s) ==> Occ(s, x) <= 1
    decreases |s|
  {
    if s != [] {
      OccIn(s[1..], x);
      assert x in s <==> x == s[0] || x in s[1..];
      if Distinct(s) {
        assert s[0] !in s[1..];
      }
    }
  }

  lemma {:induction false} OccDistinct(s: seq<nat>)
    requires forall x: nat :: Occ(s, x) <= 1
    ensures Distinct(s)
    decreases |s|
  {
    if s != [] {
      forall x: nat
        ensures Occ(s[1..], x) <= 1
      {
        assert Occ(s, x) <= 1;
      }
      OccDistinct(s[1..]);
      assert Occ(s, s[0]) <= 1;
      OccIn(s[1..], s[0]);
      forall i, j | 0 <= i < j < |s|
        ensures s[i] != s[j]
      {
        assert s[j] == s[1..][j - 1];
        assert i > 0 ==> s[i] == s[1..][i - 1];
      }
    }
  }
}
