// The namespace scan: reconciling the controller's list of namespaces with the
// active ones, by a lookup that gives up at the first larger id.
module NsScan {
  import opened Arith
  import opened Options
  import opened Seqs

  const PAGE_IDS: nat := 1024

  predicate Ascending(ids: seq<nat>) {
    forall i, j | 0 <= i < j < |ids| :: ids[i] < ids[j]
  }

  // ns_cmp subtracts unsigned ids and looks at the sign of the 32-bit result.
  function NsCmp(a: nat, b: nat): int {
    var d := (a - b) % 0x1_0000_0000;
    if d < 0x8000_0000 then d else d - 0x1_0000_0000
  }

  // It orders two ids as numbers exactly when they are not too far apart.
  lemma NsCmpExact(a: nat, b: nat)
    requires a < 0x1_0000_0000 && b < 0x1_0000_0000
    ensures (NsCmp(a, b) > 0 <==> a > b) <==> -0x8000_0000 <= a - b < 0x8000_0000
  {
  }

  // ---- The lookup ----

  // nvme_find_get_ns
  function Find(ids: seq<nat>, q: nat): Option<nat>
    decreases |ids|
  {
    if ids == [] then None
    else if ids[0] == q then Some(0)
    else if ids[0] > q then None
    else
      var r := Find(ids[1..], q);
      if r.Some? then Some(r.value + 1) else None
  }

  // Id q stands at position i with nothing larger before it.
  ghost predicate InSight(ids: seq<nat>, q: nat, i: nat) {
    i < |ids| && ids[i] == q && forall j | 0 <= j < i :: ids[j] <= q
  }

  // The lookup finds an id exactly if it is there and nothing larger stands before it.
  lemma {:induction false} FindExact(ids: seq<nat>, q: nat)
    ensures Find(ids, q).Some? <==> exists i :: InSight(ids, q, i)
    ensures Find(ids, q).Some? ==> InSight(ids, q, Find(ids, q).value)
    decreases |ids|
  {
    if ids != [] {
      FindExact(ids[1..], q);
      if ids[0] == q {
        assert InSight(ids, q, 0);
      } else if ids[0] < q {
        if Find(ids[1..], q).Some? {
          InSightTail(ids, q, Find(ids[1..], q).value);
        } else {
          forall i: nat
            ensures !InSight(ids, q, i)
          {
            InSightTail(ids, q, i);
          }
        }
      } else {
        assert forall i | InSight(ids, q, i) :: ids[0] <= q;
      }
    }
  }

  lemma InSightTail(ids: seq<nat>, q: nat, i: nat)
    requires ids != [] && ids[0] < q
    ensures InSight(ids[1..], q, i) ==> InSight(ids, q, i + 1)
    ensures InSight(ids, q, i) ==> i > 0 && InSight(ids[1..], q, i - 1)
  {
  }

  lemma TailHas(ids: seq<nat>, k: nat, i: nat)
    requires i < |ids| && k <= |ids|
    ensures i >= k ==> ids[i] in ids[k..]
  {
    if i >= k {
      assert ids[k..][i - k] == ids[i];
    }
  }

  // On an ascending list with anything appended, it agrees with a full search for
  // every id that was not appended.
  lemma FindAgrees(ids: seq<nat>, k: nat, q: nat)
    requires k <= |ids| && Ascending(ids[..k]) && q !in ids[k..]
    ensures Find(ids, q).Some? <==> q in ids
    ensures Find(ids, q).Some? ==> Find(ids, q).value < k && ids[Find(ids, q).value] == q
  {
    FindExact(ids, q);
    if q in ids {
      var i :| 0 <= i < |ids| && ids[i] == q;
      TailHas(ids, k, i);
      forall j | 0 <= j < i
        ensures ids[j] <= q
      {
        assert ids[..k][j] < ids[..k][i];
      }
      assert InSight(ids, q, i);
    }
    if Find(ids, q).Some? {
      TailHas(ids, k, Find(ids, q).value);
    }
  }

  function Remove(ids: seq<nat>, i: nat): seq<nat>
    requires i < |ids|
  {
    ids[..i] + ids[i + 1..]
  }

  // nvme_validate_ns; valid are the ids that can be revalidated, or allocated anew.
  function Validate(ids: seq<nat>, q: nat, valid: set<nat>): seq<nat> {
    FindExact(ids, q);
    var r := Find(ids, q);
    if r.Some? then if q in valid then ids else Remove(ids, r.value)
    else if q in valid then ids + [q]
    else ids
  }

  function Drop(ids: seq<nat>, q: nat): seq<nat> {
    FindExact(ids, q);
    var r := Find(ids, q);
    if r.Some? then Remove(ids, r.value) else ids
  }

  lemma AscendingRemove(ids: seq<nat>, i: nat)
    requires i < |ids| && Ascending(ids)
    ensures Ascending(Remove(ids, i))
  {
    var r := Remove(ids, i);
    forall a, b | 0 <= a < b < |r|
      ensures r[a] < r[b]
    {
      assert ids[if a < i then a else a + 1] < ids[if b < i then b else b + 1];
    }
  }

  lemma RemoveIs(ids: seq<nat>, k: nat, i: nat)
    requires i < k <= |ids| && Distinct(ids) && Ascending(ids[..k])
    ensures var r := Remove(ids, i);
      && Distinct(r) && k - 1 <= |r| && Ascending(r[..k - 1]) && r[k - 1..] == ids[k..]
      && (forall x | x in r[..k - 1] :: x in ids[..k])
      && forall x :: x in r <==> x in ids && x != ids[i]
  {
    var r := Remove(ids, i);
    forall x
      ensures x in r <==> x in ids && x != ids[i]
    {
      if x in ids && x != ids[i] {
        var j :| 0 <= j < |ids| && ids[j] == x;
        assert r[if j < i then j else j - 1] == x;
      }
    }
    AscendingRemove(ids[..k], i);
    assert r[..k - 1] == Remove(ids[..k], i);
  }

  // ---- Scanning by the controller's list ----

  // The controller's answer to Identify with that NSID: the next active ids in
  // ascending order, as many as a page holds; zeros fill the rest.
  function Behind(active: seq<nat>, prev: nat): seq<nat> {
    if active == [] then []
    else if active[0] > prev then active
    else Behind(active[1..], prev)
  }

  function Page(active: seq<nat>, prev: nat): (p: seq<nat>)
    ensures |p| == PAGE_IDS
  {
    var b := Behind(active, prev);
    seq(PAGE_IDS, i requires 0 <= i < PAGE_IDS => if i < |b| then b[i] else 0)
  }

  lemma {:induction false} BehindIs(active: seq<nat>, c: nat)
    requires Ascending(active) && c <= |active| && (active != [] ==> active[0] > 0)
    ensures Behind(active, if c == 0 then 0 else active[c - 1]) == active[c..]
    decreases c
  {
    if c > 0 {
      BehindSkips(active, c, active[c - 1]);
    } else {
      assert active[0..] == active;
    }
  }

  lemma {:induction false} BehindSkips(active: seq<nat>, c: nat, prev: nat)
    requires Ascending(active) && c <= |active|
    requires (forall i | 0 <= i < c :: active[i] <= prev) && (c < |active| ==> active[c] > prev)
    ensures Behind(active, prev) == active[c..]
    decreases c
  {
    if c > 0 {
      BehindSkips(active[1..], c - 1, prev);
      assert active[1..][c - 1..] == active[c..];
    } else {
      assert active[0..] == active;
    }
  }

  // The list in mid-scan: up to prev, and at the ids already validated, it is
  // reconciled; elsewhere it is as it was. The first k are old ones in order, the
  // others were appended by the scan, in order too.
  ghost predicate Mid(ids: seq<nat>, k: nat, initial: seq<nat>, done: set<nat>, prev: nat, valid: set<nat>) {
    && Distinct(ids) && k <= |ids| && Ascending(ids[..k]) && Ascending(ids[k..])
    && (forall x | x in ids[..k] :: x in initial) && (forall x | x in ids[k..] :: x in done && x !in initial)
    && (forall x :: x in ids <==> if x <= prev || x in done then x in done && x in valid else x in initial)
  }

  lemma MidStart(initial: seq<nat>, valid: set<nat>)
    requires Ascending(initial) && 0 !in initial
    ensures Mid(initial, |initial|, initial, {}, 0, valid)
  {
    assert initial[..|initial|] == initial;
  }

  // Every lookup of the scan is exact.
  lemma MidFind(ids: seq<nat>, k: nat, initial: seq<nat>, done: set<nat>, prev: nat, valid: set<nat>, q: nat)
    requires Mid(ids, k, initial, done, prev, valid) && q !in done
    ensures Find(ids, q).Some? <==> q in ids
    ensures Find(ids, q).Some? ==> Find(ids, q).value < k && ids[Find(ids, q).value] == q
  {
    FindAgrees(ids, k, q);
  }

  lemma MidRemove(ids: seq<nat>, k: nat, initial: seq<nat>, done: set<nat>, prev: nat, valid: set<nat>, i: nat)
    requires Mid(ids, k, initial, done, prev, valid) && i < k && ids[i] !in done
    ensures var r, q := Remove(ids, i), ids[i];
      && Distinct(r) && k - 1 <= |r| && Ascending(r[..k - 1]) && r[k - 1..] == ids[k..]
      && (forall x | x in r[..k - 1] :: x in initial)
      && forall x :: x in r <==> x != q && if x <= prev || x in done then x in done && x in valid else x in initial
  {
    RemoveIs(ids, k, i);
  }

  lemma MidAppend(ids: seq<nat>, k: nat, initial: seq<nat>, done: set<nat>, prev: nat, valid: set<nat>, q: nat)
    requires Mid(ids, k, initial, done, prev, valid) && q !in ids && q > prev && forall x | x in done :: x <= prev
    requires q in valid
    ensures Mid(ids + [q], k, initial, done + {q}, prev, valid)
  {
    var n := ids + [q];
    assert n[..k] == ids[..k] && n[k..] == ids[k..] + [q];
    assert forall x :: x in n <==> x in ids || x == q;
    assert forall i | 0 <= i < |ids[k..]| :: ids[k..][i] in done;
  }

  lemma MidValidate(ids: seq<nat>, k: nat, initial: seq<nat>, done: set<nat>, prev: nat, valid: set<nat>, q: nat)
    returns (k': nat)
    requires Mid(ids, k, initial, done, prev, valid) && q > prev && forall x | x in done :: x <= prev
    ensures Mid(Validate(ids, q, valid), k', initial, done + {q}, prev, valid)
  {
    hide Find, Distinct, Ascending;
    MidFind(ids, k, initial, done, prev, valid, q);
    var r := Find(ids, q);
    k' := k;
    if r.Some? && q !in valid {
      MidRemove(ids, k, initial, done, prev, valid, r.value);
      k' := k - 1;
    } else if r.None? && q in valid {
      MidAppend(ids, k, initial, done, prev, valid, q);
    }
  }

  lemma MidDrop(ids: seq<nat>, k: nat, initial: seq<nat>, done: set<nat>, prev: nat, valid: set<nat>)
    returns (k': nat)
    requires Mid(ids, k, initial, done, prev, valid) && prev + 1 !in done
    ensures Mid(Drop(ids, prev + 1), k', initial, done, prev + 1, valid)
  {
    hide Find, Distinct, Ascending;
    var q := prev + 1;
    MidFind(ids, k, initial, done, prev, valid, q);
    var r := Find(ids, q);
    k' := k;
    if r.Some? {
      MidRemove(ids, k, initial, done, prev, valid, r.value);
      k' := k - 1;
    }
  }

  // The loop over the ids between two listed ones.
  function DropAll(ids: seq<nat>, from: nat, nsid: nat): seq<nat>
    decreases nsid - from
  {
    if from >= nsid then ids else DropAll(Drop(ids, from), from + 1, nsid)
  }

  // One listed id: it is validated, and the ids skipped since prev are removed.
  function ScanOne(ids: seq<nat>, prev: nat, nsid: nat, valid: set<nat>): seq<nat> {
    DropAll(Validate(ids, nsid, valid), prev + 1, nsid)
  }

  function LastId(active: seq<nat>, c: nat): nat
    requires c <= |active|
  {
    if c == 0 then 0 else active[c - 1]
  }

  // The list after the first c listed ids.
  function ScanIds(ids: seq<nat>, active: seq<nat>, c: nat, valid: set<nat>): seq<nat>
    requires c <= |active|
  {
    if c == 0 then ids
    else ScanOne(ScanIds(ids, active, c - 1, valid), LastId(active, c - 1), active[c - 1], valid)
  }

  function Done(active: seq<nat>, c: nat): set<nat>
    requires c <= |active|
  {
    set x | x in active[..c]
  }

  // What a controller may list.
  ghost predicate Active(active: seq<nat>) {
    Ascending(active) && forall i | 0 <= i < |active| :: 0 < active[i] < 0x1_0000_0000
  }

  lemma DoneNext(active: seq<nat>, c: nat)
    requires c < |active| && Active(active)
    ensures Done(active, c + 1) == Done(active, c) + {active[c]} && LastId(active, c) < active[c]
    ensures forall x | x in Done(active, c) :: 0 < x <= LastId(active, c)
  {
    assert active[..c + 1] == active[..c] + [active[c]];
  }

  lemma {:induction false} DropAllMid(
    ids: seq<nat>, k: nat, initial: seq<nat>, done: set<nat>, from: nat, nsid: nat, valid: set<nat>)
    returns (k': nat)
    requires 0 < from <= nsid && nsid in done && (forall x | x in done :: x < from || x == nsid)
    requires Mid(ids, k, initial, done, from - 1, valid)
    ensures Mid(DropAll(ids, from, nsid), k', initial, done, nsid, valid)
    decreases nsid - from
  {
    hide Mid, Drop;
    if from == nsid {
      k' := k;
      MidRound(ids, k, initial, done, nsid, valid);
    } else {
      k' := MidDrop(ids, k, initial, done, from - 1, valid);
      k' := DropAllMid(Drop(ids, from), k', initial, done, from + 1, nsid, valid);
    }
  }

  lemma MidRound(ids: seq<nat>, k: nat, initial: seq<nat>, done: set<nat>, nsid: nat, valid: set<nat>)
    requires nsid > 0 && nsid in done && Mid(ids, k, initial, done, nsid - 1, valid)
    ensures Mid(ids, k, initial, done, nsid, valid)
  {
  }

  // At every point of its loop the scan has the list in mid-scan.
  lemma {:induction false} ScanIdsMid(initial: seq<nat>, active: seq<nat>, c: nat, valid: set<nat>) returns (k: nat)
    requires Ascending(initial) && 0 !in initial && Active(active) && c <= |active|
    ensures Mid(ScanIds(initial, active, c, valid), k, initial, Done(active, c), LastId(active, c), valid)
  {
    hide Mid, Validate, DropAll;
    if c == 0 {
      k := |initial|;
      MidStart(initial, valid);
      assert Done(active, c) == {};
    } else {
      DoneNext(active, c - 1);
      var before, done := ScanIds(initial, active, c - 1, valid), Done(active, c - 1);
      var prev, nsid := LastId(active, c - 1), active[c - 1];
      k := ScanIdsMid(initial, active, c - 1, valid);
      k := MidValidate(before, k, initial, done, prev, valid, nsid);
      k := DropAllMid(Validate(before, nsid, valid), k, initial, done + {nsid}, prev + 1, nsid, valid);
    }
  }

  // What nvme_remove_invalid_namespaces leaves; dead are the ids whose namespace is
  // marked dead by then.
  function Keep(ids: seq<nat>, last: nat, dead: set<nat>): seq<nat> {
    if ids == [] then []
    else (if ids[0] > last || ids[0] in dead then [] else [ids[0]]) + Keep(ids[1..], last, dead)
  }

  lemma KeepOne(ids: seq<nat>, i: nat, last: nat, dead: set<nat>)
    requires i < |ids|
    ensures |Remove(ids, i)| == |ids| - 1
    ensures ids[i] > last || ids[i] in dead ==>
      ids[..i] + Keep(ids[i..], last, dead) == Remove(ids, i)[..i] + Keep(Remove(ids, i)[i..], last, dead)
    ensures ids[i] <= last && ids[i] !in dead ==>
      ids[..i] + Keep(ids[i..], last, dead) == ids[..i + 1] + Keep(ids[i + 1..], last, dead)
  {
    assert ids[i..][1..] == ids[i + 1..] == Remove(ids, i)[i..];
    assert Remove(ids, i)[..i] == ids[..i] && ids[..i + 1] == ids[..i] + [ids[i]];
  }

  lemma KeepNone(last: nat, dead: set<nat>)
    ensures Keep([], last, dead) == []
  {
  }

  lemma {:induction false} KeepIs(ids: seq<nat>, last: nat, dead: set<nat>)
    ensures forall x :: x in Keep(ids, last, dead) <==> x in ids && x <= last && x !in dead
    ensures Distinct(ids) ==> Distinct(Keep(ids, last, dead))
    decreases |ids|
  {
    if ids != [] {
      KeepIs(ids[1..], last, dead);
      var t := Keep(ids[1..], last, dead);
      assert forall x :: x in ids <==> x == ids[0] || x in ids[1..];
      if Distinct(ids) {
        assert ids[0] !in ids[1..];
        assert ids[0] !in t;
      }
    }
  }

  // A finished scan: exactly the listed ids that are valid, each once.
  ghost predicate Reconciled(ids: seq<nat>, listed: seq<nat>, valid: set<nat>, dead: set<nat>) {
    Distinct(ids) && forall x :: x in ids <==> x in listed && x in valid && x !in dead
  }

  // ---- The sequential scan ----

  // Every id from i to last in turn.
  function ValidateAll(ids: seq<nat>, i: nat, last: nat, valid: set<nat>): seq<nat>
    decreases last + 1 - i
  {
    if i > last then ids else ValidateAll(Validate(ids, i, valid), i + 1, last, valid)
  }

  // Nothing larger stands before an id of the scan that is not dead anyway.
  ghost predicate NoneHidden(ids: seq<nat>, from: nat, last: nat, dead: set<nat>) {
    forall i, j | 0 <= i < j < |ids| && from <= ids[j] <= last && ids[j] !in dead :: ids[i] <= ids[j]
  }

  lemma CountRemove(ids: seq<nat>, i: nat, q: nat)
    requires i < |ids|
    ensures Occ(Remove(ids, i), q) == Occ(ids, q) - if ids[i] == q then 1 else 0
  {
    assert ids == ids[..i] + ([ids[i]] + ids[i + 1..]);
    OccAppend(ids[..i], [ids[i]] + ids[i + 1..], q);
    OccAppend([ids[i]], ids[i + 1..], q);
    OccAppend(ids[..i], ids[i + 1..], q);
    assert [ids[i]][1..] == [];
  }

  lemma ValidateCount(ids: seq<nat>, i: nat, valid: set<nat>, q: nat)
    ensures q != i ==> Occ(Validate(ids, i, valid), q) == Occ(ids, q)
    ensures Find(ids, i).Some? ==> Occ(Validate(ids, i, valid), i) == Occ(ids, i) - if i in valid then 0 else 1
    ensures Find(ids, i).None? ==> Occ(Validate(ids, i, valid), i) == Occ(ids, i) + if i in valid then 1 else 0
  {
    FindExact(ids, i);
    var r := Find(ids, i);
    if r.Some? {
      CountRemove(ids, r.value, q);
      CountRemove(ids, r.value, i);
    } else {
      OccAppend(ids, [i], q);
      OccAppend(ids, [i], i);
      assert [i][1..] == [];
    }
  }

  // An id out of sight stays so until its turn.
  lemma HiddenStays(ids: seq<nat>, i: nat, valid: set<nat>, q: nat)
    requires i < q && q in ids && Find(ids, q).None?
    ensures q in Validate(ids, i, valid) && Find(Validate(ids, i, valid), q).None?
  {
    hide Find;
    var n := Validate(ids, i, valid);
    FindExact(ids, i);
    FindExact(ids, q);
    FindExact(n, q);
    ValidateCount(ids, i, valid, q);
    OccIn(ids, q);
    OccIn(n, q);
    forall k: nat
      ensures !InSight(n, q, k)
    {
      if k < |n| && n[k] == q {
        HiddenAt(ids, i, valid, q, k);
      }
    }
  }

  lemma HiddenAt(ids: seq<nat>, i: nat, valid: set<nat>, q: nat, k: nat)
    requires i < q && (forall l :: !InSight(ids, q, l))
    requires var n := Validate(ids, i, valid); k < |n| && n[k] == q
    ensures !InSight(Validate(ids, i, valid), q, k)
  {
    hide Find;
    FindExact(ids, i);
    var r, n := Find(ids, i), Validate(ids, i, valid);
    var removed := r.Some? && i !in valid;
    var l := if removed && k >= r.value then k + 1 else k;
    assert ids[l] == q;
    assert !InSight(ids, q, l);
    var j :| 0 <= j < l && ids[j] > q;
    assert n[if removed && j > r.value then j - 1 else j] == ids[j];
  }

  lemma VisibleStays(ids: seq<nat>, i: nat, valid: set<nat>, q: nat)
    requires i < q && Find(ids, q).Some?
    ensures Find(Validate(ids, i, valid), q).Some?
  {
    hide Find;
    var n := Validate(ids, i, valid);
    FindExact(ids, i);
    FindExact(ids, q);
    FindExact(n, q);
    var k, r := Find(ids, q).value, Find(ids, i);
    var removed := r.Some? && i !in valid;
    assert InSight(n, q, if removed && k > r.value then k - 1 else k);
  }

  lemma SightStays(ids: seq<nat>, i: nat, valid: set<nat>, q: nat)
    requires i < q
    ensures Find(Validate(ids, i, valid), q).Some? <==> Find(ids, q).Some?
  {
    hide Find, Validate;
    if Find(ids, q).Some? {
      VisibleStays(ids, i, valid, q);
    } else if q in ids {
      HiddenStays(ids, i, valid, q);
    } else {
      ValidateCount(ids, i, valid, q);
      OccIn(ids, q);
      OccIn(Validate(ids, i, valid), q);
      FindExact(Validate(ids, i, valid), q);
    }
  }

  lemma {:induction false} CountLater(ids: seq<nat>, i: nat, last: nat, valid: set<nat>, q: nat)
    requires q < i
    ensures Occ(ValidateAll(ids, i, last, valid), q) == Occ(ids, q)
    decreases last + 1 - i
  {
    hide Validate, Find;
    if i <= last {
      ValidateCount(ids, i, valid, q);
      CountLater(Validate(ids, i, valid), i + 1, last, valid, q);
    }
  }

  // What the sequential scan makes of one id: right if the id was in sight or not
  // there, one too many if it was there out of sight.
  lemma {:induction false} CountAfter(ids: seq<nat>, i: nat, last: nat, valid: set<nat>, q: nat)
    requires i <= q <= last
    ensures Occ(ValidateAll(ids, i, last, valid), q) ==
      if Find(ids, q).Some? then Occ(ids, q) - (if q in valid then 0 else 1)
      else Occ(ids, q) + (if q in valid then 1 else 0)
    decreases last + 1 - i
  {
    hide Validate, Find;
    ValidateCount(ids, i, valid, q);
    if i == q {
      CountLater(Validate(ids, i, valid), i + 1, last, valid, q);
    } else {
      SightStays(ids, i, valid, q);
      CountAfter(Validate(ids, i, valid), i + 1, last, valid, q);
    }
  }

  lemma {:induction false} KeepCount(ids: seq<nat>, last: nat, dead: set<nat>, q: nat)
    ensures Occ(Keep(ids, last, dead), q) == if q <= last && q !in dead then Occ(ids, q) else 0
    decreases |ids|
  {
    if ids != [] {
      KeepCount(ids[1..], last, dead, q);
      var head := if ids[0] > last || ids[0] in dead then [] else [ids[0]];
      OccAppend(head, Keep(ids[1..], last, dead), q);
      assert [ids[0]][1..] == [];
    }
  }

  // Exactly the valid ids up to last, each once.
  ghost predicate Exact(ids: seq<nat>, last: nat, valid: set<nat>) {
    forall q: nat :: Occ(ids, q) == if 1 <= q <= last && q in valid then 1 else 0
  }

  lemma NoneHiddenExact(ids: seq<nat>, last: nat, dead: set<nat>, q: nat)
    requires Distinct(ids) && 1 <= q <= last && q in ids && q !in dead && NoneHidden(ids, 1, last, dead)
    ensures Find(ids, q).Some?
  {
    hide Find;
    FindExact(ids, q);
    var k :| 0 <= k < |ids| && ids[k] == q;
    assert InSight(ids, q, k);
  }

  // The sequential scan is right exactly when no id it asks for stands behind a
  // larger one: always on the sorted list of a scan that has not begun, but not
  // after a scan by the controller's list failed half way.
  lemma SequentialExact(ids: seq<nat>, last: nat, valid: set<nat>, dead: set<nat>)
    requires Distinct(ids) && 0 !in ids
    ensures Exact(Keep(ValidateAll(ids, 1, last, valid), last, dead), last, valid - dead) <==> NoneHidden(ids, 1, last, dead)
  {
    hide Find, ValidateAll, Keep, Occ, NoneHidden;
    var all := ValidateAll(ids, 1, last, valid);
    var result := Keep(all, last, dead);
    if NoneHidden(ids, 1, last, dead) {
      forall q: nat
        ensures Occ(result, q) == if 1 <= q <= last && q in valid - dead then 1 else 0
      {
        OneId(ids, last, valid, dead, q);
        if 1 <= q <= last && q in ids && q !in dead {
          NoneHiddenExact(ids, last, dead, q);
        }
      }
    } else {
      var q := HiddenId(ids, last, dead);
      OneId(ids, last, valid, dead, q);
    }
  }

  lemma OneId(ids: seq<nat>, last: nat, valid: set<nat>, dead: set<nat>, q: nat)
    requires Distinct(ids) && 0 !in ids
    ensures var n := Occ(Keep(ValidateAll(ids, 1, last, valid), last, dead), q);
      && (q == 0 || q > last || q in dead ==> n == 0)
      && (1 <= q <= last && q !in dead ==>
            var there, ok := if q in ids then 1 else 0, if q in valid then 1 else 0;
            n == if Find(ids, q).Some? then ok else there + ok)
  {
    hide Find, ValidateAll, Keep, Occ;
    KeepCount(ValidateAll(ids, 1, last, valid), last, dead, q);
    OccIn(ids, q);
    FindExact(ids, q);
    if q == 0 {
      CountLater(ids, 1, last, valid, q);
    } else if q <= last {
      CountAfter(ids, 1, last, valid, q);
    }
  }

  lemma HiddenId(ids: seq<nat>, last: nat, dead: set<nat>) returns (q: nat)
    requires Distinct(ids) && 0 !in ids && !NoneHidden(ids, 1, last, dead)
    ensures 1 <= q <= last && q in ids && q !in dead && Find(ids, q).None?
  {
    hide Find;
    var i, j :| 0 <= i < j < |ids| && 1 <= ids[j] <= last && ids[j] !in dead && ids[i] > ids[j];
    q := ids[j];
    FindExact(ids, q);
  }

  // ---- The fallback after a failed list scan ----

  // The first page that cannot be had of those asked for, i on; size is how many ids
  // are active.
  function FailedPage(i: nat, nn: nat, size: nat, fails: set<nat>): (p: Option<nat>)
    ensures p.Some? ==> p.value * PAGE_IDS <= size
    decreases CeilDiv(nn, PAGE_IDS) - i
  {
    if i >= CeilDiv(nn, PAGE_IDS) || i * PAGE_IDS > size then None
    else if i in fails then Some(i)
    else FailedPage(i + 1, nn, size, fails)
  }

  // Some id up to last was added by the scan that stopped at prev and stands, being
  // new, behind a larger one that was there and is still.
  ghost predicate Overtaken(initial: seq<nat>, done: set<nat>, prev: nat, last: nat, valid: set<nat>, dead: set<nat>) {
    exists x, y ::
      && x in done && x in valid && x !in initial && x !in dead && x <= last
      && y in initial && y > x && (y in done ==> y in valid) && (y <= prev ==> y in done)
  }

  lemma HiddenIs(ids: seq<nat>, k: nat, initial: seq<nat>, done: set<nat>, prev: nat, last: nat, valid: set<nat>,
    dead: set<nat>)
    requires Mid(ids, k, initial, done, prev, valid) && 0 !in done
    ensures NoneHidden(ids, 1, last, dead) <==> !Overtaken(initial, done, prev, last, valid, dead)
  {
    hide Mid, Overtaken;
    if !NoneHidden(ids, 1, last, dead) {
      var i, j :| 0 <= i < j < |ids| && 1 <= ids[j] <= last && ids[j] !in dead && ids[i] > ids[j];
      HiddenOvertaken(ids, k, initial, done, prev, last, valid, dead, i, j);
    }
    if Overtaken(initial, done, prev, last, valid, dead) {
      OvertakenHidden(ids, k, initial, done, prev, last, valid, dead);
    }
  }

  lemma HiddenOvertaken(
    ids: seq<nat>, k: nat, initial: seq<nat>, done: set<nat>, prev: nat, last: nat, valid: set<nat>,
    dead: set<nat>, i: nat, j: nat)
    requires Mid(ids, k, initial, done, prev, valid)
    requires i < j < |ids| && ids[j] <= last && ids[j] !in dead && ids[i] > ids[j]
    ensures Overtaken(initial, done, prev, last, valid, dead)
  {
    hide Distinct;
    HiddenPlaces(ids, k, i, j);
    assert ids[..k][i] in initial;
    TailHas(ids, k, j);
    assert ids[i] in ids && ids[j] in ids;
    assert ids[j] in done && ids[j] in valid && ids[j] !in initial;
  }

  lemma HiddenPlaces(ids: seq<nat>, k: nat, i: nat, j: nat)
    requires k <= |ids| && Ascending(ids[..k]) && Ascending(ids[k..])
    requires i < j < |ids| && ids[i] > ids[j]
    ensures i < k <= j
  {
    forall a, b | 0 <= a < b < k
      ensures ids[a] < ids[b]
    {
      assert ids[..k][a] < ids[..k][b];
    }
    forall a, b | k <= a < b < |ids|
      ensures ids[a] < ids[b]
    {
      assert ids[k..][a - k] < ids[k..][b - k];
    }
  }

  lemma OvertakenHidden(ids: seq<nat>, k: nat, initial: seq<nat>, done: set<nat>, prev: nat, last: nat, valid: set<nat>,
    dead: set<nat>)
    requires Mid(ids, k, initial, done, prev, valid) && 0 !in done && Overtaken(initial, done, prev, last, valid, dead)
    ensures !NoneHidden(ids, 1, last, dead)
  {
    hide Distinct, Ascending;
    var x, y :|
      && x in done && x in valid && x !in initial && x !in dead && x <= last
      && y in initial && y > x && (y in done ==> y in valid) && (y <= prev ==> y in done);
    assert x in ids && y in ids;
    var i :| 0 <= i < |ids| && ids[i] == y;
    var j :| 0 <= j < |ids| && ids[j] == x;
    TailHas(ids, k, i);
    forall n | 0 <= n < k
      ensures ids[n] in initial
    {
      assert ids[..k][n] in initial;
    }
  }

  // What the sequential scan makes of the list a failed list scan left behind: it is
  // right if and only if no id was overtaken.
  lemma FallbackExact(initial: seq<nat>, active: seq<nat>, c: nat, last: nat, valid: set<nat>, dead: set<nat>)
    requires Ascending(initial) && 0 !in initial && Active(active) && c <= |active|
    ensures Exact(Keep(ValidateAll(ScanIds(initial, active, c, valid), 1, last, valid), last, dead), last, valid - dead) <==>
            !Overtaken(initial, Done(active, c), LastId(active, c), last, valid, dead)
  {
    hide Keep, ValidateAll, ScanIds, Exact, NoneHidden, Overtaken;
    var k := ScanIdsMid(initial, active, c, valid);
    var left := ScanIds(initial, active, c, valid);
    assert 0 !in Done(active, c);
    assert 0 !in left;
    HiddenIs(left, k, initial, Done(active, c), LastId(active, c), last, valid, dead);
    SequentialExact(left, last, valid, dead);
  }

  // It can go wrong: the second page cannot be had, and the new ids of the first stand
  // behind the old one.
  lemma FailedListScan(active: seq<nat>, valid: set<nat>)
    requires |active| == 2000 && (forall i | 0 <= i < 2000 :: active[i] == i + 1) && valid == Done(active, 2000)
    ensures FailedPage(0, 2000, 2000, {1}) == Some(1)
    ensures !Exact(Keep(ValidateAll(ScanIds([2000], active, 1 * PAGE_IDS, valid), 1, 2000, valid), 2000, {}), 2000, valid)
  {
    hide ScanIds, Keep, ValidateAll, Exact, Find;
    FallbackExact([2000], active, PAGE_IDS, 2000, valid, {});
    assert valid - {} == valid;
    assert active[..PAGE_IDS][0] == 1 && active[..2000][0] == 1;
    var x, y := 1, 2000;
    assert x in Done(active, PAGE_IDS) && x in valid && y in [2000] && y !in Done(active, PAGE_IDS);
  }

  // ---- list_sort ----

  // No two ids are further apart than an int can say.
  ghost predicate Near(ids: seq<nat>) {
    forall x, y | x in ids && y in ids :: x < y + 0x8000_0000
  }

  // list_sort is not part of this model; it merges sublists, in an order of its own,
  // and keeps the order of two elements that compare as not positive.
  datatype Merges = One | Both(first: Merges, second: Merges)

  function Leaves(m: Merges): (n: nat)
    ensures n > 0 && (n == 1 <==> m.One?)
  {
    match m
    case One => 1
    case Both(f, s) => Leaves(f) + Leaves(s)
  }

  function Merge(a: seq<nat>, b: seq<nat>): seq<nat>
    decreases |a| + |b|
  {
    if a == [] then b
    else if b == [] then a
    else if NsCmp(a[0], b[0]) <= 0 then [a[0]] + Merge(a[1..], b)
    else [b[0]] + Merge(a, b[1..])
  }

  function Sort(m: Merges, ids: seq<nat>): seq<nat>
    requires |ids| == Leaves(m)
  {
    match m
    case One => ids
    case Both(f, s) => Merge(Sort(f, ids[..Leaves(f)]), Sort(s, ids[Leaves(f)..]))
  }

  lemma {:induction false} MergeHas(a: seq<nat>, b: seq<nat>)
    ensures multiset(Merge(a, b)) == multiset(a) + multiset(b)
    decreases |a| + |b|
  {
    hide NsCmp;
    if a != [] && b != [] {
      assert a == [a[0]] + a[1..] && b == [b[0]] + b[1..];
      if NsCmp(a[0], b[0]) <= 0 {
        MergeHas(a[1..], b);
      } else {
        MergeHas(a, b[1..]);
      }
    }
  }

  lemma {:induction false} SortHas(m: Merges, ids: seq<nat>)
    requires |ids| == Leaves(m)
    ensures multiset(Sort(m, ids)) == multiset(ids)
  {
    hide Merge;
    match m
    case One =>
    case Both(f, s) =>
      var n := Leaves(f);
      assert ids == ids[..n] + ids[n..];
      SortHas(f, ids[..n]);
      SortHas(s, ids[n..]);
      MergeHas(Sort(f, ids[..n]), Sort(s, ids[n..]));
  }

  // Two arrangements of the same ids.
  ghost predicate Arranges(a: seq<nat>, ids: seq<nat>) {
    multiset(a) == multiset(ids)
  }

  lemma {:induction false} OccBag(s: seq<nat>, x: nat)
    ensures Occ(s, x) == multiset(s)[x]
  {
    if s != [] {
      assert s == [s[0]] + s[1..];
      OccBag(s[1..], x);
    }
  }

  lemma ArrangesIs(a: seq<nat>, ids: seq<nat>)
    requires Arranges(a, ids)
    ensures |a| == |ids| && (Distinct(a) <==> Distinct(ids)) && (Near(a) <==> Near(ids))
    ensures forall x :: Occ(a, x) == Occ(ids, x) && (x in a <==> x in ids)
  {
    hide Occ;
    assert |multiset(a)| == |multiset(ids)|;
    forall x: nat
      ensures Occ(a, x) == Occ(ids, x) && (x in a <==> x in ids)
    {
      OccBag(a, x);
      OccBag(ids, x);
      OccIn(a, x);
      OccIn(ids, x);
    }
    if Distinct(a) {
      OccDistinctAs(a, ids);
    }
    if Distinct(ids) {
      OccDistinctAs(ids, a);
    }
  }

  lemma OccDistinctAs(a: seq<nat>, b: seq<nat>)
    requires Distinct(a) && forall x: nat :: Occ(a, x) == Occ(b, x)
    ensures Distinct(b)
  {
    hide Occ, Distinct;
    forall x: nat
      ensures Occ(b, x) <= 1
    {
      OccIn(a, x);
    }
    OccDistinct(b);
  }

  lemma {:induction false} MergeAscending(a: seq<nat>, b: seq<nat>)
    requires Ascending(a) && Ascending(b) && Near(a + b) && forall x | x in a :: x !in b
    ensures Ascending(Merge(a, b))
    decreases |a| + |b|
  {
    hide NsCmp, Near;
    if a != [] && b != [] {
      NearCmp(a + b, a[0], b[0]);
      if a[0] < b[0] {
        NearPart(a + b, a[1..] + b);
        MergeAscending(a[1..], b);
        AscendingCons(a[0], a[1..], b);
        assert Merge(a, b) == [a[0]] + Merge(a[1..], b);
      } else {
        NearPart(a + b, a + b[1..]);
        MergeAscending(a, b[1..]);
        AscendingCons(b[0], a, b[1..]);
        assert Merge(a, b) == [b[0]] + Merge(a, b[1..]);
      }
    }
  }

  lemma NearCmp(ids: seq<nat>, x: nat, y: nat)
    requires Near(ids) && x in ids && y in ids
    ensures NsCmp(x, y) <= 0 <==> x <= y
  {
  }

  lemma NearPart(ids: seq<nat>, part: seq<nat>)
    requires Near(ids) && forall x | x in part :: x in ids
    ensures Near(part)
  {
  }

  lemma MergeMember(a: seq<nat>, b: seq<nat>, x: nat)
    ensures x in Merge(a, b) <==> x in a || x in b
  {
    MergeHas(a, b);
    assert x in Merge(a, b) <==> x in multiset(a) + multiset(b);
  }

  lemma AscendingCons(h: nat, a: seq<nat>, b: seq<nat>)
    requires Ascending(Merge(a, b)) && (forall x | x in a :: h < x) && (forall x | x in b :: h < x)
    ensures Ascending([h] + Merge(a, b))
  {
    var t := Merge(a, b);
    forall i | 0 <= i < |t|
      ensures h < t[i]
    {
      MergeMember(a, b, t[i]);
    }
  }

  lemma {:induction false} SortAscending(m: Merges, ids: seq<nat>)
    requires |ids| == Leaves(m) && Distinct(ids) && Near(ids)
    ensures Ascending(Sort(m, ids))
  {
    hide Merge, Near;
    match m
    case One =>
    case Both(f, s) =>
      var n := Leaves(f);
      var a, b := Sort(f, ids[..n]), Sort(s, ids[n..]);
      NearPart(ids, ids[..n]);
      NearPart(ids, ids[n..]);
      SortAscending(f, ids[..n]);
      SortAscending(s, ids[n..]);
      SortHas(f, ids[..n]);
      SortHas(s, ids[n..]);
      SameMembers(a, ids[..n]);
      SameMembers(b, ids[n..]);
      NearPart(ids, a + b);
      MergeAscending(a, b);
  }

  lemma SameMembers(a: seq<nat>, b: seq<nat>)
    requires multiset(a) == multiset(b)
    ensures forall x :: x in a <==> x in b
  {
    assert forall x :: x in a <==> x in multiset(a);
    assert forall x :: x in b <==> x in multiset(b);
  }

  ghost predicate Before(s: seq<nat>, x: nat, y: nat) {
    exists i, j :: 0 <= i < j < |s| && s[i] == x && s[j] == y
  }

  lemma BeforeHead(s: seq<nat>, x: nat, y: nat)
    requires s != []
    ensures Before(s, x, y) <==> (s[0] == x && y in s[1..]) || Before(s[1..], x, y)
  {
    var t := s[1..];
    if Before(s, x, y) {
      var i, j :| 0 <= i < j < |s| && s[i] == x && s[j] == y;
      assert t[j - 1] == y && (i > 0 ==> t[i - 1] == x);
    }
    if Before(t, x, y) {
      var i, j :| 0 <= i < j < |t| && t[i] == x && t[j] == y;
      assert s[i + 1] == x && s[j + 1] == y;
    }
    if s[0] == x && y in t {
      var j :| 0 <= j < |t| && t[j] == y;
      assert s[j + 1] == y;
    }
  }

  // A merge keeps the order of what it merges.
  lemma {:induction false} MergeBefore(a: seq<nat>, b: seq<nat>, x: nat, y: nat)
    requires Before(a, x, y) || Before(b, x, y)
    ensures Before(Merge(a, b), x, y)
    decreases |a| + |b|
  {
    hide Before, NsCmp;
    if a != [] && b != [] {
      var first := NsCmp(a[0], b[0]) <= 0;
      var h, a', b' := if first then a[0] else b[0], if first then a[1..] else a, if first then b else b[1..];
      BeforeHead(a, x, y);
      BeforeHead(b, x, y);
      assert Merge(a, b) == [h] + Merge(a', b');
      BeforeHead(Merge(a, b), x, y);
      if Before(a', x, y) || Before(b', x, y) {
        MergeBefore(a', b', x, y);
      } else {
        MergeMember(a', b', y);
      }
    } else {
      BeforeEmpty(x, y);
    }
  }

  lemma BeforeEmpty(x: nat, y: nat)
    ensures !Before([], x, y)
  {
  }

  // Where two single elements are merged.
  function FirstPair(m: Merges): (p: nat)
    requires m.Both?
    ensures p + 1 < Leaves(m)
  {
    if m.first.Both? then FirstPair(m.first)
    else if m.second.Both? then 1 + FirstPair(m.second)
    else 0
  }

  lemma {:induction false} PairStays(m: Merges, ids: seq<nat>)
    requires m.Both? && |ids| == Leaves(m)
    requires NsCmp(ids[FirstPair(m)], ids[FirstPair(m) + 1]) <= 0
    ensures Before(Sort(m, ids), ids[FirstPair(m)], ids[FirstPair(m) + 1])
  {
    hide NsCmp, Before;
    var p, n := FirstPair(m), Leaves(m.first);
    var a, b := ids[..n], ids[n..];
    if m.first.Both? {
      PairStays(m.first, a);
      MergeBefore(Sort(m.first, a), Sort(m.second, b), ids[p], ids[p + 1]);
    } else if m.second.Both? {
      PairStays(m.second, b);
      MergeBefore(Sort(m.first, a), Sort(m.second, b), ids[p], ids[p + 1]);
    } else {
      assert a == [ids[0]] && b == [ids[1]];
      assert Merge(a, b) == [ids[0]] + ([] + b) by { assert a[1..] == []; }
      BeforeHead(Merge(a, b), ids[0], ids[1]);
      assert Merge(a, b)[1..] == b;
    }
  }

  // Brings two ids to positions p and p + 1.
  lemma BringTogether(ids: seq<nat>, p: nat, x: nat, y: nat) returns (a: seq<nat>)
    requires x in ids && y in ids && x != y && p + 1 < |ids|
    ensures Arranges(a, ids) && |a| == |ids| && a[p] == x && a[p + 1] == y
  {
    var i :| 0 <= i < |ids| && ids[i] == x;
    var r := RemoveBag(ids, i);
    assert y in multiset(r);
    var j :| 0 <= j < |r| && r[j] == y;
    r := RemoveBag(r, j);
    a := r[..p] + [x, y] + r[p..];
    assert r == r[..p] + r[p..];
    assert multiset(a) == multiset(r) + multiset{y} + multiset{x};
  }

  lemma RemoveBag(ids: seq<nat>, i: nat) returns (r: seq<nat>)
    requires i < |ids|
    ensures r == Remove(ids, i) && multiset(ids) == multiset(r) + multiset{ids[i]}
  {
    r := Remove(ids, i);
    assert ids == ids[..i] + [ids[i]] + ids[i + 1..];
  }

  // However it merges, list_sort brings every arrangement of some ids in ascending
  // order if and only if no two of them are further apart than an int can say.
  lemma SortExact(m: Merges, ids: seq<nat>)
    requires |ids| == Leaves(m) && Distinct(ids) && forall x | x in ids :: x < 0x1_0000_0000
    ensures (forall a | Arranges(a, ids) :: |a| == Leaves(m) && Ascending(Sort(m, a))) <==> Near(ids)
  {
    hide Sort, Ascending;
    forall a | Arranges(a, ids)
      ensures |a| == Leaves(m) && (Near(ids) ==> Ascending(Sort(m, a)))
    {
      ArrangesIs(a, ids);
      if Near(ids) {
        SortAscending(m, a);
      }
    }
    if !Near(ids) {
      var x, y :| x in ids && y in ids && x >= y + 0x8000_0000;
      assert |ids| > 1;
      var a := BringTogether(ids, FirstPair(m), x, y);
      PairStays(m, a);
      AscendingNotBefore(Sort(m, a), x, y);
    }
  }

  lemma AscendingNotBefore(s: seq<nat>, x: nat, y: nat)
    requires Before(s, x, y) && x >= y
    ensures !Ascending(s)
  {
  }

  // The smaller of two such ids is then not found again.
  lemma SortMisorders()
    ensures Sort(Both(One, One), [1, 0x8000_0002]) == [0x8000_0002, 1] && Find([0x8000_0002, 1], 1).None?
  {
    var a, b := [1], [0x8000_0002];
    assert [1, 0x8000_0002][..1] == a && [1, 0x8000_0002][1..] == b && b[1..] == [];
    assert NsCmp(1, 0x8000_0002) > 0;
    assert Merge(a, b) == b + Merge(a, []);
  }

  // How list_sort merges a list of each length.
  type Merging = f: nat -> Merges | forall n: nat | n > 0 :: Leaves(f(n)) == n witness OneByOne

  function OneByOne(n: nat): (m: Merges)
    ensures n > 0 ==> Leaves(m) == n
  {
    if n <= 1 then One else Both(One, OneByOne(n - 1))
  }

  function Sorted(merging: Merging, ids: seq<nat>): seq<nat> {
    if ids == [] then [] else Sort(merging(|ids|), ids)
  }

  lemma SortedIs(merging: Merging, ids: seq<nat>)
    ensures Arranges(Sorted(merging, ids), ids)
    ensures Distinct(ids) && Near(ids) ==> Ascending(Sorted(merging, ids))
  {
    if ids != [] {
      SortHas(merging(|ids|), ids);
      if Distinct(ids) && Near(ids) {
        SortAscending(merging(|ids|), ids);
      }
    }
  }

  // ---- The whole scan ----

  // The controller: its active ids, the pages of them that cannot be had, the ids
  // that validate, and those whose namespace is marked dead before the clean-up.
  datatype Device = Device(active: seq<nat>, fails: set<nat>, valid: set<nat>, dead: set<nat>) {
    // Whether a scan by the list gets all the pages it asks for.
    predicate Served(nn: nat) {
      FailedPage(0, nn, |active|, fails).None?
    }

    // How many listed ids it gets to.
    function Reached(nn: nat): (c: nat)
      ensures c <= |active|
    {
      match FailedPage(0, nn, |active|, fails)
      case None => Min(nn, |active|)
      case Some(p) => p * PAGE_IDS
    }
  }

  function ScannedByList(ids: seq<nat>, nn: nat, device: Device): seq<nat> {
    var c := device.Reached(nn);
    var left := ScanIds(ids, device.active, c, device.valid);
    if device.Served(nn) then Keep(left, LastId(device.active, c), device.dead) else left
  }

  function ScannedInSequence(ids: seq<nat>, nn: nat, device: Device): seq<nat> {
    Keep(ValidateAll(ids, 1, nn, device.valid), nn, device.dead)
  }

  // nvme_scan_work up to the sorting; listed says whether the controller has the list.
  function Scanned(ids: seq<nat>, nn: nat, listed: bool, device: Device): seq<nat> {
    if !listed then ScannedInSequence(ids, nn, device)
    else if device.Served(nn) then ScannedByList(ids, nn, device)
    else ScannedInSequence(ScannedByList(ids, nn, device), nn, device)
  }

  // What a scan takes for granted of the list.
  ghost predicate Ready(ids: seq<nat>) {
    Ascending(ids) && 0 !in ids
  }

  // A scan that gets its pages leaves just the listed ids that are valid.
  lemma ListMeaning(ids: seq<nat>, nn: nat, device: Device)
    requires Ready(ids) && Active(device.active) && device.Served(nn)
    ensures Reconciled(ScannedByList(ids, nn, device), device.active[..Min(nn, |device.active|)], device.valid, device.dead)
  {
    hide ScanIds, Mid;
    var c := device.Reached(nn);
    var k := ScanIdsMid(ids, device.active, c, device.valid);
    MidEnd(ScanIds(ids, device.active, c, device.valid), k, ids, device.active, c, device.valid, device.dead);
  }

  lemma MidEnd(ids: seq<nat>, k: nat, initial: seq<nat>, active: seq<nat>, c: nat, valid: set<nat>, dead: set<nat>)
    requires c <= |active| && Active(active)
    requires Mid(ids, k, initial, Done(active, c), LastId(active, c), valid)
    ensures Reconciled(Keep(ids, LastId(active, c), dead), active[..c], valid, dead)
  {
    var prev := LastId(active, c);
    KeepIs(ids, prev, dead);
    assert forall x | x in active[..c] :: x in Done(active, c) && x <= prev;
  }

  // The other ways of scanning leave just the valid ids up to nn that are not dead:
  // without the list always, with it if and only if no id was overtaken.
  lemma SequenceMeaning(ids: seq<nat>, nn: nat, listed: bool, device: Device)
    requires Ready(ids) && Active(device.active) && (listed ==> !device.Served(nn))
    ensures var c := device.Reached(nn);
      Exact(Scanned(ids, nn, listed, device), nn, device.valid - device.dead) <==>
      !listed || !Overtaken(ids, Done(device.active, c), LastId(device.active, c), nn, device.valid, device.dead)
  {
    hide Keep, ValidateAll, ScanIds, Exact;
    if listed {
      FallbackExact(ids, device.active, device.Reached(nn), nn, device.valid, device.dead);
    } else {
      assert NoneHidden(ids, 1, nn, device.dead);
      SequentialExact(ids, nn, device.valid, device.dead);
    }
  }

  lemma ExactReady(merging: Merging, ids: seq<nat>, nn: nat, valid: set<nat>)
    ensures Exact(Sorted(merging, ids), nn, valid) <==> Exact(ids, nn, valid)
    ensures Exact(ids, nn, valid) && Near(ids) ==> Ready(Sorted(merging, ids))
  {
    hide Sorted, Occ, Near;
    var r := Sorted(merging, ids);
    SortedIs(merging, ids);
    ArrangesIs(r, ids);
    assert Exact(ids, nn, valid) ==> Exact(r, nn, valid);
    assert Exact(r, nn, valid) ==> Exact(ids, nn, valid);
    if Exact(ids, nn, valid) {
      OccDistinct(ids);
      OccIn(ids, 0);
    }
  }

  lemma ReconciledReady(merging: Merging, ids: seq<nat>, listed: seq<nat>, valid: set<nat>, dead: set<nat>)
    requires Reconciled(ids, listed, valid, dead) && 0 !in listed
    ensures Reconciled(Sorted(merging, ids), listed, valid, dead)
    ensures Near(ids) ==> Ready(Sorted(merging, ids))
  {
    hide Sorted, Near;
    SortedIs(merging, ids);
    ArrangesIs(Sorted(merging, ids), ids);
  }

  // ---- The driver's code ----

  lemma PageIs(active: seq<nat>, c: nat, j: nat)
    requires Active(active) && c <= |active| && j < PAGE_IDS
    ensures Page(active, LastId(active, c))[j] == if c + j < |active| then active[c + j] else 0
  {
    BehindIs(active, c);
  }

  class NsCtrl {
    const merging: Merging
    var namespaces: seq<nat>

    constructor (merging: Merging)
      ensures this.merging == merging && namespaces == []
    {
      this.merging, namespaces := merging, [];
    }

    method FindGetNs(nsid: nat) returns (r: Option<nat>)
      ensures r == Find(namespaces, nsid)
      ensures r.Some? ==> r.value < |namespaces|
    {
      var i := 0;
      FindExact(namespaces, nsid);
      assert namespaces[0..] == namespaces;
      while i < |namespaces|
        invariant i <= |namespaces|
        invariant Find(namespaces, nsid) ==
          var rest := Find(namespaces[i..], nsid); if rest.Some? then Some(rest.value + i) else None
      {
        assert namespaces[i..][1..] == namespaces[i + 1..];
        if namespaces[i] == nsid {
          return Some(i);
        }
        if namespaces[i] > nsid {
          break;
        }
        i := i + 1;
      }
      r := None;
    }

    method NsRemove(i: nat)
      requires i < |namespaces|
      modifies this
      ensures namespaces == Remove(old(namespaces), i)
    {
      namespaces := namespaces[..i] + namespaces[i + 1..];
    }

    method ValidateNs(nsid: nat, valid: set<nat>)
      modifies this
      ensures namespaces == Validate(old(namespaces), nsid, valid)
    {
      var ns := FindGetNs(nsid);
      if ns.Some? {
        if nsid !in valid {
          NsRemove(ns.value);
        }
      } else if nsid in valid {
        namespaces := namespaces + [nsid];
      }
    }

    method RemoveInvalidNamespaces(nsid: nat, dead: set<nat>)
      modifies this
      ensures namespaces == Keep(old(namespaces), nsid, dead)
    {
      hide Keep, Remove;
      var i := 0;
      assert namespaces[0..] == namespaces;
      while i < |namespaces|
        invariant i <= |namespaces|
        invariant Keep(old(namespaces), nsid, dead) == namespaces[..i] + Keep(namespaces[i..], nsid, dead)
        decreases |namespaces| - i
      {
        KeepOne(namespaces, i, nsid, dead);
        if namespaces[i] > nsid || namespaces[i] in dead {
          NsRemove(i);
        } else {
          i := i + 1;
        }
      }
      KeepNone(nsid, dead);
      assert namespaces[i..] == [];
    }

    // The body of the inner loop of nvme_scan_ns_list.
    method ScanId(nsid: nat, prev0: nat, valid: set<nat>) returns (prev: nat)
      requires prev0 < nsid
      modifies this
      ensures prev == nsid && namespaces == ScanOne(old(namespaces), prev0, nsid, valid)
    {
      hide Validate, Find;
      ValidateNs(nsid, valid);
      prev := prev0 + 1;
      while prev < nsid
        invariant prev0 < prev <= nsid
        invariant DropAll(namespaces, prev, nsid) == ScanOne(old(namespaces), prev0, nsid, valid)
      {
        var ns := FindGetNs(prev);
        if ns.Some? {
          NsRemove(ns.value);
        }
        prev := prev + 1;
      }
    }

    method ScanNsList(nn0: nat, device: Device) returns (ret: int)
      requires Active(device.active)
      modifies this
      ensures ret == 0 <==> device.Served(nn0)
      ensures namespaces == ScannedByList(old(namespaces), nn0, device)
      // What that comes to is the list of valid ids.
      ensures ret == 0 && old(Ready(namespaces)) ==>
        Reconciled(namespaces, device.active[..Min(nn0, |device.active|)], device.valid, device.dead)
    {
      hide Keep, ScanOne, Page, Ready, Reconciled;
      var active, fails, nn, prev, i := device.active, device.fails, nn0, 0, 0;
      ghost var initial, c := namespaces, 0;
      var numLists := CeilDiv(nn, PAGE_IDS);
      while i < numLists
        invariant i <= numLists && c <= |active| && c + nn == nn0 && c == Min(nn0, i * PAGE_IDS)
        invariant prev == LastId(active, c) && namespaces == ScanIds(initial, active, c, device.valid)
        invariant FailedPage(0, nn0, |active|, fails) == FailedPage(i, nn0, |active|, fails)
      {
        if i in fails {
          ret := -1;
          return;
        }
        var list := Page(active, prev);
        ghost var from := c;
        var j := 0;
        while j < Min(nn, PAGE_IDS)
          invariant j <= Min(nn, PAGE_IDS) && c == from + j <= |active|
          invariant prev == LastId(active, c) && namespaces == ScanIds(initial, active, c, device.valid)
        {
          PageIs(active, from, j);
          var nsid := list[j];
          if nsid == 0 {
            break;
          }
          DoneNext(active, c);
          prev := ScanId(nsid, prev, device.valid);
          j, c := j + 1, c + 1;
        }
        if j < Min(nn, PAGE_IDS) {
          break;
        }
        nn := nn - j;
        i := i + 1;
      }
      RemoveInvalidNamespaces(prev, device.dead);
      if Ready(initial) {
        ListMeaning(initial, nn0, device);
      }
      ret := 0;
    }

    method ScanNsSequential(nn: nat, device: Device)
      modifies this
      ensures namespaces == ScannedInSequence(old(namespaces), nn, device)
    {
      var i := 1;
      while i <= nn
        invariant 1 <= i <= nn + 1
        invariant ValidateAll(old(namespaces), 1, nn, device.valid) == ValidateAll(namespaces, i, nn, device.valid)
      {
        ValidateNs(i, device.valid);
        i := i + 1;
      }
      RemoveInvalidNamespaces(nn, device.dead);
    }

    // nvme_scan_work; nn is what Identify Controller said, if it said anything.
    method ScanWork(live: bool, nn: Option<nat>, listed: bool, device: Device)
      requires Active(device.active)
      modifies this
      ensures !live || nn.None? ==> namespaces == old(namespaces)
      ensures live && nn.Some? ==> namespaces == Sorted(merging, Scanned(old(namespaces), nn.value, listed, device))
      // Scanned by the controller's list
      ensures live && nn.Some? && listed && device.Served(nn.value) && old(Ready(namespaces)) ==>
        && Reconciled(namespaces, device.active[..Min(nn.value, |device.active|)], device.valid, device.dead)
        && (Near(namespaces) ==> Ready(namespaces))
      // or by number, from the start or where that scan failed.
      ensures live && nn.Some? && !(listed && device.Served(nn.value)) && old(Ready(namespaces)) ==>
        var c := device.Reached(nn.value);
        && (Exact(namespaces, nn.value, device.valid - device.dead) <==>
            !listed ||
            !Overtaken(old(namespaces), Done(device.active, c), LastId(device.active, c), nn.value, device.valid, device.dead))
        && (Exact(namespaces, nn.value, device.valid - device.dead) && Near(namespaces) ==> Ready(namespaces))
    {
      hide Sorted, ScannedByList, ScannedInSequence, Reconciled, Exact, Ready, Overtaken, Near;
      if !live || nn.None? {
        return;
      }
      var ret := -1;
      ghost var initial := namespaces;
      if listed {
        ret := ScanNsList(nn.value, device);
      }
      if ret != 0 {
        ScanNsSequential(nn.value, device);
      }
      ghost var scanned := namespaces;
      SortedIs(merging, scanned);
      ArrangesIs(Sorted(merging, scanned), scanned);
      if Ready(initial) && ret == 0 {
        assert 0 !in device.active[..Min(nn.value, |device.active|)];
        ReconciledReady(merging, scanned, device.active[..Min(nn.value, |device.active|)], device.valid, device.dead);
      } else if Ready(initial) {
        SequenceMeaning(initial, nn.value, listed, device);
        ExactReady(merging, scanned, nn.value, device.valid - device.dead);
      }
      namespaces := Sorted(merging, namespaces);
    }
  }
}
