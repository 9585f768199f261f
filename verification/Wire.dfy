// Bytes, little-endian fields and flattening, shared by the NVMe/TCP modules.
module Wire {
  newtype byte = x: int | 0 <= x < 0x100

  // A CRC32C digest in the order it travels on the wire.
  type Digest = d: seq<byte> | |d| == DIGEST_LENGTH witness [0, 0, 0, 0]

  const DIGEST_LENGTH: nat := 4

  function Le16(p: seq<byte>, at: nat): nat
    requires at + 2 <= |p|
  {
    p[at] as int + 0x100 * p[at + 1] as int
  }

  function Le32(p: seq<byte>, at: nat): nat
    requires at + 4 <= |p|
  {
    Le16(p, at) + 0x1_0000 * Le16(p, at + 2)
  }

  function PutLe16(n: nat): (b: seq<byte>)
    requires n < 0x1_0000
    ensures |b| == 2 && Le16(b, 0) == n
  {
    [(n % 0x100) as byte, (n / 0x100) as byte]
  }

  function PutLe32(n: nat): (b: seq<byte>)
    requires n < 0x1_0000_0000
    ensures |b| == 4 && Le32(b, 0) == n
  {
    PutLe16(n % 0x1_0000) + PutLe16(n / 0x1_0000)
  }

  function Concat<T>(parts: seq<seq<T>>): seq<T> {
    if parts == [] then [] else parts[0] + Concat(parts[1..])
  }

  lemma {:induction false} ConcatAppend<T>(a: seq<seq<T>>, b: seq<seq<T>>)
    ensures Concat(a + b) == Concat(a) + Concat(b)
  {
    if a == [] {
      assert a + b == b;
    } else {
      calc {
        Concat(a + b);
      ==  { assert (a + b)[0] == a[0] && (a + b)[1..] == a[1..] + b; }
        a[0] + Concat(a[1..] + b);
      ==  { ConcatAppend(a[1..], b); }
        a[0] + (Concat(a[1..]) + Concat(b));
      ==  { PlusPlus(a[0], Concat(a[1..]), Concat(b)); }
        Concat(a) + Concat(b);
      }
    }
  }

  lemma PlusPlus<T>(a: seq<T>, b: seq<T>, c: seq<T>)
    ensures a + (b + c) == a + b + c
  {
  }

  // Overwrites p from position at with b.
  function Splice<T>(p: seq<T>, at: nat, b: seq<T>): (q: seq<T>)
    requires at + |b| <= |p|
    ensures |q| == |p|
  {
    p[..at] + b + p[at + |b|..]
  }

  lemma SliceOfSlice<T>(p: seq<T>, a: nat, b: nat, c: nat, d: nat)
    requires a <= b <= |p| && c <= d <= b - a
    ensures p[a..b][c..d] == p[a + c..a + d]
  {
    var q, r := p[a..b][c..d], p[a + c..a + d];
    assert forall i | 0 <= i < |q| :: q[i] == p[a..b][c + i] == p[a + c + i] == r[i];
    assert q == r;
  }
}
