// How far the check of a header's digest reaches: it is made at the place the header
// length says, which nothing has been compared with the size of the buffer before.
module TcpDigest {
  import opened Options
  import opened TcpRecv
  import opened Wire

  // Memory behind the buffer, as much as a header length can reach.
  const BEHIND: nat := 0x100

  datatype Checked = Checked(error: Option<RecvError>, mem: seq<byte>)

  // nvme_tcp_verify_hdgst with nvme_tcp_hdgst, on the memory from the buffer on. The
  // header length is read again after the digest was put in place.
  function VerifyInMemory(cfg: Config, mem: seq<byte>): Checked
    requires |mem| == cfg.PduLen() + BEHIND
  {
    var hlen := mem[2] as nat;
    if !HasHdgst(mem[1]) then Checked(Some(Eproto), mem) else
    var after := Splice(mem, hlen, cfg.crc(mem[..hlen]));
    var at := after[2] as nat;
    Checked(if mem[hlen..hlen + DIGEST_LENGTH] != after[at..at + DIGEST_LENGTH] then Some(Eio) else None, after)
  }

  // The part of the word at that place that is inside the buffer.
  function Inside(q: seq<byte>, at: nat): seq<byte> {
    if at >= |q| then [] else if at + DIGEST_LENGTH <= |q| then q[at..at + DIGEST_LENGTH] else q[at..]
  }

  // The digest computed is put inside the buffer, and the word it is compared with is
  // inside too, or its part inside already differs.
  predicate Contained(cfg: Config, pdu: seq<byte>)
    requires |pdu| == cfg.PduLen()
  {
    HasHdgst(pdu[1]) ==>
      var hlen, q := pdu[2] as nat, Recomputed(cfg, pdu);
      && hlen + DIGEST_LENGTH <= |pdu|
      && (q[2] as nat + DIGEST_LENGTH <= |q| || !(Inside(q, q[2] as nat) <= pdu[hlen..hlen + DIGEST_LENGTH]))
  }

  // Whatever lies behind the buffer, it is left alone and the verdict is the buffer's.
  ghost predicate BufferOnly(cfg: Config, pdu: seq<byte>, behind: seq<byte>)
    requires |pdu| == cfg.PduLen() && |behind| == BEHIND
  {
    VerifyInMemory(cfg, pdu + behind) == Checked(VerifyHdgst(cfg, pdu), Recomputed(cfg, pdu) + behind)
  }

  lemma SpliceFront(pdu: seq<byte>, behind: seq<byte>, at: nat, d: seq<byte>)
    requires at + |d| <= |pdu|
    ensures Splice(pdu + behind, at, d) == Splice(pdu, at, d) + behind && (pdu + behind)[..at] == pdu[..at]
  {
  }

  lemma WordInside(q: seq<byte>, behind: seq<byte>, at: nat)
    requires at + DIGEST_LENGTH <= |q| + |behind|
    ensures Inside(q, at) <= (q + behind)[at..at + DIGEST_LENGTH]
    ensures at + DIGEST_LENGTH <= |q| ==> Inside(q, at) == (q + behind)[at..at + DIGEST_LENGTH]
  {
  }

  // The check of a digest put inside the buffer.
  lemma InMemory(cfg: Config, pdu: seq<byte>, behind: seq<byte>)
    requires |pdu| == cfg.PduLen() && |behind| == BEHIND && HasHdgst(pdu[1]) && pdu[2] as nat + DIGEST_LENGTH <= |pdu|
    ensures
      var hlen, q := pdu[2] as nat, Recomputed(cfg, pdu);
      var at := q[2] as nat;
      VerifyInMemory(cfg, pdu + behind) == Checked(
        if pdu[hlen..hlen + DIGEST_LENGTH] != (q + behind)[at..at + DIGEST_LENGTH] then Some(Eio) else None, q + behind)
  {
    hide Splice;
    var hlen := pdu[2] as nat;
    SpliceFront(pdu, behind, hlen, cfg.crc(pdu[..hlen]));
    assert (pdu + behind)[hlen..hlen + DIGEST_LENGTH] == pdu[hlen..hlen + DIGEST_LENGTH];
  }

  lemma ContainedOnly(cfg: Config, pdu: seq<byte>, behind: seq<byte>)
    requires |pdu| == cfg.PduLen() && |behind| == BEHIND && Contained(cfg, pdu)
    ensures BufferOnly(cfg, pdu, behind)
  {
    hide VerifyInMemory, Recomputed, Inside;
    if HasHdgst(pdu[1]) {
      var hlen, q := pdu[2] as nat, Recomputed(cfg, pdu);
      var at := q[2] as nat;
      InMemory(cfg, pdu, behind);
      WordInside(q, behind, at);
      if at + DIGEST_LENGTH <= |q| {
        assert (q + behind)[at..at + DIGEST_LENGTH] == q[at..at + DIGEST_LENGTH];
      }
    } else {
      NoFlag(cfg, pdu, behind);
    }
  }

  lemma NoFlag(cfg: Config, pdu: seq<byte>, behind: seq<byte>)
    requires |pdu| == cfg.PduLen() && |behind| == BEHIND && !HasHdgst(pdu[1])
    ensures VerifyInMemory(cfg, pdu + behind) == Checked(Some(Eproto), pdu + behind) && Recomputed(cfg, pdu) == pdu
  {
  }

  // A digest put partly or wholly behind the buffer changes what is there.
  lemma WrittenBehind(cfg: Config, pdu: seq<byte>) returns (behind: seq<byte>)
    requires |pdu| == cfg.PduLen() && HasHdgst(pdu[1]) && pdu[2] as nat + DIGEST_LENGTH > |pdu|
    ensures |behind| == BEHIND && !BufferOnly(cfg, pdu, behind)
  {
    var hlen := pdu[2] as nat;
    var last := hlen + DIGEST_LENGTH - 1;
    var zeros: seq<byte> := seq(BEHIND, i => 0);
    var d := cfg.crc((pdu + zeros)[..hlen]);
    behind := zeros[last - |pdu| := if d[3] == 0 then 1 else 0];
    assert (pdu + behind)[..hlen] == (pdu + zeros)[..hlen];
    var after := VerifyInMemory(cfg, pdu + behind).mem;
    assert after[last] == d[3] != behind[last - |pdu|];
    assert (Recomputed(cfg, pdu) + behind)[last] == behind[last - |pdu|];
  }

  // A word looked for behind the buffer may be there, and the header accepted.
  lemma FoundBehind(cfg: Config, pdu: seq<byte>) returns (behind: seq<byte>)
    requires |pdu| == cfg.PduLen() && HasHdgst(pdu[1]) && pdu[2] as nat + DIGEST_LENGTH <= |pdu| && !Contained(cfg, pdu)
    ensures |behind| == BEHIND && !BufferOnly(cfg, pdu, behind)
  {
    hide VerifyInMemory, Recomputed;
    var hlen, q := pdu[2] as nat, Recomputed(cfg, pdu);
    var at, n := q[2] as nat, |q|;
    var word := pdu[hlen..hlen + DIGEST_LENGTH];
    behind := seq(BEHIND, i requires 0 <= i => if at <= n + i < at + DIGEST_LENGTH then word[n + i - at] else 0);
    InMemory(cfg, pdu, behind);
    forall k | 0 <= k < DIGEST_LENGTH
      ensures (q + behind)[at + k] == word[k]
    {
      if at + k < n {
        assert Inside(q, at)[k] == q[at + k] == word[k];
      }
    }
    assert (q + behind)[at..at + DIGEST_LENGTH] == word;
  }

  // Checking a header touches nothing but the buffer, and depends on nothing else, if
  // and only if it is contained.
  lemma HdgstContained(cfg: Config, pdu: seq<byte>)
    requires |pdu| == cfg.PduLen()
    ensures (forall behind | |behind| == BEHIND :: BufferOnly(cfg, pdu, behind)) <==> Contained(cfg, pdu)
  {
    hide BufferOnly, Contained, Recomputed;
    if Contained(cfg, pdu) {
      forall behind: seq<byte> | |behind| == BEHIND
        ensures BufferOnly(cfg, pdu, behind)
      {
        ContainedOnly(cfg, pdu, behind);
      }
    } else {
      assert HasHdgst(pdu[1]) by { NotContained(cfg, pdu); }
      var behind: seq<byte>;
      if pdu[2] as nat + DIGEST_LENGTH > |pdu| {
        behind := WrittenBehind(cfg, pdu);
      } else {
        behind := FoundBehind(cfg, pdu);
      }
    }
  }

  lemma NotContained(cfg: Config, pdu: seq<byte>)
    requires |pdu| == cfg.PduLen() && !Contained(cfg, pdu)
    ensures HasHdgst(pdu[1])
  {
  }
}
