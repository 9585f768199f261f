// The receive half of the NVMe/TCP transport: an incremental PDU parser that is
// fed socket buffers cut at arbitrary places.
//
// The specification is a byte-at-a-time automaton (Consume, folded by Run); the
// class RecvQueue is the driver's buffer-at-a-time code, proved to compute Run.
// An error ends the call it occurs in and drops the rest of its buffer. The queue
// stays as the error left it, and the next call goes on from there.
module TcpRecv {
  import opened Arith
  import opened Options
  import opened Wire

  const RSP_PDU_LENGTH: nat := 24
  const SIZE_MAX: nat := 0xFFFF_FFFF_FFFF_FFFF

  // PDU types and header flags of section 7.4 of NVMe over Fabrics 1.1.
  const TYPE_RSP: byte := 0x05
  const TYPE_C2H_DATA: byte := 0x07
  const TYPE_R2T: byte := 0x09

  predicate HasHdgst(flags: byte) { flags % 2 == 1 }
  predicate HasDdgst(flags: byte) { flags / 2 % 2 == 1 }
  predicate IsDataLast(flags: byte) { flags / 4 % 2 == 1 }
  predicate IsDataSuccess(flags: byte) { flags / 8 % 2 == 1 }

  // NullBio is no error code: data has come for a request with no bio left, whose
  // successor the driver would look up all the same.
  datatype RecvError = Eproto | Eio | Enoent | Einval | NullBio

  // What a queue handed on to the rest of the driver.
  datatype Event =
    | Completed(commandId: nat, cqe: seq<byte>)
    | AsyncEvent(cqe: seq<byte>)
    | DataSuccess(commandId: nat)
    | ReadyToTransfer(pdu: seq<byte>)

  // r2tVerdict stands for the send side, which accepts or refuses an R2T by its
  // own progress; it may depend on everything handled so far.
  datatype Config = Config(
    hdrDigest: bool,
    dataDigest: bool,
    adminQueue: bool,
    aqBlkMqDepth: nat,
    crc: seq<byte> -> Digest,
    r2tVerdict: (seq<Event>, seq<byte>) -> Option<RecvError>)
  {
    function HdgstLen(): nat { if hdrDigest then DIGEST_LENGTH else 0 }
    function PduLen(): nat { RSP_PDU_LENGTH + HdgstLen() }
  }

  // A request's destination memory, one sequence a bio, and its iterator: the
  // current bio and the bytes of it already filled. bio == |bios| is a NULL bio.
  datatype Request = Request(payloadBytes: nat, bios: seq<seq<byte>>, bio: nat, filled: nat)

  function BiosLeft(r: Request): nat {
    if r.bio < |r.bios| then |r.bios| - r.bio else 0
  }

  // Leaves exhausted bios behind.
  function SkipFull(r: Request): (s: Request)
    ensures s.bios == r.bios && s.payloadBytes == r.payloadBytes
    ensures s.bio >= |s.bios| || s.filled < |s.bios[s.bio]|
    decreases BiosLeft(r)
  {
    if r.bio < |r.bios| && r.filled >= |r.bios[r.bio]|
    then SkipFull(r.(bio := r.bio + 1, filled := 0))
    else r
  }

  // Copies b to the iterator; all of it fits the current bio.
  function Copy(r: Request, b: seq<byte>): Request
    requires r.bio < |r.bios| && r.filled + |b| <= |r.bios[r.bio]|
  {
    r.(bios := r.bios[r.bio := Splice(r.bios[r.bio], r.filled, b)], filled := r.filled + |b|)
  }

  datatype Context = Context(
    pdu: seq<byte>,
    pduRemaining: nat,
    dataRemaining: nat,
    ddgstRemaining: nat,
    hash: seq<byte>,
    expDdgst: Digest,
    recvDdgst: Digest,
    reqs: map<nat, Request>,
    log: seq<Event>)

  // In the course of a call, or at its end with an error.
  datatype Rx = Running(ctx: Context) | Failed(error: RecvError, ctx: Context)

  datatype Stage = Pdu | Data | Ddgst

  function StageOf(c: Context): Stage {
    if c.pduRemaining != 0 then Pdu else if c.ddgstRemaining != 0 then Ddgst else Data
  }

  predicate ContextOk(cfg: Config, c: Context) {
    && |c.pdu| + c.pduRemaining == cfg.PduLen()
    && c.ddgstRemaining <= DIGEST_LENGTH
    && (c.pduRemaining != 0 ==> c.ddgstRemaining == 0)
  }

  function Fail(c: Context, e: RecvError): Rx {
    Failed(e, c)
  }

  // The start of another call: nothing but rd_enabled remembers an error.
  function Resume(rx: Rx): Rx {
    if rx.Failed? && !rx.error.NullBio? then Running(rx.ctx) else rx
  }

  function InitRecvCtx(cfg: Config, c: Context): (d: Context)
    ensures ContextOk(cfg, d) && StageOf(d) == Pdu
  {
    c.(pdu := [], pduRemaining := cfg.PduLen(), dataRemaining := SIZE_MAX, ddgstRemaining := 0)
  }

  // ---- Specification: one byte at a time ----

  function VerifyHdgst(cfg: Config, pdu: seq<byte>): Option<RecvError>
    requires |pdu| == cfg.PduLen()
  {
    var hlen := pdu[2] as nat;
    if !HasHdgst(pdu[1]) then Some(Eproto)
    else if hlen + DIGEST_LENGTH > |pdu| then Some(Eio)
    else
      // the header length may just have been overwritten
      var q := Recomputed(cfg, pdu);
      var at := q[2] as nat;
      if at + DIGEST_LENGTH > |q| || pdu[hlen..hlen + DIGEST_LENGTH] != q[at..at + DIGEST_LENGTH] then Some(Eio) else None
  }

  // The digest is recomputed in place.
  function Recomputed(cfg: Config, pdu: seq<byte>): (q: seq<byte>)
    requires |pdu| == cfg.PduLen()
    ensures |q| == |pdu|
  {
    var hlen := pdu[2] as nat;
    if !HasHdgst(pdu[1]) || hlen + DIGEST_LENGTH > |pdu| then pdu else Splice(pdu, hlen, cfg.crc(pdu[..hlen]))
  }

  function CheckDdgst(cfg: Config, pdu: seq<byte>): Option<RecvError>
    requires |pdu| == cfg.PduLen()
  {
    var digestLen := if HasHdgst(pdu[1]) then cfg.HdgstLen() else 0;
    if Le32(pdu, 4) != pdu[2] as nat + digestLen && !HasDdgst(pdu[1]) then Some(Eproto) else None
  }

  // A whole PDU header has arrived.
  function HandlePdu(cfg: Config, c: Context): (rx: Rx)
    requires ContextOk(cfg, c) && c.pduRemaining == 0 && c.ddgstRemaining == 0
    ensures ContextOk(cfg, rx.ctx)
  {
    var hdgst := if cfg.hdrDigest then VerifyHdgst(cfg, c.pdu) else None;
    var c := if cfg.hdrDigest then c.(pdu := Recomputed(cfg, c.pdu)) else c;
    if hdgst.Some? then Fail(c, hdgst.value) else
    var ddgst := if cfg.dataDigest then CheckDdgst(cfg, c.pdu) else None;
    if ddgst.Some? then Fail(c, ddgst.value) else
    var c := if cfg.dataDigest then c.(hash := []) else c;
    if c.pdu[0] == TYPE_C2H_DATA then HandleC2HData(c)
    else if c.pdu[0] == TYPE_RSP then HandleComp(cfg, InitRecvCtx(cfg, c), c.pdu)
    else if c.pdu[0] == TYPE_R2T then HandleR2t(cfg, InitRecvCtx(cfg, c), c.pdu)
    else Fail(c, Einval)
  }

  function CommandId(pdu: seq<byte>): nat
    requires |pdu| >= RSP_PDU_LENGTH
  {
    Le16(pdu, 8)
  }

  function HandleC2HData(c: Context): Rx
    requires |c.pdu| >= RSP_PDU_LENGTH
  {
    var id := CommandId(c.pdu);
    if id !in c.reqs then Fail(c, Enoent)
    else if c.reqs[id].payloadBytes == 0 then Fail(c, Eio)
    else
      var d := c.(dataRemaining := Le32(c.pdu, 16));
      if IsDataSuccess(c.pdu[1]) && !IsDataLast(c.pdu[1]) then Fail(d, Eproto) else Running(d)
  }

  function HandleComp(cfg: Config, c: Context, pdu: seq<byte>): Rx
    requires |pdu| >= RSP_PDU_LENGTH
  {
    var id := Le16(pdu, 20);
    if cfg.adminQueue && id >= cfg.aqBlkMqDepth then Running(c.(log := c.log + [AsyncEvent(pdu[8..24])]))
    else if id !in c.reqs then Fail(c, Einval)
    else Running(c.(log := c.log + [Completed(id, pdu[8..24])]))
  }

  function HandleR2t(cfg: Config, c: Context, pdu: seq<byte>): Rx
    requires |pdu| >= RSP_PDU_LENGTH
  {
    if CommandId(pdu) !in c.reqs then Fail(c, Enoent) else
    var verdict := cfg.r2tVerdict(c.log, pdu);
    if verdict.Some? then Fail(c, verdict.value)
    else Running(c.(log := c.log + [ReadyToTransfer(pdu)]))
  }

  // All data of a C2HData PDU has arrived.
  function FinishData(cfg: Config, c: Context): (d: Context)
    requires ContextOk(cfg, c) && StageOf(c) == Data
    ensures ContextOk(cfg, d) && StageOf(d) != Data
  {
    if cfg.dataDigest then c.(expDdgst := cfg.crc(c.hash), ddgstRemaining := DIGEST_LENGTH)
    else InitRecvCtx(cfg, LogSuccess(c))
  }

  function LogSuccess(c: Context): Context
    requires |c.pdu| >= RSP_PDU_LENGTH
  {
    if IsDataSuccess(c.pdu[1]) then c.(log := c.log + [DataSuccess(CommandId(c.pdu))]) else c
  }

  // One data byte, without what follows the last one.
  function PutByte(cfg: Config, c: Context, b: byte): (rx: Rx)
    requires ContextOk(cfg, c) && StageOf(c) == Data && c.dataRemaining > 0
    ensures ContextOk(cfg, rx.ctx) && (rx.Running? ==> StageOf(rx.ctx) == Data)
    ensures rx.Running? ==> rx.ctx.dataRemaining == c.dataRemaining - 1 && rx.ctx.reqs.Keys == c.reqs.Keys
  {
    var id := CommandId(c.pdu);
    if id !in c.reqs then Fail(c, Enoent)
    else if c.reqs[id].bio >= |c.reqs[id].bios| then Fail(c, NullBio) else
    var r := SkipFull(c.reqs[id]);
    if r.bio >= |r.bios| then Fail(InitRecvCtx(cfg, c.(reqs := c.reqs[id := r])), Eio)
    else Running(c.(reqs := c.reqs[id := Copy(r, [b])],
                    hash := if cfg.dataDigest then c.hash + [b] else c.hash,
                    dataRemaining := c.dataRemaining - 1))
  }

  function PutDdgst(cfg: Config, c: Context, b: byte): (rx: Rx)
    requires ContextOk(cfg, c) && StageOf(c) == Ddgst
    ensures ContextOk(cfg, rx.ctx)
  {
    var c := c.(recvDdgst := Splice(c.recvDdgst, DIGEST_LENGTH - c.ddgstRemaining, [b]),
                ddgstRemaining := c.ddgstRemaining - 1);
    if c.ddgstRemaining != 0 then Running(c) else EndDdgst(cfg, c)
  }

  function EndDdgst(cfg: Config, c: Context): (rx: Rx)
    requires ContextOk(cfg, c) && c.pduRemaining == 0
    ensures ContextOk(cfg, rx.ctx)
  {
    if c.recvDdgst != c.expDdgst then Fail(c, Eio)
    else Running(InitRecvCtx(cfg, LogSuccess(c)))
  }

  function Settle(cfg: Config, rx: Rx): (s: Rx)
    requires ContextOk(cfg, rx.ctx)
    ensures ContextOk(cfg, s.ctx)
  {
    if rx.Running? && StageOf(rx.ctx) == Data && rx.ctx.dataRemaining == 0
    then Running(FinishData(cfg, rx.ctx)) else rx
  }

  // A PDU of zero data bytes is finished by the byte after it, not by its header.
  function Consume(cfg: Config, rx: Rx, b: byte): (s: Rx)
    requires ContextOk(cfg, rx.ctx)
    ensures ContextOk(cfg, s.ctx)
    decreases if rx.Running? && StageOf(rx.ctx) == Data then 1 else 0
  {
    if rx.Failed? then rx else
    var c := rx.ctx;
    match StageOf(c)
    case Pdu =>
      var d := c.(pdu := c.pdu + [b], pduRemaining := c.pduRemaining - 1);
      if d.pduRemaining == 0 then HandlePdu(cfg, d) else Running(d)
    case Data =>
      if CommandId(c.pdu) !in c.reqs then Fail(c, Enoent)
      else if c.dataRemaining == 0 then Consume(cfg, Running(FinishData(cfg, c)), b)
      else Settle(cfg, PutByte(cfg, c, b))
    case Ddgst => PutDdgst(cfg, c, b)
  }

  function Run(cfg: Config, rx: Rx, bytes: seq<byte>): (s: Rx)
    requires ContextOk(cfg, rx.ctx)
    ensures ContextOk(cfg, s.ctx)
    decreases |bytes|
  {
    if bytes == [] then rx else Run(cfg, Consume(cfg, rx, bytes[0]), bytes[1..])
  }

  lemma {:induction false} RunConcat(cfg: Config, rx: Rx, a: seq<byte>, b: seq<byte>)
    requires ContextOk(cfg, rx.ctx)
    ensures Run(cfg, rx, a + b) == Run(cfg, Run(cfg, rx, a), b)
    decreases |a|
  {
    if a == [] {
      assert a + b == b;
    } else {
      assert (a + b)[1..] == a[1..] + b;
      RunConcat(cfg, Consume(cfg, rx, a[0]), a[1..], b);
    }
  }

  // The rest of a buffer is dropped after an error.
  lemma {:induction false} RunFailed(cfg: Config, rx: Rx, bytes: seq<byte>)
    requires rx.Failed? && ContextOk(cfg, rx.ctx)
    ensures Run(cfg, rx, bytes) == rx
    decreases |bytes|
  {
    if bytes != [] {
      RunFailed(cfg, rx, bytes[1..]);
    }
  }

  lemma RunNothing(cfg: Config, rx: Rx)
    requires ContextOk(cfg, rx.ctx)
    ensures Run(cfg, rx, []) == rx
  {
  }

  // ---- Several bytes of one stage at once ----

  lemma {:induction false} RunPduBytes(cfg: Config, c: Context, bytes: seq<byte>)
    requires ContextOk(cfg, c) && StageOf(c) == Pdu && 0 < |bytes| <= c.pduRemaining
    ensures
      var d := c.(pdu := c.pdu + bytes, pduRemaining := c.pduRemaining - |bytes|);
      Run(cfg, Running(c), bytes) == if d.pduRemaining == 0 then HandlePdu(cfg, d) else Running(d)
    decreases |bytes|
  {
    var d := c.(pdu := c.pdu + [bytes[0]], pduRemaining := c.pduRemaining - 1);
    assert c.pdu + bytes == d.pdu + bytes[1..];
    if |bytes| > 1 {
      RunPduBytes(cfg, d, bytes[1..]);
    } else {
      assert d.pdu == c.pdu + bytes;
    }
  }

  lemma {:induction false} RunDdgstBytes(cfg: Config, c: Context, bytes: seq<byte>)
    requires ContextOk(cfg, c) && StageOf(c) == Ddgst && 0 < |bytes| <= c.ddgstRemaining
    ensures
      var d := c.(recvDdgst := Splice(c.recvDdgst, DIGEST_LENGTH - c.ddgstRemaining, bytes),
                  ddgstRemaining := c.ddgstRemaining - |bytes|);
      Run(cfg, Running(c), bytes) == if d.ddgstRemaining == 0 then EndDdgst(cfg, d) else Running(d)
    decreases |bytes|
  {
    var at := DIGEST_LENGTH - c.ddgstRemaining;
    var d := c.(recvDdgst := Splice(c.recvDdgst, at, [bytes[0]]), ddgstRemaining := c.ddgstRemaining - 1);
    assert Splice(c.recvDdgst, at, bytes) == Splice(d.recvDdgst, at + 1, bytes[1..]);
    if |bytes| > 1 {
      RunDdgstBytes(cfg, d, bytes[1..]);
    } else {
      assert bytes == [bytes[0]];
    }
  }

  // PutByte over a run of data bytes.
  function PutAll(cfg: Config, c: Context, bytes: seq<byte>): (rx: Rx)
    requires ContextOk(cfg, c) && StageOf(c) == Data && |bytes| <= c.dataRemaining
    ensures ContextOk(cfg, rx.ctx) && (rx.Running? ==> StageOf(rx.ctx) == Data)
    ensures rx.Running? ==> rx.ctx.dataRemaining == c.dataRemaining - |bytes| && rx.ctx.reqs.Keys == c.reqs.Keys
    decreases |bytes|
  {
    if bytes == [] then Running(c) else
    var rx := PutByte(cfg, c, bytes[0]);
    if rx.Failed? then rx else PutAll(cfg, rx.ctx, bytes[1..])
  }

  lemma {:induction false} RunDataBytes(cfg: Config, c: Context, bytes: seq<byte>)
    requires ContextOk(cfg, c) && StageOf(c) == Data && 0 < |bytes| <= c.dataRemaining
    ensures Run(cfg, Running(c), bytes) == Settle(cfg, PutAll(cfg, c, bytes))
    decreases |bytes|
  {
    var rx := PutByte(cfg, c, bytes[0]);
    if rx.Failed? {
      RunFailed(cfg, rx, bytes[1..]);
    } else if |bytes| > 1 {
      RunDataBytes(cfg, rx.ctx, bytes[1..]);
    }
  }

  // Copying a span that fits the current bio is putting its bytes one by one.
  lemma {:induction false} PutSpan(cfg: Config, c: Context, span: seq<byte>, rest: seq<byte>)
    requires ContextOk(cfg, c) && StageOf(c) == Data && |span| + |rest| <= c.dataRemaining
    requires CommandId(c.pdu) in c.reqs
    requires var r := c.reqs[CommandId(c.pdu)]; r.bio < |r.bios| && r.filled + |span| <= |r.bios[r.bio]|
    ensures PutAll(cfg, c, span + rest) == PutAll(cfg, AfterSpan(cfg, c, span), rest)
    decreases |span|
  {
    var id := CommandId(c.pdu);
    var r := c.reqs[id];
    if span == [] {
      assert span + rest == rest;
      assert Splice(r.bios[r.bio], r.filled, []) == r.bios[r.bio];
      assert r.bios[r.bio := r.bios[r.bio]] == r.bios;
      assert c.reqs[id := r] == c.reqs;
      assert AfterSpan(cfg, c, []) == c by {
        assert c.hash + [] == c.hash;
      }
    } else {
      var d := AfterSpan(cfg, c, [span[0]]);
      assert SkipFull(r) == r;
      assert PutByte(cfg, c, span[0]) == Running(d);
      assert (span + rest)[1..] == span[1..] + rest;
      AfterSpanSplit(cfg, c, span);
      PutSpan(cfg, d, span[1..], rest);
    }
  }

  lemma AfterSpanSplit(cfg: Config, c: Context, span: seq<byte>)
    requires |c.pdu| >= RSP_PDU_LENGTH && CommandId(c.pdu) in c.reqs && 0 < |span| <= c.dataRemaining
    requires var r := c.reqs[CommandId(c.pdu)]; r.bio < |r.bios| && r.filled + |span| <= |r.bios[r.bio]|
    ensures AfterSpan(cfg, AfterSpan(cfg, c, [span[0]]), span[1..]) == AfterSpan(cfg, c, span)
  {
    var id := CommandId(c.pdu);
    var r := c.reqs[id];
    CopySplit(r, span);
    assert c.hash + [span[0]] + span[1..] == c.hash + span;
    assert c.reqs[id := Copy(r, [span[0]])][id := Copy(r, span)] == c.reqs[id := Copy(r, span)];
  }

  lemma CopySplit(r: Request, b: seq<byte>)
    requires b != [] && r.bio < |r.bios| && r.filled + |b| <= |r.bios[r.bio]|
    ensures Copy(Copy(r, [b[0]]), b[1..]) == Copy(r, b)
  {
    var m := r.bios[r.bio];
    assert Splice(Splice(m, r.filled, [b[0]]), r.filled + 1, b[1..]) == Splice(m, r.filled, b);
    assert r.bios[r.bio := Splice(m, r.filled, [b[0]])][r.bio := Splice(m, r.filled, b)]
        == r.bios[r.bio := Splice(m, r.filled, b)];
  }

  function AfterSpan(cfg: Config, c: Context, span: seq<byte>): Context
    requires |c.pdu| >= RSP_PDU_LENGTH && CommandId(c.pdu) in c.reqs && |span| <= c.dataRemaining
    requires var r := c.reqs[CommandId(c.pdu)]; r.bio < |r.bios| && r.filled + |span| <= |r.bios[r.bio]|
  {
    var id := CommandId(c.pdu);
    c.(reqs := c.reqs[id := Copy(c.reqs[id], span)],
       hash := if cfg.dataDigest then c.hash + span else c.hash,
       dataRemaining := c.dataRemaining - |span|)
  }

  // ---- The driver's code ----

  class RecvQueue {
    const cfg: Config
    const pdu: array<byte>
    var pduRemaining: nat
    var pduOffset: nat
    var dataRemaining: nat
    var ddgstRemaining: nat
    var rcvHash: seq<byte>
    var expDdgst: Digest
    var recvDdgst: Digest
    var reqs: map<nat, Request>
    var log: seq<Event>
    var rdEnabled: bool
    // The result of the call under way, or of the last one.
    var error: Option<RecvError>

    ghost predicate Valid()
      reads this, pdu
    {
      && pdu.Length == cfg.PduLen()
      && pduOffset <= pdu.Length
      && ContextOk(cfg, Fields())
    }

    ghost function Fields(): Context
      reads this, pdu
      requires pduOffset <= pdu.Length
    {
      Context(pdu[..pduOffset], pduRemaining, dataRemaining, ddgstRemaining, rcvHash, expDdgst, recvDdgst, reqs, log)
    }

    ghost function Abs(): (rx: Rx)
      reads this, pdu
      requires Valid()
      ensures ContextOk(cfg, rx.ctx)
    {
      if error.Some? then Failed(error.value, Fields()) else Running(Fields())
    }

    constructor (cfg: Config, reqs: map<nat, Request>)
      ensures Valid() && fresh(pdu) && this.cfg == cfg
      ensures error.None? && rdEnabled && this.reqs == reqs && log == [] && StageOf(Fields()) == Pdu
    {
      this.cfg := cfg;
      pdu := new byte[cfg.PduLen()];
      pduRemaining, pduOffset := cfg.PduLen(), 0;
      dataRemaining, ddgstRemaining := SIZE_MAX, 0;
      rcvHash, expDdgst, recvDdgst := [], [0, 0, 0, 0], [0, 0, 0, 0];
      this.reqs, log, rdEnabled, error := reqs, [], true, None;
    }

    method InitCtx()
      requires Valid() && error.None?
      modifies this`pduRemaining, this`pduOffset, this`dataRemaining, this`ddgstRemaining
      ensures Valid() && Fields() == InitRecvCtx(cfg, old(Fields()))
    {
      pduRemaining, pduOffset := cfg.PduLen(), 0;
      dataRemaining, ddgstRemaining := SIZE_MAX, 0;
    }

    method SkbCopyBits(skb: seq<byte>, offset: nat, at: nat, n: nat)
      requires offset + n <= |skb| && at + n <= pdu.Length
      modifies pdu
      ensures pdu[..at + n] == old(pdu[..at]) + skb[offset..offset + n]
    {
      ghost var before := pdu[..];
      forall i | 0 <= i < n {
        pdu[at + i] := skb[offset + i];
      }
      ghost var span := skb[offset..offset + n];
      forall i | 0 <= i < at + n
        ensures pdu[i] == (before[..at] + span)[i]
      {
        if i >= at {
          assert pdu[at + (i - at)] == skb[offset + (i - at)];
        }
      }
      assert pdu[..at + n] == before[..at] + span;
    }

    method RecvPdu(skb: seq<byte>, offset: nat) returns (taken: nat)
      requires Valid() && error.None? && StageOf(Fields()) == Pdu && offset < |skb|
      modifies this`pduRemaining, this`pduOffset, this`dataRemaining, this`ddgstRemaining, this`rcvHash, this`log, this`error, pdu
      ensures Valid() && 0 < taken <= |skb| - offset
      ensures Abs() == Run(cfg, old(Abs()), skb[offset..offset + taken])
    {
      hide HandlePdu, Run;
      ghost var c := Fields();
      taken := Min(|skb| - offset, pduRemaining);
      ghost var span := skb[offset..offset + taken];
      RunPduBytes(cfg, c, span);
      SkbCopyBits(skb, offset, pduOffset, taken);
      pduRemaining := pduRemaining - taken;
      pduOffset := pduOffset + taken;
      assert pdu[..pduOffset] == c.pdu + span;
      if pduRemaining != 0 {
        return;
      }
      HandleWholePdu();
    }

    method HandleWholePdu()
      requires Valid() && error.None? && pduRemaining == 0 && ddgstRemaining == 0
      modifies this`pduRemaining, this`pduOffset, this`dataRemaining, this`ddgstRemaining, this`rcvHash, this`log, this`error, pdu
      ensures Valid() && Abs() == HandlePdu(cfg, old(Fields()))
    {
      ghost var c := Fields();
      var header := pdu[..];
      assert header == c.pdu;
      if cfg.hdrDigest {
        var recomputed := Recomputed(cfg, header);
        error := VerifyHdgst(cfg, header);
        forall i | 0 <= i < pdu.Length {
          pdu[i] := recomputed[i];
        }
        assert pdu[..pduOffset] == recomputed;
        if error.Some? {
          return;
        }
        header := recomputed;
      }
      assert Fields() == c.(pdu := header);
      if cfg.dataDigest {
        error := CheckDdgst(cfg, header);
        if error.Some? {
          return;
        }
        rcvHash := [];
      }
      if header[0] == TYPE_C2H_DATA {
        CallHandleC2HData(header);
      } else if header[0] == TYPE_RSP {
        InitCtx();
        CallHandleComp(header);
      } else if header[0] == TYPE_R2T {
        InitCtx();
        CallHandleR2t(header);
      } else {
        error := Some(Einval);
      }
    }

    method CallHandleC2HData(header: seq<byte>)
      requires Valid() && error.None? && Fields().pdu == header && |header| == cfg.PduLen()
      requires StageOf(Fields()) == Data
      modifies this`dataRemaining, this`error
      ensures Valid() && Abs() == HandleC2HData(old(Fields()))
    {
      var id := CommandId(header);
      if id !in reqs {
        error := Some(Enoent);
        return;
      }
      if reqs[id].payloadBytes == 0 {
        error := Some(Eio);
        return;
      }
      dataRemaining := Le32(header, 16);
      if IsDataSuccess(header[1]) && !IsDataLast(header[1]) {
        error := Some(Eproto);
      }
    }

    method CallHandleComp(header: seq<byte>)
      requires Valid() && error.None? && |header| == cfg.PduLen()
      modifies this`log, this`error
      ensures Valid() && Abs() == HandleComp(cfg, old(Fields()), header)
    {
      var id := Le16(header, 20);
      if cfg.adminQueue && id >= cfg.aqBlkMqDepth {
        log := log + [AsyncEvent(header[8..24])];
      } else if id !in reqs {
        error := Some(Einval);
      } else {
        log := log + [Completed(id, header[8..24])];
      }
    }

    method CallHandleR2t(header: seq<byte>)
      requires Valid() && error.None? && |header| == cfg.PduLen()
      modifies this`log, this`error
      ensures Valid() && Abs() == HandleR2t(cfg, old(Fields()), header)
    {
      if CommandId(header) !in reqs {
        error := Some(Enoent);
        return;
      }
      error := cfg.r2tVerdict(log, header);
      if error.None? {
        log := log + [ReadyToTransfer(header)];
      }
    }

    // Steps to the next bio if the current one is full.
    method NextBio(id: nat, ghost span: seq<byte>)
      requires Valid() && error.None? && StageOf(Fields()) == Data
      requires id == CommandId(Fields().pdu) && id in reqs && 0 < |span| <= dataRemaining
      modifies this`reqs, this`error, this`pduRemaining, this`pduOffset, this`dataRemaining, this`ddgstRemaining
      ensures Valid() && id in reqs
      ensures error.None? ==> StageOf(Fields()) == Data && Fields() == old(Fields()).(reqs := reqs)
      ensures error.Some? ==> Abs() == PutAll(cfg, old(Fields()), span)
      // Out of room, the queue takes what follows for a header.
      ensures error == Some(Eio) ==> StageOf(Fields()) == Pdu && pduOffset == 0 && dataRemaining == SIZE_MAX
      ensures error.None? ==> PutAll(cfg, Fields(), span) == PutAll(cfg, old(Fields()), span)
      ensures error.None? ==> reqs[id].bio < |reqs[id].bios| && reqs[id].filled <= |reqs[id].bios[reqs[id].bio]|
      ensures error.None? ==> (reqs[id] == old(reqs[id]) && reqs[id].filled < |reqs[id].bios[reqs[id].bio]|)
                              || BiosLeft(reqs[id]) < old(BiosLeft(reqs[id]))
    {
      hide PutAll;
      var r := reqs[id];
      if r.bio >= |r.bios| {
        NullBioFails(cfg, Fields(), span);
        error := Some(NullBio);
        return;
      }
      if r.filled >= |r.bios[r.bio]| {
        r := r.(bio := r.bio + 1, filled := 0);
        if r.bio >= |r.bios| {
          NoBio(cfg, Fields(), span);
          reqs := reqs[id := r];
          InitCtx();
          error := Some(Eio);
          return;
        }
        SkipOne(cfg, Fields(), span);
        reqs := reqs[id := r];
      }
    }

    // One turn of the data loop: copies what the current bio has room for.
    method CopyToBio(id: nat, span: seq<byte>) returns (n: nat)
      requires Valid() && error.None? && StageOf(Fields()) == Data
      requires id == CommandId(Fields().pdu) && id in reqs && 0 < |span| <= dataRemaining
      modifies this`reqs, this`rcvHash, this`error, this`pduRemaining, this`pduOffset, this`dataRemaining, this`ddgstRemaining
      ensures Valid() && n <= |span| && id in reqs
      ensures error.Some? ==> Abs() == PutAll(cfg, old(Fields()), span)
      ensures error.None? ==> StageOf(Fields()) == Data && dataRemaining == old(dataRemaining) - n
      ensures error.None? ==> PutAll(cfg, Fields(), span[n..]) == PutAll(cfg, old(Fields()), span)
      ensures n > 0 || error.Some? || BiosLeft(reqs[id]) < old(BiosLeft(reqs[id]))
    {
      hide PutAll;
      n := 0;
      NextBio(id, span);
      if error.Some? {
        return;
      }
      var r := reqs[id];
      n := Min(|span|, |r.bios[r.bio]| - r.filled);
      assert span == span[..n] + span[n..];
      PutSpan(cfg, Fields(), span[..n], span[n..]);
      if cfg.dataDigest {
        rcvHash := rcvHash + span[..n];
      }
      reqs := reqs[id := Copy(r, span[..n])];
      dataRemaining := dataRemaining - n;
    }

    method RecvData(skb: seq<byte>, offset: nat) returns (taken: nat)
      requires Valid() && error.None? && StageOf(Fields()) == Data && offset < |skb|
      modifies this`pduRemaining, this`pduOffset, this`dataRemaining, this`ddgstRemaining, this`rcvHash, this`expDdgst,
               this`reqs, this`log, this`error
      ensures Valid() && taken <= |skb| - offset
      ensures Run(cfg, Abs(), skb[offset + taken..]) == Run(cfg, old(Abs()), skb[offset..])
      ensures taken > 0 || error.Some? || StageOf(Fields()) != Data
    {
      hide Run, SkipFull, PutAll, FinishData;
      ghost var c := Fields();
      var id := CommandId(pdu[..pduOffset]);
      taken := 0;
      if id !in reqs {
        error := Some(Enoent);
        MissingTag(cfg, c, skb[offset..]);
        return;
      }
      var total := Min(|skb| - offset, dataRemaining);
      var span := skb[offset..offset + total];
      while taken < total
        invariant Valid() && error.None? && StageOf(Fields()) == Data && taken <= total
        invariant id == CommandId(Fields().pdu) && id in reqs && dataRemaining == c.dataRemaining - taken
        invariant PutAll(cfg, Fields(), span[taken..]) == PutAll(cfg, c, span)
        decreases total - taken, BiosLeft(reqs[id])
      {
        var n := CopyToBio(id, span[taken..]);
        if error.Some? {
          assert skb[offset..][..total] == span;
          DataRun(cfg, c, skb[offset..], total);
          RunFailed(cfg, Abs(), skb[offset..][total..]);
          RunFailed(cfg, Abs(), skb[offset + taken..]);
          return;
        }
        assert span[taken..][n..] == span[taken + n..];
        taken := taken + n;
      }
      PutNothing(cfg, Fields());
      assert skb[offset..][..total] == span && span[taken..] == [];
      DataRun(cfg, c, skb[offset..], total);
      assert skb[offset..][total..] == skb[offset + taken..];
      if dataRemaining == 0 {
        FinishDataNow(id);
      }
    }

    method FinishDataNow(id: nat)
      requires Valid() && error.None? && StageOf(Fields()) == Data && id == CommandId(Fields().pdu)
      modifies this`pduRemaining, this`pduOffset, this`dataRemaining, this`ddgstRemaining, this`expDdgst, this`log
      ensures Valid() && Fields() == FinishData(cfg, old(Fields()))
    {
      if cfg.dataDigest {
        expDdgst := cfg.crc(rcvHash);
        ddgstRemaining := DIGEST_LENGTH;
      } else {
        if IsDataSuccess(pdu[1]) {
          log := log + [DataSuccess(id)];
        }
        InitCtx();
      }
    }

    method RecvDdgst(skb: seq<byte>, offset: nat) returns (taken: nat)
      requires Valid() && error.None? && StageOf(Fields()) == Ddgst && offset < |skb|
      modifies this`pduRemaining, this`pduOffset, this`dataRemaining, this`ddgstRemaining, this`recvDdgst, this`log, this`error
      ensures Valid() && 0 < taken <= |skb| - offset
      ensures Abs() == Run(cfg, old(Abs()), skb[offset..offset + taken])
    {
      hide Run;
      taken := Min(|skb| - offset, ddgstRemaining);
      RunDdgstBytes(cfg, Fields(), skb[offset..offset + taken]);
      var off := DIGEST_LENGTH - ddgstRemaining;
      recvDdgst := Splice(recvDdgst, off, skb[offset..offset + taken]);
      ddgstRemaining := ddgstRemaining - taken;
      if ddgstRemaining != 0 {
        return;
      }
      if recvDdgst != expDdgst {
        error := Some(Eio);
        return;
      }
      if IsDataSuccess(pdu[1]) {
        log := log + [DataSuccess(CommandId(pdu[..]))];
      }
      InitCtx();
    }

    // One turn of the loop of nvme_tcp_recv_skb.
    method RecvSome(skb: seq<byte>, offset: nat) returns (next: nat)
      requires Valid() && error.None? && offset < |skb|
      modifies this`pduRemaining, this`pduOffset, this`dataRemaining, this`ddgstRemaining, this`rcvHash, this`expDdgst,
               this`recvDdgst, this`reqs, this`log, this`error, pdu
      ensures Valid() && offset <= next <= |skb|
      ensures Run(cfg, Abs(), skb[next..]) == Run(cfg, old(Abs()), skb[offset..])
      ensures next > offset || error.Some? || (StageOf(old(Fields())) == Data && StageOf(Fields()) != Data)
    {
      hide Consume, Run;
      ghost var before := Abs();
      var taken;
      match StageNow() {
        case Pdu => taken := RecvPdu(skb, offset);
        case Data => taken := RecvData(skb, offset);
        case Ddgst => taken := RecvDdgst(skb, offset);
      }
      next := offset + taken;
      if StageOf(before.ctx) != Data {
        RunConcat(cfg, before, skb[offset..next], skb[next..]);
        assert skb[offset..] == skb[offset..next] + skb[next..];
      }
    }

    // The whole buffer is consumed unless there is an error; either way the queue
    // is where the byte-at-a-time automaton is, having gone on from wherever the
    // last call left it, with an error or not.
    method RecvSkb(skb: seq<byte>)
      requires Valid() && error != Some(NullBio)
      modifies this, pdu
      ensures Valid() && Abs() == Run(cfg, Resume(old(Abs())), skb)
      ensures rdEnabled <==> old(rdEnabled) && error.None?
    {
      hide Run, ContextOk;
      error := None;
      ghost var start := Abs();
      var offset := 0;
      assert skb[0..] == skb;
      while offset < |skb|
        invariant Valid() && error.None? && offset <= |skb| && rdEnabled == old(rdEnabled)
        invariant Run(cfg, Abs(), skb[offset..]) == Run(cfg, start, skb)
        decreases |skb| - offset, StageOf(Fields()) == Data
      {
        offset := RecvSome(skb, offset);
        if error.Some? {
          RunFailed(cfg, Abs(), skb[offset..]);
          rdEnabled := false;
          return;
        }
      }
      assert skb[offset..] == [];
      RunNothing(cfg, Abs());
    }

    function StageNow(): (s: Stage)
      reads this
    {
      if pduRemaining != 0 then Pdu else if ddgstRemaining != 0 then Ddgst else Data
    }
  }

  lemma SkipOne(cfg: Config, c: Context, bytes: seq<byte>)
    requires ContextOk(cfg, c) && StageOf(c) == Data && 0 < |bytes| <= c.dataRemaining
    requires CommandId(c.pdu) in c.reqs
    requires var r := c.reqs[CommandId(c.pdu)]; r.bio + 1 < |r.bios| && r.filled >= |r.bios[r.bio]|
    ensures
      var r := c.reqs[CommandId(c.pdu)];
      PutAll(cfg, c.(reqs := c.reqs[CommandId(c.pdu) := r.(bio := r.bio + 1, filled := 0)]), bytes) == PutAll(cfg, c, bytes)
  {
    hide PutByte, InitRecvCtx;
    SkipOneByte(cfg, c, bytes[0]);
  }

  lemma SkipOneByte(cfg: Config, c: Context, b: byte)
    requires ContextOk(cfg, c) && StageOf(c) == Data && c.dataRemaining > 0
    requires CommandId(c.pdu) in c.reqs
    requires var r := c.reqs[CommandId(c.pdu)]; r.bio + 1 < |r.bios| && r.filled >= |r.bios[r.bio]|
    ensures
      var r := c.reqs[CommandId(c.pdu)];
      PutByte(cfg, c.(reqs := c.reqs[CommandId(c.pdu) := r.(bio := r.bio + 1, filled := 0)]), b) == PutByte(cfg, c, b)
  {
    hide Copy;
    var id := CommandId(c.pdu);
    var s := c.reqs[id].(bio := c.reqs[id].bio + 1, filled := 0);
    var t := SkipFull(s);
    assert SkipFull(c.reqs[id]) == t;
    assert c.reqs[id := s][id := t] == c.reqs[id := t];
    if t.bio < |t.bios| {
      var u := Copy(t, [b]);
      assert c.reqs[id := s][id := u] == c.reqs[id := u];
    }
  }

  lemma NoBio(cfg: Config, c: Context, bytes: seq<byte>)
    requires ContextOk(cfg, c) && StageOf(c) == Data && 0 < |bytes| <= c.dataRemaining
    requires CommandId(c.pdu) in c.reqs
    requires var r := c.reqs[CommandId(c.pdu)]; r.bio + 1 == |r.bios| && r.filled >= |r.bios[r.bio]|
    ensures
      var id := CommandId(c.pdu);
      var r := c.reqs[id];
      PutAll(cfg, c, bytes) == Failed(Eio, InitRecvCtx(cfg, c.(reqs := c.reqs[id := r.(bio := r.bio + 1, filled := 0)])))
  {
    var r := c.reqs[CommandId(c.pdu)];
    assert SkipFull(r) == r.(bio := r.bio + 1, filled := 0);
  }

  lemma NullBioFails(cfg: Config, c: Context, bytes: seq<byte>)
    requires ContextOk(cfg, c) && StageOf(c) == Data && 0 < |bytes| <= c.dataRemaining
    requires CommandId(c.pdu) in c.reqs && c.reqs[CommandId(c.pdu)].bio >= |c.reqs[CommandId(c.pdu)].bios|
    ensures PutAll(cfg, c, bytes) == Failed(NullBio, c)
  {
  }

  lemma VerifiedSame(cfg: Config, pdu: seq<byte>)
    requires |pdu| == cfg.PduLen() && pdu[2] > 2 && pdu[2] as nat + DIGEST_LENGTH <= |pdu|
    requires pdu[pdu[2]..pdu[2] as nat + DIGEST_LENGTH] == cfg.crc(pdu[..pdu[2]])
    ensures Recomputed(cfg, pdu) == pdu
  {
  }

  lemma PutNothing(cfg: Config, c: Context)
    requires ContextOk(cfg, c) && StageOf(c) == Data
    ensures PutAll(cfg, c, []) == Running(c)
  {
  }

  lemma MissingTag(cfg: Config, c: Context, bytes: seq<byte>)
    requires ContextOk(cfg, c) && StageOf(c) == Data && CommandId(c.pdu) !in c.reqs && bytes != []
    ensures Run(cfg, Running(c), bytes) == Run(cfg, Fail(c, Enoent), bytes)
  {
    RunFailed(cfg, Fail(c, Enoent), bytes[1..]);
    RunFailed(cfg, Fail(c, Enoent), bytes);
  }

  // What the data stage does with its share of a buffer.
  lemma DataRun(cfg: Config, c: Context, bytes: seq<byte>, total: nat)
    requires ContextOk(cfg, c) && StageOf(c) == Data && CommandId(c.pdu) in c.reqs
    requires bytes != [] && total == Min(|bytes|, c.dataRemaining)
    ensures Run(cfg, Running(c), bytes) == Run(cfg, Settle(cfg, PutAll(cfg, c, bytes[..total])), bytes[total..])
  {
    if total == 0 {
      assert bytes[total..] == bytes;
      assert Consume(cfg, Running(c), bytes[0]) == Consume(cfg, Settle(cfg, Running(c)), bytes[0]);
    } else {
      assert bytes == bytes[..total] + bytes[total..];
      RunDataBytes(cfg, c, bytes[..total]);
      RunConcat(cfg, Running(c), bytes[..total], bytes[total..]);
    }
  }
}
