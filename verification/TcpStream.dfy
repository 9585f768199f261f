// What the receive automaton of TcpRecv means for a whole stream: up to the first
// error it does not depend on how the stream is cut, and on an encoded list of PDUs
// it does what delivering the PDUs one after another to flat buffers does.
module TcpStream {
  import opened Arith
  import opened Options
  import opened Wire
  import opened TcpRecv

  // ---- Independence of the cuts ----

  // The socket hands over a buffer, or the block layer queues a new request
  // under a tag, as nvme_tcp_setup_cmd_pdu does.
  datatype Input = Skb(bytes: seq<byte>) | Submit(id: nat, req: Request)

  datatype Item = Octet(b: byte) | Queued(id: nat, req: Request)

  function SubmitReq(rx: Rx, id: nat, req: Request): Rx {
    rx.(ctx := rx.ctx.(reqs := rx.ctx.reqs[id := req]))
  }

  // Each buffer is a call, which goes on whatever the last one ended with.
  function Step(cfg: Config, rx: Rx, input: Input): (s: Rx)
    requires ContextOk(cfg, rx.ctx)
    ensures ContextOk(cfg, s.ctx)
  {
    match input
    case Skb(bytes) => Run(cfg, Resume(rx), bytes)
    case Submit(id, req) => SubmitReq(rx, id, req)
  }

  function RunInputs(cfg: Config, rx: Rx, inputs: seq<Input>): (s: Rx)
    requires ContextOk(cfg, rx.ctx)
    ensures ContextOk(cfg, s.ctx)
    decreases |inputs|
  {
    if inputs == [] then rx else RunInputs(cfg, Step(cfg, rx, inputs[0]), inputs[1..])
  }

  // The state the first error leaves, or the last state if there is none.
  function UpToError(cfg: Config, rx: Rx, inputs: seq<Input>): (s: Rx)
    requires ContextOk(cfg, rx.ctx)
    ensures ContextOk(cfg, s.ctx)
    decreases |inputs|
  {
    if inputs == [] || rx.Failed? then rx else UpToError(cfg, Step(cfg, rx, inputs[0]), inputs[1..])
  }

  function ItemsUpToError(cfg: Config, rx: Rx, items: seq<Item>): (s: Rx)
    requires ContextOk(cfg, rx.ctx)
    ensures ContextOk(cfg, s.ctx)
    decreases |items|
  {
    if items == [] || rx.Failed? then rx else
    var next := match items[0]
      case Octet(b) => Consume(cfg, rx, b)
      case Queued(id, req) => SubmitReq(rx, id, req);
    ItemsUpToError(cfg, next, items[1..])
  }

  function Octets(bytes: seq<byte>): (items: seq<Item>)
    ensures |items| == |bytes|
  {
    seq(|bytes|, i requires 0 <= i < |bytes| => Octet(bytes[i]))
  }

  function Flatten(inputs: seq<Input>): seq<Item> {
    if inputs == [] then [] else
    (match inputs[0]
     case Skb(bytes) => Octets(bytes)
     case Submit(id, req) => [Queued(id, req)]) + Flatten(inputs[1..])
  }

  lemma {:induction false} ItemsOctets(cfg: Config, rx: Rx, bytes: seq<byte>, rest: seq<Item>)
    requires ContextOk(cfg, rx.ctx)
    ensures ItemsUpToError(cfg, rx, Octets(bytes) + rest) == ItemsUpToError(cfg, Run(cfg, rx, bytes), rest)
    decreases |bytes|
  {
    if bytes == [] {
      assert Octets(bytes) + rest == rest;
    } else if rx.Failed? {
      RunFailed(cfg, rx, bytes);
    } else {
      assert (Octets(bytes) + rest)[1..] == Octets(bytes[1..]) + rest;
      ItemsOctets(cfg, Consume(cfg, rx, bytes[0]), bytes[1..], rest);
    }
  }

  lemma {:induction false} UpToErrorIsItems(cfg: Config, rx: Rx, inputs: seq<Input>)
    requires ContextOk(cfg, rx.ctx)
    ensures UpToError(cfg, rx, inputs) == ItemsUpToError(cfg, rx, Flatten(inputs))
    decreases |inputs|
  {
    if inputs != [] && rx.Running? {
      match inputs[0]
      case Skb(bytes) =>
        ItemsOctets(cfg, rx, bytes, Flatten(inputs[1..]));
        UpToErrorIsItems(cfg, Run(cfg, rx, bytes), inputs[1..]);
      case Submit(id, req) =>
        UpToErrorIsItems(cfg, SubmitReq(rx, id, req), inputs[1..]);
        assert Flatten(inputs)[1..] == Flatten(inputs[1..]);
    }
  }

  // After k inputs the driver is in the state of the first error, after all of them
  // if there is none.
  lemma {:induction false} ReachesError(cfg: Config, rx: Rx, inputs: seq<Input>) returns (k: nat)
    requires ContextOk(cfg, rx.ctx)
    ensures k <= |inputs| && RunInputs(cfg, rx, inputs[..k]) == UpToError(cfg, rx, inputs)
    ensures UpToError(cfg, rx, inputs).Running? ==> k == |inputs|
    decreases |inputs|
  {
    if inputs == [] || rx.Failed? {
      k := 0;
    } else {
      k := ReachesError(cfg, Step(cfg, rx, inputs[0]), inputs[1..]);
      k := k + 1;
      assert inputs[..k][1..] == inputs[1..][..k - 1];
    }
  }

  // However a stream is cut, the first error finds the queue in the same state, and
  // without one it ends in the same state.
  lemma ChunkIndependence(cfg: Config, rx: Rx, cut1: seq<Input>, cut2: seq<Input>)
    requires ContextOk(cfg, rx.ctx) && Flatten(cut1) == Flatten(cut2)
    ensures UpToError(cfg, rx, cut1) == UpToError(cfg, rx, cut2)
    ensures UpToError(cfg, rx, cut1).Running? ==>
      RunInputs(cfg, rx, cut1) == RunInputs(cfg, rx, cut2) == UpToError(cfg, rx, cut1)
    ensures UpToError(cfg, rx, cut1).Failed? ==>
      exists k1, k2 | 0 <= k1 <= |cut1| && 0 <= k2 <= |cut2| ::
        RunInputs(cfg, rx, cut1[..k1]) == RunInputs(cfg, rx, cut2[..k2]) == UpToError(cfg, rx, cut1)
  {
    hide RunInputs, UpToError, ItemsUpToError, Flatten;
    UpToErrorIsItems(cfg, rx, cut1);
    UpToErrorIsItems(cfg, rx, cut2);
    var k1 := ReachesError(cfg, rx, cut1);
    var k2 := ReachesError(cfg, rx, cut2);
    assert cut1[..|cut1|] == cut1 && cut2[..|cut2|] == cut2;
    assert RunInputs(cfg, rx, cut1[..k1]) == RunInputs(cfg, rx, cut2[..k2]) == UpToError(cfg, rx, cut1);
  }

  // ---- After an error ----

  predicate Undisturbed(rx: Rx, c: Context) {
    rx.ctx == c && !(rx.Failed? && rx.error.NullBio?)
  }

  // Nothing that may still come in has any effect.
  ghost predicate Inert(cfg: Config, c: Context)
    requires ContextOk(cfg, c)
  {
    forall bytes :: Undisturbed(Run(cfg, Running(c), bytes), c)
  }

  // That is so exactly when data is due for a tag that is not in use.
  lemma InertExact(cfg: Config, c: Context)
    requires ContextOk(cfg, c)
    ensures Inert(cfg, c) <==> StageOf(c) == Data && CommandId(c.pdu) !in c.reqs
  {
    hide HandlePdu, EndDdgst;
    if StageOf(c) == Data && CommandId(c.pdu) !in c.reqs {
      forall bytes
        ensures Run(cfg, Running(c), bytes) == if bytes == [] then Running(c) else Failed(Enoent, c)
      {
        if bytes != [] {
          RunFailed(cfg, Failed(Enoent, c), bytes[1..]);
        }
      }
    } else {
      var b: byte := 0;
      OneByte(cfg, c, b);
      var rx := Consume(cfg, Running(c), b);
      assert [b][1..] == [];
      assert Run(cfg, Running(c), [b]) == rx;
      assert !Undisturbed(Run(cfg, Running(c), [b]), c);
    }
  }

  // Any other state is changed by the next byte, or is the one with no bio left.
  lemma OneByte(cfg: Config, c: Context, b: byte)
    requires ContextOk(cfg, c) && !(StageOf(c) == Data && CommandId(c.pdu) !in c.reqs)
    ensures var rx := Consume(cfg, Running(c), b); rx.ctx != c || rx == Failed(NullBio, c)
  {
    hide Recomputed, VerifyHdgst, CheckDdgst;
  }

  // So after an error it does matter how the stream goes on being cut, unless the
  // error left an inert state: a cut behind the error lets the rest in.
  lemma CutsAfterError(cfg: Config, c: Context, a: seq<byte>)
    requires ContextOk(cfg, c) && Run(cfg, Running(c), a).Failed? && !Run(cfg, Running(c), a).error.NullBio?
    ensures (forall b :: SameEitherWay(cfg, c, a, b)) <==> Inert(cfg, Run(cfg, Running(c), a).ctx)
  {
    hide Run, Undisturbed, SameEitherWay;
    var d := Run(cfg, Running(c), a).ctx;
    forall b
      ensures SameEitherWay(cfg, c, a, b) <==> Undisturbed(Run(cfg, Running(d), b), d)
    {
      TwoCuts(cfg, c, a, b);
    }
  }

  // The bytes of a and b in two buffers do what they do in one.
  ghost predicate SameEitherWay(cfg: Config, c: Context, a: seq<byte>, b: seq<byte>)
    requires ContextOk(cfg, c)
  {
    Undisturbed(RunInputs(cfg, Running(c), [Skb(a), Skb(b)]), RunInputs(cfg, Running(c), [Skb(a + b)]).ctx)
  }

  lemma TwoCuts(cfg: Config, c: Context, a: seq<byte>, b: seq<byte>)
    requires ContextOk(cfg, c) && Run(cfg, Running(c), a).Failed? && !Run(cfg, Running(c), a).error.NullBio?
    ensures RunInputs(cfg, Running(c), [Skb(a), Skb(b)]) == Run(cfg, Running(Run(cfg, Running(c), a).ctx), b)
    ensures RunInputs(cfg, Running(c), [Skb(a + b)]) == Run(cfg, Running(c), a)
    ensures var d := Run(cfg, Running(c), a).ctx;
      SameEitherWay(cfg, c, a, b) <==> Undisturbed(Run(cfg, Running(d), b), d)
  {
    hide Run;
    var rx := Run(cfg, Running(c), a);
    RunConcat(cfg, Running(c), a, b);
    RunFailed(cfg, rx, b);
    OneInput(cfg, Running(c), Skb(a + b));
    OneInput(cfg, rx, Skb(b));
    assert [Skb(a), Skb(b)][1..] == [Skb(b)];
  }

  lemma OneInput(cfg: Config, rx: Rx, input: Input)
    requires ContextOk(cfg, rx.ctx)
    ensures RunInputs(cfg, rx, [input]) == Step(cfg, rx, input)
  {
    assert [input][1..] == [];
  }

  // A header refused for its digest, for one: the byte after it is put into the
  // memory of whatever request the refused header names.
  lemma RefusedHeaderWrites(cfg: Config, c: Context, h: seq<byte>, b: byte)
    requires ContextOk(cfg, c) && c.pduRemaining == cfg.PduLen() && c.dataRemaining == SIZE_MAX
    requires cfg.hdrDigest && |h| == cfg.PduLen() && h[2] == RSP_PDU_LENGTH as byte && HasHdgst(h[1])
    requires h[RSP_PDU_LENGTH..] != cfg.crc(h[..RSP_PDU_LENGTH])
    requires CommandId(h) in c.reqs
    requires var r := c.reqs[CommandId(h)]; r.bio < |r.bios| && r.filled < |r.bios[r.bio]|
    ensures var rx := RunInputs(cfg, Running(c), [Skb(h), Skb([b])]);
      && Run(cfg, Running(c), h).Failed? && Run(cfg, Running(c), h).error == Eio
      && rx.Running? && rx.ctx.reqs == c.reqs[CommandId(h) := Copy(c.reqs[CommandId(h)], [b])]
  {
    hide Run, HandlePdu, Copy, Recomputed;
    assert c.pdu + h == h;
    RunPduBytes(cfg, c, h);
    RefusedContext(cfg, c, h);
    var d := Run(cfg, Running(c), h).ctx;
    DataByte(cfg, d, b);
    TwoCuts(cfg, c, h, [b]);
  }

  lemma DataByte(cfg: Config, c: Context, b: byte)
    requires ContextOk(cfg, c) && StageOf(c) == Data && c.dataRemaining > 1 && CommandId(c.pdu) in c.reqs
    requires var r := c.reqs[CommandId(c.pdu)]; r.bio < |r.bios| && r.filled < |r.bios[r.bio]|
    ensures var rx := Run(cfg, Running(c), [b]);
      rx.Running? && rx.ctx.reqs == c.reqs[CommandId(c.pdu) := Copy(c.reqs[CommandId(c.pdu)], [b])]
  {
    assert [b][1..] == [];
    assert Run(cfg, Running(c), [b]) == Consume(cfg, Running(c), b);
  }

  lemma RefusedContext(cfg: Config, c: Context, h: seq<byte>)
    requires ContextOk(cfg, c.(pdu := h, pduRemaining := 0)) && c.ddgstRemaining == 0
    requires cfg.hdrDigest && |h| == cfg.PduLen() && h[2] == RSP_PDU_LENGTH as byte && HasHdgst(h[1])
    requires h[RSP_PDU_LENGTH..] != cfg.crc(h[..RSP_PDU_LENGTH])
    ensures var rx := HandlePdu(cfg, c.(pdu := h, pduRemaining := 0));
      && rx == Failed(Eio, c.(pdu := Recomputed(cfg, h), pduRemaining := 0))
      && CommandId(Recomputed(cfg, h)) == CommandId(h)
  {
    assert h[24..28] == h[RSP_PDU_LENGTH..];
  }

  // ---- PDUs and flat buffers ----

  // What the common header says besides type and header length, and the digest that
  // follows the header if headers have one: right or wrong.
  datatype Head = Head(flags: byte, pdo: byte, plen: nat, hdgst: Digest)

  // offset is where the data belong in the memory of the request, ddgst the digest
  // that follows them if data have one: right or wrong.
  datatype WirePdu =
    | CapsuleResp(head: Head, cqe: seq<byte>)
    | C2HData(head: Head, id: nat, offset: nat, data: seq<byte>, ddgst: Digest)
    | R2T(head: Head, body: seq<byte>)
    | Other(head: Head, kind: byte, body: seq<byte>)

  predicate WellFormed(p: WirePdu) {
    && p.head.plen < 0x1_0000_0000
    && match p
       case CapsuleResp(_, cqe) => |cqe| == 16
       case C2HData(_, id, offset, data, _) => id < 0x1_0000 && offset < 0x1_0000_0000 && |data| < 0x1_0000_0000
       case R2T(_, body) => |body| == 16
       case Other(_, kind, body) => kind != TYPE_RSP && kind != TYPE_C2H_DATA && kind != TYPE_R2T && |body| == 16
  }

  function TypeOf(p: WirePdu): byte {
    if p.CapsuleResp? then TYPE_RSP
    else if p.C2HData? then TYPE_C2H_DATA
    else if p.R2T? then TYPE_R2T
    else p.kind
  }

  function Header(p: WirePdu): (h: seq<byte>)
    requires WellFormed(p)
    ensures |h| == RSP_PDU_LENGTH
  {
    var body := match p
      case CapsuleResp(_, cqe) => cqe
      case C2HData(_, id, offset, data, _) => PutLe16(id) + [0, 0] + PutLe32(offset) + PutLe32(|data|) + [0, 0, 0, 0]
      case R2T(_, body) => body
      case Other(_, _, body) => body;
    [TypeOf(p), p.head.flags, RSP_PDU_LENGTH as byte, p.head.pdo] + PutLe32(p.head.plen) + body
  }

  function FullHeader(cfg: Config, p: WirePdu): (h: seq<byte>)
    requires WellFormed(p)
    ensures |h| == cfg.PduLen()
  {
    Header(p) + if cfg.hdrDigest then p.head.hdgst else []
  }

  function Payload(cfg: Config, p: WirePdu): seq<byte> {
    if !p.C2HData? then [] else p.data + if cfg.dataDigest then p.ddgst else []
  }

  function Encode(cfg: Config, p: WirePdu): seq<byte>
    requires WellFormed(p)
  {
    FullHeader(cfg, p) + Payload(cfg, p)
  }

  function DataFlags(cfg: Config, last: bool, success: bool): (f: byte)
    ensures HasHdgst(f) == cfg.hdrDigest && HasDdgst(f) == cfg.dataDigest
    ensures IsDataLast(f) == last && IsDataSuccess(f) == success
  {
    (if cfg.hdrDigest then 1 else 0) + (if cfg.dataDigest then 2 else 0)
      + (if last then 4 else 0) + (if success then 8 else 0)
  }

  // The digest of a header is over what stands before it.
  function WithDigest(cfg: Config, p: WirePdu): (q: WirePdu)
    requires WellFormed(p)
    ensures WellFormed(q) && q == p.(head := q.head) && q.head == p.head.(hdgst := cfg.crc(Header(q)))
  {
    var q := p.(head := p.head.(hdgst := cfg.crc(Header(p))));
    SameHeader(p, q);
    q
  }

  lemma SameHeader(p: WirePdu, q: WirePdu)
    requires WellFormed(p) && q == p.(head := p.head.(hdgst := q.head.hdgst))
    ensures WellFormed(q) && Header(q) == Header(p)
  {
  }

  // A data PDU as it should be.
  function DataPdu(cfg: Config, id: nat, last: bool, success: bool, pdo: byte, offset: nat, data: seq<byte>): (p: WirePdu)
    requires id < 0x1_0000 && offset < 0x1_0000_0000 && |data| < 0xFFFF_FF00
    ensures WellFormed(p)
  {
    var plen := RSP_PDU_LENGTH + cfg.HdgstLen() + |data| + if cfg.dataDigest then DIGEST_LENGTH else 0;
    WithDigest(cfg, C2HData(Head(DataFlags(cfg, last, success), pdo, plen, [0, 0, 0, 0]), id, offset, data, cfg.crc(data)))
  }

  lemma DataPduIs(cfg: Config, id: nat, last: bool, success: bool, pdo: byte, offset: nat, data: seq<byte>)
    requires id < 0x1_0000 && offset < 0x1_0000_0000 && |data| < 0xFFFF_FF00
    ensures var p := DataPdu(cfg, id, last, success, pdo, offset, data);
      && p.C2HData? && p.id == id && p.offset == offset && p.data == data && p.ddgst == cfg.crc(data)
      && IsDataLast(p.head.flags) == last && IsDataSuccess(p.head.flags) == success && Refusal(cfg, p).None?
  {
    hide Header, DataFlags, WithDigest, HasHdgst, HasDdgst, IsDataLast, IsDataSuccess;
  }

  function EncodeAll(cfg: Config, ps: seq<WirePdu>): seq<byte>
    requires forall p | p in ps :: WellFormed(p)
  {
    if ps == [] then [] else Encode(cfg, ps[0]) + EncodeAll(cfg, ps[1..])
  }

  // A request's memory as one buffer, filled up to pos.
  datatype Buffer = Buffer(payloadBytes: nat, mem: seq<byte>, pos: nat)

  datatype View = View(bufs: map<nat, Buffer>, log: seq<Event>, error: Option<RecvError>)

  // Why a PDU is refused for its header.
  function Refusal(cfg: Config, p: WirePdu): Option<RecvError>
    requires WellFormed(p)
  {
    var flagged := HasHdgst(p.head.flags);
    if cfg.hdrDigest && !flagged then Some(Eproto)
    else if cfg.hdrDigest && p.head.hdgst != cfg.crc(Header(p)) then Some(Eio)
    // Data announced by the length, but no digest of them by the flag.
    else if cfg.dataDigest && !HasDdgst(p.head.flags)
            && p.head.plen != RSP_PDU_LENGTH + (if flagged then cfg.HdgstLen() else 0) then Some(Eproto)
    else if p.Other? then Some(Einval)
    else None
  }

  function Deliver(cfg: Config, v: View, p: WirePdu): View
    requires WellFormed(p)
    requires forall id | id in v.bufs :: v.bufs[id].pos <= |v.bufs[id].mem|
  {
    if v.error.Some? then v
    else if Refusal(cfg, p).Some? then v.(error := Refusal(cfg, p))
    else match p
    case CapsuleResp(_, cqe) =>
      var id := Le16(cqe, 12);
      if cfg.adminQueue && id >= cfg.aqBlkMqDepth then v.(log := v.log + [AsyncEvent(cqe)])
      else if id !in v.bufs then v.(error := Some(Einval))
      else v.(log := v.log + [Completed(id, cqe)])
    case R2T(_, body) =>
      if Le16(body, 0) !in v.bufs then v.(error := Some(Enoent)) else
      var verdict := cfg.r2tVerdict(v.log, FullHeader(cfg, p));
      if verdict.Some? then v.(error := verdict) else v.(log := v.log + [ReadyToTransfer(FullHeader(cfg, p))])
    case C2HData(head, id, _, data, ddgst) =>
      if id !in v.bufs then v.(error := Some(Enoent))
      else if v.bufs[id].payloadBytes == 0 then v.(error := Some(Eio))
      else if IsDataSuccess(head.flags) && !IsDataLast(head.flags) then v.(error := Some(Eproto)) else
      var w := v.(bufs := v.bufs[id := Fill(v.bufs[id], data)]);
      if |data| > Room(v.bufs[id]) || (cfg.dataDigest && ddgst != cfg.crc(data)) then w.(error := Some(Eio))
      else if IsDataSuccess(head.flags) then w.(log := v.log + [DataSuccess(id)])
      else w
    case Other(_, _, _) => v
  }

  function Room(b: Buffer): nat
    requires b.pos <= |b.mem|
  {
    |b.mem| - b.pos
  }

  // Writes at pos as much of the data as there is room for.
  function Fill(b: Buffer, data: seq<byte>): (f: Buffer)
    requires b.pos <= |b.mem|
    ensures f.pos <= |f.mem|
  {
    var n := Min(|data|, Room(b));
    b.(mem := Splice(b.mem, b.pos, data[..n]), pos := b.pos + n)
  }

  ghost predicate ViewOk(v: View) {
    forall id | id in v.bufs :: v.bufs[id].pos <= |v.bufs[id].mem|
  }

  ghost function DeliverAll(cfg: Config, v: View, ps: seq<WirePdu>): View
    requires ViewOk(v) && forall p | p in ps :: WellFormed(p)
    decreases |ps|
  {
    if ps == [] then v else DeliverAll(cfg, Deliver(cfg, v, ps[0]), ps[1..])
  }

  // ---- The automaton seen through flat buffers ----

  predicate ReqOk(r: Request) {
    && r.bio <= |r.bios|
    && r.filled <= (if r.bio < |r.bios| then |r.bios[r.bio]| else 0)
  }

  ghost predicate ReqsOk(reqs: map<nat, Request>) {
    forall id | id in reqs :: ReqOk(reqs[id])
  }

  // A request that takes data has a bio: no earlier data has run out of them.
  ghost predicate Served(reqs: map<nat, Request>) {
    forall id | id in reqs && reqs[id].payloadBytes > 0 :: reqs[id].bio < |reqs[id].bios|
  }

  function BufferOf(r: Request): (b: Buffer)
    requires ReqOk(r)
  {
    Buffer(r.payloadBytes, Concat(r.bios), |Concat(r.bios[..r.bio])| + r.filled)
  }

  function Bufs(reqs: map<nat, Request>): (m: map<nat, Buffer>)
    requires ReqsOk(reqs)
    ensures m.Keys == reqs.Keys
  {
    map id | id in reqs :: BufferOf(reqs[id])
  }

  lemma BufsAt(reqs: map<nat, Request>)
    requires ReqsOk(reqs)
    ensures Bufs(reqs).Keys == reqs.Keys
    ensures forall id | id in reqs :: ReqOk(reqs[id]) && Bufs(reqs)[id] == BufferOf(reqs[id])
    ensures forall id | id in reqs :: Bufs(reqs)[id].payloadBytes == reqs[id].payloadBytes
  {
  }

  ghost function ViewOf(rx: Rx): View
    requires ReqsOk(rx.ctx.reqs)
  {
    View(Bufs(rx.ctx.reqs), rx.ctx.log, if rx.Failed? then Some(rx.error) else None)
  }

  lemma {:induction false} ConcatSplit<T>(parts: seq<seq<T>>, k: nat)
    requires k < |parts|
    ensures Concat(parts) == Concat(parts[..k]) + parts[k] + Concat(parts[k + 1..])
  {
    assert parts == parts[..k] + ([parts[k]] + parts[k + 1..]);
    ConcatAppend(parts[..k], [parts[k]] + parts[k + 1..]);
  }

  lemma BufferOfOk(r: Request)
    requires ReqOk(r)
    ensures BufferOf(r).pos <= |BufferOf(r).mem|
  {
    if r.bio < |r.bios| {
      ConcatSplit(r.bios, r.bio);
    } else {
      assert r.bios[..r.bio] == r.bios;
    }
  }

  lemma BufsOk(reqs: map<nat, Request>)
    requires ReqsOk(reqs)
    ensures forall id | id in reqs :: BufferOf(reqs[id]).pos <= |BufferOf(reqs[id]).mem|
  {
    forall id | id in reqs
      ensures BufferOf(reqs[id]).pos <= |BufferOf(reqs[id]).mem|
    {
      BufferOfOk(reqs[id]);
    }
  }

  lemma {:induction false} SkipFullBuffer(r: Request)
    requires ReqOk(r)
    ensures ReqOk(SkipFull(r)) && BufferOf(SkipFull(r)) == BufferOf(r)
    decreases BiosLeft(r)
  {
    if r.bio < |r.bios| && r.filled >= |r.bios[r.bio]| {
      assert r.bios[..r.bio + 1] == r.bios[..r.bio] + [r.bios[r.bio]];
      ConcatAppend(r.bios[..r.bio], [r.bios[r.bio]]);
      assert Concat([r.bios[r.bio]]) == r.bios[r.bio];
      SkipFullBuffer(r.(bio := r.bio + 1, filled := 0));
    }
  }

  lemma CopyBuffer(r: Request, b: byte)
    requires ReqOk(r) && r.bio < |r.bios| && r.filled < |r.bios[r.bio]|
    ensures
      var s := Copy(r, [b]);
      && ReqOk(s) && BufferOf(r).pos < |BufferOf(r).mem| && BufferOf(s) == Fill(BufferOf(r), [b])
      && s.bio == r.bio < |s.bios|
  {
    hide Concat, Splice;
    var s := Copy(r, [b]);
    ConcatSplit(r.bios, r.bio);
    ConcatSplit(s.bios, s.bio);
    assert s.bios[..s.bio] == r.bios[..r.bio];
    assert s.bios[s.bio + 1..] == r.bios[r.bio + 1..];
    SpliceMiddle(Concat(r.bios[..r.bio]), r.bios[r.bio], Concat(r.bios[r.bio + 1..]), r.filled, [b]);
    assert [b][..1] == [b];
  }

  lemma SpliceMiddle(head: seq<byte>, mid: seq<byte>, tail: seq<byte>, at: nat, b: seq<byte>)
    requires at + |b| <= |mid|
    ensures head + Splice(mid, at, b) + tail == Splice(head + mid + tail, |head| + at, b)
  {
  }

  lemma NoRoom(r: Request)
    requires ReqOk(r) && r.bio == |r.bios|
    ensures BufferOf(r).pos == |BufferOf(r).mem|
  {
    assert r.bios[..r.bio] == r.bios;
  }

  lemma FillNothing(b: Buffer, data: seq<byte>)
    requires b.pos <= |b.mem| && (data == [] || Room(b) == 0)
    ensures Fill(b, data) == b
  {
    assert data[..0] == [];
    assert Splice(b.mem, b.pos, []) == b.mem;
  }

  lemma FillSplit(b: Buffer, data: seq<byte>)
    requires b.pos < |b.mem| && data != []
    ensures Room(Fill(b, [data[0]])) == Room(b) - 1
    ensures Fill(Fill(b, [data[0]]), data[1..]) == Fill(b, data)
  {
    var n := Min(|data|, Room(b));
    assert [data[0]][..1] == [data[0]];
    assert data[1..][..n - 1] == data[1..n];
    assert Fill(Fill(b, [data[0]]), data[1..]).mem == Fill(b, data).mem;
  }

  lemma BufsUpdate(reqs: map<nat, Request>, id: nat, r: Request)
    requires ReqsOk(reqs) && ReqOk(r)
    ensures ReqsOk(reqs[id := r]) && Bufs(reqs[id := r]) == Bufs(reqs)[id := BufferOf(r)]
  {
  }

  // rx is c after the data went to its request's buffer, as far as it has room.
  ghost predicate Filled(cfg: Config, c: Context, data: seq<byte>, rx: Rx)
    requires ReqsOk(c.reqs) && |c.pdu| >= RSP_PDU_LENGTH && CommandId(c.pdu) in c.reqs && |data| <= c.dataRemaining
  {
    var id := CommandId(c.pdu);
    var b := BufferOf(c.reqs[id]);
    && b.pos <= |b.mem|
    && ReqsOk(rx.ctx.reqs) && id in rx.ctx.reqs && rx.ctx.reqs == c.reqs[id := rx.ctx.reqs[id]]
    && BufferOf(rx.ctx.reqs[id]) == Fill(b, data)
    && (rx.Running? ==> rx.ctx.reqs[id].bio < |rx.ctx.reqs[id].bios|)
    && rx == if |data| > Room(b) then
               Failed(Eio, InitRecvCtx(cfg, Hashed(cfg, c, data[..Room(b)]).(reqs := rx.ctx.reqs)))
             else
               Running(Hashed(cfg, c, data).(reqs := rx.ctx.reqs, dataRemaining := c.dataRemaining - |data|))
  }

  function Hashed(cfg: Config, c: Context, data: seq<byte>): Context {
    c.(hash := if cfg.dataDigest then c.hash + data else c.hash)
  }

  lemma PutByteFills(cfg: Config, c: Context, b: byte)
    requires ContextOk(cfg, c) && StageOf(c) == Data && c.dataRemaining > 0
    requires ReqsOk(c.reqs) && CommandId(c.pdu) in c.reqs
    requires c.reqs[CommandId(c.pdu)].bio < |c.reqs[CommandId(c.pdu)].bios|
    ensures Filled(cfg, c, [b], PutByte(cfg, c, b))
  {
    hide Fill, Bufs, BufferOf, SkipFull, Copy;
    var id := CommandId(c.pdu);
    var r := SkipFull(c.reqs[id]);
    SkipFullBuffer(c.reqs[id]);
    BufferOfOk(c.reqs[id]);
    if r.bio >= |r.bios| {
      NoRoom(r);
      FillNothing(BufferOf(r), [b]);
      assert [b][..0] == [] && c.hash + [] == c.hash;
    } else {
      CopyBuffer(r, b);
    }
  }

  lemma FilledThenFilled(cfg: Config, c: Context, data: seq<byte>, d: Context, rx: Rx)
    requires ReqsOk(c.reqs) && |c.pdu| >= RSP_PDU_LENGTH && CommandId(c.pdu) in c.reqs && 0 < |data| <= c.dataRemaining
    requires Filled(cfg, c, [data[0]], Running(d))
    requires CommandId(c.pdu) in d.reqs && Filled(cfg, d, data[1..], rx)
    ensures Filled(cfg, c, data, rx)
  {
    hide Fill, Bufs, BufferOf;
    var id := CommandId(c.pdu);
    var b := BufferOf(c.reqs[id]);
    FillSplit(b, data);
    assert c.reqs[id := d.reqs[id]][id := rx.ctx.reqs[id]] == c.reqs[id := rx.ctx.reqs[id]];
    assert c.hash + data == c.hash + [data[0]] + data[1..];
    if |data| > Room(b) {
      assert data[..Room(b)] == [data[0]] + data[1..][..Room(b) - 1];
      assert c.hash + data[..Room(b)] == c.hash + [data[0]] + data[1..][..Room(b) - 1];
    }
  }

  // Putting data bytes is filling the buffer, and running out of bios is
  // running out of room.
  lemma {:induction false} PutAllFills(cfg: Config, c: Context, data: seq<byte>)
    requires ContextOk(cfg, c) && StageOf(c) == Data && |data| <= c.dataRemaining
    requires ReqsOk(c.reqs) && CommandId(c.pdu) in c.reqs
    requires c.reqs[CommandId(c.pdu)].bio < |c.reqs[CommandId(c.pdu)].bios|
    ensures Filled(cfg, c, data, PutAll(cfg, c, data))
    decreases |data|
  {
    hide PutByte, Fill, Bufs, BufferOf;
    var id := CommandId(c.pdu);
    BufferOfOk(c.reqs[id]);
    if data == [] {
      FillNothing(BufferOf(c.reqs[id]), data);
      assert c.reqs[id := c.reqs[id]] == c.reqs;
      assert c.hash + [] == c.hash;
    } else {
      PutByteFills(cfg, c, data[0]);
      var rx := PutByte(cfg, c, data[0]);
      if rx.Failed? {
        FillNothing(BufferOf(c.reqs[id]), data);
        FillNothing(BufferOf(c.reqs[id]), [data[0]]);
        assert [data[0]][..0] == data[..0];
      } else {
        PutAllFills(cfg, rx.ctx, data[1..]);
        FilledThenFilled(cfg, c, data, rx.ctx, PutAll(cfg, c, data));
      }
    }
  }

  ghost predicate AtBoundary(cfg: Config, c: Context) {
    ContextOk(cfg, c) && c.pduRemaining == cfg.PduLen() && ReqsOk(c.reqs) && Served(c.reqs)
  }

  ghost predicate Settled(cfg: Config, rx: Rx) {
    ReqsOk(rx.ctx.reqs) && (rx.Running? ==> AtBoundary(cfg, rx.ctx))
  }

  // A settled state and its unsettled form go on alike.
  lemma SettleFirst(cfg: Config, rx: Rx, bytes: seq<byte>)
    requires ContextOk(cfg, rx.ctx) && TagOk(rx)
    ensures bytes != [] ==> Run(cfg, rx, bytes) == Run(cfg, Settle(cfg, rx), bytes)
    ensures Settle(cfg, Run(cfg, rx, bytes)) == Settle(cfg, Run(cfg, Settle(cfg, rx), bytes))
  {
    if bytes != [] && rx.Running? {
      assert Consume(cfg, rx, bytes[0]) == Consume(cfg, Settle(cfg, rx), bytes[0]);
    }
  }

  lemma HeaderFields(cfg: Config, p: WirePdu)
    requires WellFormed(p)
    ensures
      var h := FullHeader(cfg, p);
      && h[0] == TypeOf(p) && h[1] == p.head.flags && h[2] == 24 && h[3] == p.head.pdo && Le32(h, 4) == p.head.plen
      && (p.CapsuleResp? ==> h[8..24] == p.cqe && Le16(h, 20) == Le16(p.cqe, 12))
      && (p.R2T? ==> CommandId(h) == Le16(p.body, 0))
      && (p.C2HData? ==> CommandId(h) == p.id && Le32(h, 12) == p.offset && Le32(h, 16) == |p.data|)
  {
    var h := FullHeader(cfg, p);
    var plen := PutLe32(p.head.plen);
    assert h[4..8] == plen;
    assert h[4] == plen[0] && h[5] == plen[1] && h[6] == plen[2] && h[7] == plen[3];
    match p
    case CapsuleResp(_, cqe) =>
      assert h[8..24] == cqe;
      assert h[20] == h[8..24][12] && h[21] == h[8..24][13];
    case R2T(_, body) =>
      assert h[8] == body[0] && h[9] == body[1];
    case C2HData(_, id, offset, data, _) =>
      var off, len := PutLe32(offset), PutLe32(|data|);
      assert h[12] == off[0] && h[13] == off[1] && h[14] == off[2] && h[15] == off[3];
      assert h[8] == PutLe16(id)[0] && h[9] == PutLe16(id)[1];
      assert h[16] == len[0] && h[17] == len[1] && h[18] == len[2] && h[19] == len[3];
    case Other(_, _, _) =>
  }

  lemma FullHeaderParts(cfg: Config, p: WirePdu)
    requires WellFormed(p)
    ensures FullHeader(cfg, p)[..24] == Header(p)
    ensures cfg.hdrDigest ==> FullHeader(cfg, p)[24..28] == p.head.hdgst
  {
  }

  // A header arrives: it is refused, or handled by its type.
  lemma HeaderArrives(cfg: Config, c: Context, p: WirePdu)
    requires AtBoundary(cfg, c) && WellFormed(p)
    ensures
      var h := FullHeader(cfg, p);
      var d := c.(pdu := h, pduRemaining := 0, hash := if cfg.dataDigest then [] else c.hash);
      var rx := Run(cfg, Running(c), h);
      && (Refusal(cfg, p).Some? ==>
            rx.Failed? && Some(rx.error) == Refusal(cfg, p) && rx.ctx.reqs == c.reqs && rx.ctx.log == c.log)
      && (Refusal(cfg, p).None? ==>
            rx == match p
                  case CapsuleResp(_, _) => HandleComp(cfg, InitRecvCtx(cfg, d), h)
                  case C2HData(_, _, _, _, _) => HandleC2HData(d)
                  case R2T(_, _) => HandleR2t(cfg, InitRecvCtx(cfg, d), h)
                  case Other(_, _, _) => rx)
  {
    hide Run, HandlePdu;
    var h := FullHeader(cfg, p);
    assert c.pdu + h == h;
    RunPduBytes(cfg, c, h);
    HeaderHandled(cfg, c.(pdu := h, pduRemaining := 0), p);
  }

  lemma HeaderHandled(cfg: Config, e: Context, p: WirePdu)
    requires WellFormed(p) && e.pdu == FullHeader(cfg, p) && e.pduRemaining == 0 && e.ddgstRemaining == 0
    ensures ContextOk(cfg, e)
    ensures
      var h, d, rx := e.pdu, e.(hash := if cfg.dataDigest then [] else e.hash), HandlePdu(cfg, e);
      && (Refusal(cfg, p).Some? ==>
            rx.Failed? && Some(rx.error) == Refusal(cfg, p) && rx.ctx.reqs == e.reqs && rx.ctx.log == e.log)
      && (Refusal(cfg, p).None? ==>
            rx == match p
                  case CapsuleResp(_, _) => HandleComp(cfg, InitRecvCtx(cfg, d), h)
                  case C2HData(_, _, _, _, _) => HandleC2HData(d)
                  case R2T(_, _) => HandleR2t(cfg, InitRecvCtx(cfg, d), h)
                  case Other(_, _, _) => rx)
  {
    hide HandleComp, HandleC2HData, HandleR2t, Header, FullHeader, VerifyHdgst, Recomputed, HasHdgst, HasDdgst;
    HeaderFields(cfg, p);
    if cfg.hdrDigest {
      HeaderVerified(cfg, p);
    }
  }

  lemma HeaderVerified(cfg: Config, p: WirePdu)
    requires WellFormed(p) && cfg.hdrDigest
    ensures var h := FullHeader(cfg, p);
      && VerifyHdgst(cfg, h) == (if !HasHdgst(p.head.flags) then Some(Eproto)
                                 else if p.head.hdgst != cfg.crc(Header(p)) then Some(Eio) else None)
      && (VerifyHdgst(cfg, h).None? ==> Recomputed(cfg, h) == h)
  {
    hide Header;
    var h := FullHeader(cfg, p);
    HeaderFields(cfg, p);
    FullHeaderParts(cfg, p);
    if HasHdgst(p.head.flags) {
      ProperLength(cfg, h);
    }
  }

  // With the header length of the protocol the digest computed lands behind the header.
  lemma ProperLength(cfg: Config, h: seq<byte>)
    requires cfg.hdrDigest && |h| == cfg.PduLen() && h[2] == 24 && HasHdgst(h[1])
    ensures var q := Recomputed(cfg, h); q[2] == 24 && q[24..28] == cfg.crc(h[..24]) && (h[24..28] == q[24..28] ==> q == h)
  {
    if h[24..28] == cfg.crc(h[..24]) {
      VerifiedSame(cfg, h);
    }
  }

  // A C2HData PDU without data, nor a digest to follow: it has arrived whole and is
  // not finished.
  predicate LeftOpen(cfg: Config, p: WirePdu) {
    p.C2HData? && p.data == [] && !cfg.dataDigest
  }

  // The data of an accepted C2HData PDU, and the digest with them, arrive.
  lemma DataArrives(cfg: Config, c: Context, p: WirePdu)
    requires ContextOk(cfg, c) && StageOf(c) == Data && ReqsOk(c.reqs) && Served(c.reqs)
    requires p.C2HData? && c.dataRemaining == |p.data| && CommandId(c.pdu) == p.id
    requires p.id in c.reqs && c.reqs[p.id].payloadBytes > 0
    requires c.pdu[1] == p.head.flags && (cfg.dataDigest ==> c.hash == [])
    ensures BufferOf(c.reqs[p.id]).pos <= |BufferOf(c.reqs[p.id]).mem|
    ensures
      var b := BufferOf(c.reqs[p.id]);
      var rx := Settle(cfg, Run(cfg, Running(c), Payload(cfg, p)));
      var fails := |p.data| > Room(b) || (cfg.dataDigest && p.ddgst != cfg.crc(p.data));
      && Settled(cfg, rx)
      && ViewOf(rx) == View(Bufs(c.reqs)[p.id := Fill(b, p.data)],
                            if !fails && IsDataSuccess(p.head.flags) then c.log + [DataSuccess(p.id)] else c.log,
                            if fails then Some(Eio) else None)
    ensures LeftOpen(cfg, p) ==> Run(cfg, Running(c), Payload(cfg, p)) == Running(c)
    ensures !LeftOpen(cfg, p) ==>
      Settle(cfg, Run(cfg, Running(c), Payload(cfg, p))) == Run(cfg, Running(c), Payload(cfg, p))
  {
    hide Run, PutAll, Fill, BufferOf, ReqsOk, Served;
    assert c.reqs[p.id].bio < |c.reqs[p.id].bios| by { ServedAt(c.reqs, p.id); }
    PutAllFills(cfg, c, p.data);
    var tail: seq<byte> := if cfg.dataDigest then p.ddgst else [];
    var rx := PutAll(cfg, c, p.data);
    FilledViews(cfg, c, p.data, rx);
    DataThenTail(cfg, c, p.data, tail);
    RunNothing(cfg, Running(c));
    if rx.Failed? {
      RunFailed(cfg, rx, tail);
    } else if cfg.dataDigest {
      assert [] + p.data == p.data;
      DigestArrives(cfg, FinishData(cfg, rx.ctx), tail);
    } else {
      RunNothing(cfg, Settle(cfg, rx));
    }
  }

  lemma ServedAt(reqs: map<nat, Request>, id: nat)
    requires Served(reqs) && id in reqs && reqs[id].payloadBytes > 0
    ensures reqs[id].bio < |reqs[id].bios|
  {
  }

  lemma FilledViews(cfg: Config, c: Context, data: seq<byte>, rx: Rx)
    requires ReqsOk(c.reqs) && Served(c.reqs) && |c.pdu| >= RSP_PDU_LENGTH && CommandId(c.pdu) in c.reqs
    requires |data| <= c.dataRemaining && Filled(cfg, c, data, rx)
    ensures Bufs(rx.ctx.reqs) == Bufs(c.reqs)[CommandId(c.pdu) := Fill(BufferOf(c.reqs[CommandId(c.pdu)]), data)]
    ensures rx.Running? ==> Served(rx.ctx.reqs)
  {
    hide Fill, BufferOf;
    BufsUpdate(c.reqs, CommandId(c.pdu), rx.ctx.reqs[CommandId(c.pdu)]);
  }

  lemma DataThenTail(cfg: Config, c: Context, data: seq<byte>, tail: seq<byte>)
    requires ContextOk(cfg, c) && StageOf(c) == Data && c.dataRemaining == |data| && CommandId(c.pdu) in c.reqs
    ensures
      Settle(cfg, Run(cfg, Running(c), data + tail)) == Settle(cfg, Run(cfg, Settle(cfg, PutAll(cfg, c, data)), tail))
    ensures data + tail != [] ==> Run(cfg, Running(c), data + tail) == Run(cfg, Settle(cfg, PutAll(cfg, c, data)), tail)
  {
    hide PutByte, HandlePdu;
    if data != [] {
      RunConcat(cfg, Running(c), data, tail);
      RunDataBytes(cfg, c, data);
    } else {
      assert data + tail == tail;
      SettleFirst(cfg, Running(c), tail);
    }
  }

  lemma DigestArrives(cfg: Config, d: Context, tail: seq<byte>)
    requires ContextOk(cfg, d) && d.pduRemaining == 0 && d.ddgstRemaining == DIGEST_LENGTH == |tail|
    ensures var rx, e := Run(cfg, Running(d), tail), d.(recvDdgst := tail, ddgstRemaining := 0);
      rx == if tail == d.expDdgst then Running(InitRecvCtx(cfg, LogSuccess(e))) else Failed(Eio, e)
  {
    RunDdgstBytes(cfg, d, tail);
    assert Splice(d.recvDdgst, 0, tail) == tail;
  }

  lemma OneDataPdu(cfg: Config, c: Context, p: WirePdu)
    requires AtBoundary(cfg, c) && WellFormed(p) && p.C2HData?
    ensures ViewOk(ViewOf(Running(c)))
    ensures
      var v := Deliver(cfg, ViewOf(Running(c)), p);
      var rx := Run(cfg, Running(c), Encode(cfg, p));
      && Settled(cfg, Settle(cfg, rx)) && ViewOf(Settle(cfg, rx)) == v
      && (rx == Settle(cfg, rx) <==> !(LeftOpen(cfg, p) && v.error.None?))
      && ReqsOk(rx.ctx.reqs) && (ViewOf(rx) == v <==> !(LeftOpen(cfg, p) && v.error.None? && IsDataSuccess(p.head.flags)))
  {
    hide Run, Fill, FullHeader, Payload, Refusal, BufferOf;
    BufsOk(c.reqs);
    BufsAt(c.reqs);
    HeaderFields(cfg, p);
    HeaderArrives(cfg, c, p);
    RunConcat(cfg, Running(c), FullHeader(cfg, p), Payload(cfg, p));
    var rx := Run(cfg, Running(c), FullHeader(cfg, p));
    if rx.Failed? {
      RunFailed(cfg, rx, Payload(cfg, p));
    } else {
      DataArrives(cfg, rx.ctx, p);
      if LeftOpen(cfg, p) {
        OpenView(cfg, rx.ctx);
      }
    }
  }

  // What is left open misses the end of its request, if it is to end it.
  lemma OpenView(cfg: Config, c: Context)
    requires ContextOk(cfg, c) && StageOf(c) == Data && c.dataRemaining == 0 && !cfg.dataDigest && ReqsOk(c.reqs)
    ensures Settle(cfg, Running(c)) != Running(c)
    ensures Settle(cfg, Running(c)).ctx.reqs == c.reqs
    ensures ViewOf(Settle(cfg, Running(c))) == ViewOf(Running(c)) <==> !IsDataSuccess(c.pdu[1])
  {
    hide Bufs;
    if IsDataSuccess(c.pdu[1]) {
      assert |Settle(cfg, Running(c)).ctx.log| == |c.log| + 1;
    }
  }

  // One PDU has the effect of delivering it whole, except that one left open takes
  // effect with the byte after it.
  lemma OnePdu(cfg: Config, c: Context, p: WirePdu)
    requires AtBoundary(cfg, c) && WellFormed(p)
    ensures ViewOk(ViewOf(Running(c)))
    ensures
      var v := Deliver(cfg, ViewOf(Running(c)), p);
      var rx := Run(cfg, Running(c), Encode(cfg, p));
      && Settled(cfg, Settle(cfg, rx)) && ViewOf(Settle(cfg, rx)) == v
      && (rx == Settle(cfg, rx) <==> !(LeftOpen(cfg, p) && v.error.None?))
      && ReqsOk(rx.ctx.reqs) && (ViewOf(rx) == v <==> !(LeftOpen(cfg, p) && v.error.None? && IsDataSuccess(p.head.flags)))
  {
    hide Run, Fill, BufferOf, FullHeader;
    BufsOk(c.reqs);
    if p.C2HData? {
      OneDataPdu(cfg, c, p);
    } else {
      HeaderFields(cfg, p);
      HeaderArrives(cfg, c, p);
      assert FullHeader(cfg, p) + [] == FullHeader(cfg, p);
    }
  }

  lemma {:induction false} DeliverFailed(cfg: Config, v: View, ps: seq<WirePdu>)
    requires ViewOk(v) && v.error.Some? && forall p | p in ps :: WellFormed(p)
    ensures DeliverAll(cfg, v, ps) == v
    decreases |ps|
  {
    if ps != [] {
      DeliverFailed(cfg, v, ps[1..]);
    }
  }

  // While data is due, its request is one of the queue's.
  predicate TagOk(rx: Rx) {
    rx.Running? && StageOf(rx.ctx) == Data && |rx.ctx.pdu| >= RSP_PDU_LENGTH ==> CommandId(rx.ctx.pdu) in rx.ctx.reqs
  }

  lemma {:induction false} TagKept(cfg: Config, rx: Rx, bytes: seq<byte>)
    requires ContextOk(cfg, rx.ctx) && TagOk(rx)
    ensures TagOk(Run(cfg, rx, bytes))
    decreases |bytes|
  {
    hide Recomputed, VerifyHdgst, CheckDdgst;
    if bytes != [] {
      assert TagOk(Consume(cfg, rx, bytes[0]));
      TagKept(cfg, Consume(cfg, rx, bytes[0]), bytes[1..]);
    }
  }

  // The stream ends in an accepted PDU that is left open.
  ghost predicate EndsOpen(cfg: Config, v: View, ps: seq<WirePdu>)
    requires ViewOk(v) && forall p | p in ps :: WellFormed(p)
  {
    ps != [] && LeftOpen(cfg, ps[|ps| - 1]) && DeliverAll(cfg, v, ps).error.None?
  }

  // An encoded list of PDUs is handled in order, every byte landing where
  // sequential delivery to flat buffers puts it, up to the first refused PDU: at
  // once, or with the byte to come exactly if the last one is left open; and the
  // difference is to be seen exactly if that one is to end its request.
  lemma {:induction false} StreamMeaning(cfg: Config, c: Context, ps: seq<WirePdu>)
    requires AtBoundary(cfg, c) && forall p | p in ps :: WellFormed(p)
    ensures ViewOk(ViewOf(Running(c)))
    ensures
      var v := DeliverAll(cfg, ViewOf(Running(c)), ps);
      var rx := Run(cfg, Running(c), EncodeAll(cfg, ps));
      && Settled(cfg, Settle(cfg, rx)) && ViewOf(Settle(cfg, rx)) == v
      && (rx == Settle(cfg, rx) <==> !EndsOpen(cfg, ViewOf(Running(c)), ps))
      && ReqsOk(rx.ctx.reqs)
      && (ViewOf(rx) == v <==> !(EndsOpen(cfg, ViewOf(Running(c)), ps) && IsDataSuccess(ps[|ps| - 1].head.flags)))
    decreases |ps|
  {
    hide Run, Fill, BufferOf, FullHeader, Deliver, Bufs, ReqsOk, Served, Consume;
    BufsOk(c.reqs);
    BufsView(Running(c));
    if ps == [] {
      RunNothing(cfg, Running(c));
    } else if |ps| == 1 {
      OnePdu(cfg, c, ps[0]);
      assert ps[1..] == [] && Encode(cfg, ps[0]) + [] == Encode(cfg, ps[0]);
      LastPdu(cfg, c, ps);
    } else {
      OnePdu(cfg, c, ps[0]);
      var rx := Run(cfg, Running(c), Encode(cfg, ps[0]));
      var rest := EncodeAll(cfg, ps[1..]);
      RunConcat(cfg, Running(c), Encode(cfg, ps[0]), rest);
      TagKept(cfg, Running(c), Encode(cfg, ps[0]));
      SettleFirst(cfg, rx, rest);
      EncodedNotEmpty(cfg, ps[1..]);
      assert ps[1..][|ps| - 2] == ps[|ps| - 1];
      match Settle(cfg, rx)
      case Running(d) =>
        StreamMeaning(cfg, d, ps[1..]);
      case Failed(_, _) =>
        RunFailed(cfg, rx, rest);
        BufsView(rx);
        DeliverFailed(cfg, ViewOf(rx), ps[1..]);
    }
  }

  lemma BufsView(rx: Rx)
    requires ReqsOk(rx.ctx.reqs)
    ensures ViewOk(ViewOf(rx))
  {
    BufsOk(rx.ctx.reqs);
  }

  lemma LastPdu(cfg: Config, c: Context, ps: seq<WirePdu>)
    requires |ps| == 1 && WellFormed(ps[0]) && ReqsOk(c.reqs) && ViewOk(ViewOf(Running(c)))
    ensures EncodeAll(cfg, ps) == Encode(cfg, ps[0])
    ensures DeliverAll(cfg, ViewOf(Running(c)), ps) == Deliver(cfg, ViewOf(Running(c)), ps[0])
  {
    assert ps[1..] == [] && Encode(cfg, ps[0]) + [] == Encode(cfg, ps[0]);
  }

  lemma EncodedNotEmpty(cfg: Config, ps: seq<WirePdu>)
    requires ps != [] && forall p | p in ps :: WellFormed(p)
    ensures EncodeAll(cfg, ps) != []
  {
    assert |FullHeader(cfg, ps[0])| > 0;
  }

  // The digest of data is compared: an accepted PDU whose data there is room for ends in
  // an input/output error, its request not ended, if and only if the digest sent with
  // the data is not theirs.
  lemma DigestExact(cfg: Config, c: Context, p: WirePdu)
    requires AtBoundary(cfg, c) && cfg.dataDigest && WellFormed(p) && p.C2HData? && Refusal(cfg, p).None?
    requires p.id in c.reqs && c.reqs[p.id].payloadBytes > 0 && (IsDataSuccess(p.head.flags) ==> IsDataLast(p.head.flags))
    requires ReqOk(c.reqs[p.id]) && BufferOf(c.reqs[p.id]).pos + |p.data| <= |BufferOf(c.reqs[p.id]).mem|
    ensures
      var rx := Run(cfg, Running(c), FullHeader(cfg, p) + p.data + p.ddgst);
      && (p.ddgst != cfg.crc(p.data) <==> rx.Failed?)
      && (rx.Failed? ==> rx.error == Eio && rx.ctx.log == c.log)
      && (rx.Running? ==>
            rx.ctx.log == if IsDataSuccess(p.head.flags) then c.log + [DataSuccess(p.id)] else c.log)
  {
    hide Run, Fill, BufferOf, FullHeader, Refusal;
    OnePdu(cfg, c, p);
    BufsAt(c.reqs);
    assert Encode(cfg, p) == FullHeader(cfg, p) + p.data + p.ddgst;
  }

  // Where a PDU refused for its header leaves the queue: with a response or an R2T at
  // the next header; else in the data stage, with what the PDU announced still due if
  // only its flags were at odds.
  lemma AfterRefusal(cfg: Config, c: Context, p: WirePdu)
    requires AtBoundary(cfg, c) && WellFormed(p) && Run(cfg, Running(c), FullHeader(cfg, p)).Failed?
    ensures
      var d := Run(cfg, Running(c), FullHeader(cfg, p)).ctx;
      && (Refusal(cfg, p).Some? ==> StageOf(d) == Data && d.dataRemaining == c.dataRemaining)
      && (Refusal(cfg, p).None? && !p.C2HData? ==> AtBoundary(cfg, d) && d.dataRemaining == SIZE_MAX)
      && (Refusal(cfg, p).None? && p.C2HData? ==>
            StageOf(d) == Data
            && d.dataRemaining == if p.id in c.reqs && c.reqs[p.id].payloadBytes > 0 then |p.data| else c.dataRemaining)
  {
    hide Run, FullHeader, Refusal, HandlePdu, HandleComp, HandleR2t, HandleC2HData, InitRecvCtx, ReqsOk, Served;
    var h := FullHeader(cfg, p);
    assert c.pdu + h == h;
    RunPduBytes(cfg, c, h);
    var e := c.(pdu := h, pduRemaining := 0);
    if Refusal(cfg, p).Some? {
      RefusedHeader(cfg, e, p);
    } else {
      HeaderHandled(cfg, e, p);
      HeaderFields(cfg, p);
      KnownType(cfg, p);
      var d := e.(hash := if cfg.dataDigest then [] else e.hash);
      if p.C2HData? {
        DataHandled(d);
      } else {
        ResponseHandled(cfg, d, h);
      }
    }
  }

  lemma KnownType(cfg: Config, p: WirePdu)
    requires WellFormed(p) && Refusal(cfg, p).None?
    ensures !p.Other?
  {
  }

  lemma ResponseHandled(cfg: Config, c: Context, h: seq<byte>)
    requires |h| >= RSP_PDU_LENGTH
    ensures forall rx | rx == HandleComp(cfg, InitRecvCtx(cfg, c), h) || rx == HandleR2t(cfg, InitRecvCtx(cfg, c), h) ::
      rx.ctx.reqs == c.reqs && StageOf(rx.ctx) == Pdu && ContextOk(cfg, rx.ctx)
      && rx.ctx.pduRemaining == cfg.PduLen() && rx.ctx.dataRemaining == SIZE_MAX
  {
  }

  lemma DataHandled(c: Context)
    requires |c.pdu| >= RSP_PDU_LENGTH
    ensures
      var rx, id := HandleC2HData(c), CommandId(c.pdu);
      && rx.ctx.pduRemaining == c.pduRemaining && rx.ctx.ddgstRemaining == c.ddgstRemaining
      && rx.ctx.dataRemaining == if id in c.reqs && c.reqs[id].payloadBytes > 0 then Le32(c.pdu, 16) else c.dataRemaining
  {
  }

  lemma RefusedHeader(cfg: Config, e: Context, p: WirePdu)
    requires WellFormed(p) && e.pdu == FullHeader(cfg, p) && e.pduRemaining == 0 && e.ddgstRemaining == 0
    requires Refusal(cfg, p).Some?
    ensures ContextOk(cfg, e)
    ensures var d := HandlePdu(cfg, e).ctx; StageOf(d) == Data && d.dataRemaining == e.dataRemaining
  {
    hide HandleComp, HandleC2HData, HandleR2t, Header, FullHeader, VerifyHdgst, Recomputed, HasHdgst, HasDdgst;
    HeaderFields(cfg, p);
    if cfg.hdrDigest {
      HeaderVerified(cfg, p);
    }
  }

  // A request whose data all arrived before, and whose success is told by an empty
  // PDU at the end of what has come in, is not ended yet.
  lemma EmptySuccessWaits(cfg: Config, c: Context, id: nat, pdo: byte, offset: nat)
    requires AtBoundary(cfg, c) && !cfg.dataDigest && id < 0x1_0000 && offset < 0x1_0000_0000
    requires id in c.reqs && c.reqs[id].payloadBytes > 0
    ensures
      var p := DataPdu(cfg, id, true, true, pdo, offset, []);
      var rx := Run(cfg, Running(c), Encode(cfg, p));
      rx.Running? && rx.ctx.log == c.log && Settle(cfg, rx).ctx.log == c.log + [DataSuccess(id)]
  {
    hide Run, Fill, FullHeader, BufferOf, DataPdu, Refusal;
    var p := DataPdu(cfg, id, true, true, pdo, offset, []);
    DataPduIs(cfg, id, true, true, pdo, offset, []);
    HeaderFields(cfg, p);
    HeaderArrives(cfg, c, p);
    assert Encode(cfg, p) == FullHeader(cfg, p);
  }
}
