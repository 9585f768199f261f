// The send half of the NVMe/TCP transport: requests are queued as PDUs, and the
// PDUs are pushed through a socket that may take any part of what it is offered.
module TcpSend {
  import opened Arith
  import opened Options
  import opened Wire

  const CMD_PDU_LENGTH: nat := 72
  const DATA_PDU_LENGTH: nat := 24
  const PLEN_LIMIT: nat := 0x1_0000_0000

  const TYPE_CMD: byte := 0x04
  const TYPE_H2C_DATA: byte := 0x06

  const EAGAIN: int := 11

  datatype SendState = SendCmdPdu | SendH2CPdu | SendData | SendDdgst

  datatype SendError = Eproto | Enoent

  // A bio is the list of its segments.
  type Bio = seq<seq<byte>>

  datatype Config = Config(hdrDigest: bool, dataDigest: bool, inlineSize: nat, crc: seq<byte> -> Digest)
  {
    function HdgstLen(): nat { if hdrDigest then DIGEST_LENGTH else 0 }
    function DdgstLen(): nat { if dataDigest then DIGEST_LENGTH else 0 }
  }

  // bios is curr_bio and the bios after it, iter what is left of curr_bio; pdu
  // is the header, hdgst the room behind it.
  datatype Request = Request(
    write: bool,
    dataLen: nat,
    pduLen: nat,
    pduSent: nat,
    offset: nat,
    dataSent: nat,
    state: SendState,
    pdu: seq<byte>,
    hdgst: Digest,
    ddgst: Digest,
    bios: seq<Bio>,
    iter: seq<seq<byte>>)

  function FlatBios(bios: seq<Bio>): seq<byte> {
    if bios == [] then [] else Concat(bios[0]) + FlatBios(bios[1..])
  }

  predicate SegsOk(segs: seq<seq<byte>>) {
    forall s | s in segs :: s != []
  }

  predicate BiosOk(bios: seq<Bio>) {
    forall b | b in bios :: b != [] && SegsOk(b)
  }

  function HasInlineData(cfg: Config, r: Request): bool {
    r.write && r.dataLen != 0 && r.dataLen <= cfg.inlineSize
  }

  // ---- The iterator ----

  function InitIter(r: Request): Request
    requires r.bios != []
  {
    r.(iter := r.bios[0])
  }

  function IovAdvance(iter: seq<seq<byte>>, n: nat): seq<seq<byte>>
    requires n <= |Concat(iter)|
    decreases |iter|
  {
    if iter == [] then []
    else if n < |iter[0]| then [iter[0][n..]] + iter[1..]
    else IovAdvance(iter[1..], n - |iter[0]|)
  }

  lemma {:induction false} IovAdvanceDrops(iter: seq<seq<byte>>, n: nat)
    requires n <= |Concat(iter)| && SegsOk(iter)
    ensures Concat(IovAdvance(iter, n)) == Concat(iter)[n..] && SegsOk(IovAdvance(iter, n))
    decreases |iter|
  {
    if iter != [] {
      assert forall s | s in iter[1..] :: s in iter;
      if n < |iter[0]| {
        assert ([iter[0][n..]] + iter[1..])[1..] == iter[1..];
        assert Concat(iter)[n..] == iter[0][n..] + Concat(iter[1..]);
      } else {
        IovAdvanceDrops(iter[1..], n - |iter[0]|);
        assert Concat(iter)[n..] == Concat(iter[1..])[n - |iter[0]|..];
      }
    }
  }

  // nvme_tcp_advance_req: len bytes of the current segment are gone.
  function AdvanceReq(r: Request, len: nat): Request
    requires len <= |Concat(r.iter)|
    requires |Concat(r.iter)| == len && r.dataSent + len < r.dataLen ==> |r.bios| > 1
  {
    var s := r.(dataSent := r.dataSent + len, pduSent := r.pduSent + len, iter := IovAdvance(r.iter, len));
    if |Concat(r.iter)| == len && s.dataSent < s.dataLen then InitIter(s.(bios := s.bios[1..])) else s
  }

  // The iterator stands at position dataSent of the request's data.
  ghost predicate AtPosition(r: Request, data: seq<byte>) {
    && r.dataSent <= |data| == r.dataLen
    && r.bios != [] && BiosOk(r.bios) && SegsOk(r.iter)
    && Concat(r.iter) + FlatBios(r.bios[1..]) == data[r.dataSent..]
    && (r.dataSent < r.dataLen ==> r.iter != [])
  }

  lemma AdvanceReqMoves(r: Request, data: seq<byte>, len: nat)
    requires AtPosition(r, data) && len <= |Concat(r.iter)|
    ensures |Concat(r.iter)| == len && r.dataSent + len < r.dataLen ==> |r.bios| > 1
    ensures r.dataSent + len <= |data| && Concat(r.iter)[..len] == data[r.dataSent..r.dataSent + len]
    ensures AtPosition(AdvanceReq(r, len), data)
  {
    hide IovAdvance, FlatBios, SegsOk, BiosOk;
    var here, later := Concat(r.iter), FlatBios(r.bios[1..]);
    HereAndLater(data, r.dataSent, here, later, len);
    IovAdvanceDrops(r.iter, len);
    if |here| == len && r.dataSent + len < r.dataLen {
      NextBio(r, data[r.dataSent + len..]);
      assert r.bios[1..][1..] == r.bios[2..];
    }
  }

  lemma HereAndLater(data: seq<byte>, sent: nat, here: seq<byte>, later: seq<byte>, len: nat)
    requires sent <= |data| && here + later == data[sent..] && len <= |here|
    ensures sent + len <= |data| && here[..len] == data[sent..sent + len]
    ensures here[len..] + later == data[sent + len..] && (|here| == len ==> later == data[sent + len..])
  {
    var left := data[sent..];
    assert here[..len] == left[..len] == data[sent..sent + len];
    assert here[len..] + later == left[len..] == data[sent + len..];
    if |here| == len {
      assert here[len..] + later == later;
    }
  }

  lemma NextBio(r: Request, left: seq<byte>)
    requires r.bios != [] && BiosOk(r.bios) && FlatBios(r.bios[1..]) == left != []
    ensures |r.bios| > 1 && BiosOk(r.bios[1..]) && SegsOk(r.bios[1]) && r.bios[1] != []
    ensures Concat(r.bios[1]) + FlatBios(r.bios[2..]) == left
  {
    assert r.bios[1..] != [];
    assert r.bios[1] in r.bios;
    assert r.bios[1..][1..] == r.bios[2..];
  }

  // ---- The PDU a queued request stands for ----

  predicate HeaderOk(r: Request) {
    |r.pdu| >= 8 && r.pduSent <= r.dataSent && r.dataSent - r.pduSent + r.pduLen <= r.dataLen
  }

  function Start(r: Request): nat
    requires r.pduSent <= r.dataSent
  {
    r.dataSent - r.pduSent
  }

  // Header, header digest, data and data digest, the digests of exactly these
  // bytes.
  function PduBytes(cfg: Config, data: seq<byte>, r: Request): seq<byte>
    requires HeaderOk(r) && |data| == r.dataLen
  {
    var body := data[Start(r)..Start(r) + r.pduLen];
    HeadBytes(cfg, r) + body + if cfg.dataDigest && r.pduLen > 0 then cfg.crc(body) else []
  }

  function HeadBytes(cfg: Config, r: Request): (h: seq<byte>)
    ensures |h| == |r.pdu| + cfg.HdgstLen()
  {
    r.pdu + if cfg.hdrDigest then cfg.crc(r.pdu) else []
  }

  // How much of it the socket has taken.
  function Progress(cfg: Config, r: Request): nat {
    match r.state
    case SendCmdPdu => r.offset
    case SendH2CPdu => r.offset
    case SendData => |r.pdu| + cfg.HdgstLen() + r.pduSent
    case SendDdgst => |r.pdu| + cfg.HdgstLen() + r.pduLen + r.offset
  }

  // The common header announces the PDU's length.
  ghost predicate Framed(p: seq<byte>) {
    |p| >= 8 && Le32(p, 4) == |p|
  }

  // A request that was queued and is not finished.
  ghost predicate PendingOk(cfg: Config, data: seq<byte>, r: Request) {
    && HeaderOk(r) && |data| == r.dataLen
    && Framed(PduBytes(cfg, data, r))
    && (r.pduLen > 0 ==> r.write && BiosOk(r.bios))
    && (r.state.SendCmdPdu? ==> r.dataSent == 0 && r.pduLen == (if HasInlineData(cfg, r) then r.dataLen else 0))
    && (r.state.SendH2CPdu? ==> r.pduLen > 0 && |r.pdu| == DATA_PDU_LENGTH
                                && Le32(r.pdu, 12) == r.dataSent && Le32(r.pdu, 16) == r.pduLen)
    && (if r.state.SendCmdPdu? || r.state.SendH2CPdu?
        then r.pduSent == 0 && r.offset < |r.pdu| + cfg.HdgstLen() && Rested(r, data)
             && (r.offset > 0 && cfg.hdrDigest ==> r.hdgst == cfg.crc(r.pdu))
        else if r.state.SendData? then AtPosition(r, data) && r.pduSent < r.pduLen
        else cfg.dataDigest && r.pduSent == r.pduLen > 0 && r.offset == 0 && AtPosition(r, data)
             && r.ddgst == cfg.crc(data[Start(r)..Start(r) + r.pduLen]))
  }

  // Between PDUs: before the first data byte the iterator is not set up yet.
  ghost predicate Rested(r: Request, data: seq<byte>) {
    && |data| == r.dataLen && r.dataSent <= r.dataLen && BiosOk(r.bios)
    && (r.dataSent == 0 ==> FlatBios(r.bios) == data)
    && (r.dataSent > 0 ==> AtPosition(r, data))
  }

  function WholePdu(cfg: Config, header: seq<byte>, body: seq<byte>): seq<byte> {
    header + (if cfg.hdrDigest then cfg.crc(header) else [])
    + body + (if cfg.dataDigest && body != [] then cfg.crc(body) else [])
  }

  function CmdHeader(cfg: Config, pduLen: nat, cmd: seq<byte>): (h: seq<byte>)
    requires |cmd| == 64 && pduLen + CMD_PDU_LENGTH + 2 * DIGEST_LENGTH < PLEN_LIMIT
    ensures |h| == CMD_PDU_LENGTH
    ensures h[0] == TYPE_CMD && h[8..] == cmd
    ensures Le32(h, 4) == CMD_PDU_LENGTH + cfg.HdgstLen() + pduLen + if pduLen > 0 then cfg.DdgstLen() else 0
  {
    var ddgst := if cfg.dataDigest && pduLen > 0 then 2 else 0;
    var flags := (if cfg.hdrDigest then 1 else 0) + ddgst;
    var pdo := if pduLen > 0 then CMD_PDU_LENGTH + cfg.HdgstLen() else 0;
    var plen := PutLe32(CMD_PDU_LENGTH + cfg.HdgstLen() + pduLen + if pduLen > 0 then cfg.DdgstLen() else 0);
    [TYPE_CMD, flags, CMD_PDU_LENGTH as byte, pdo as byte] + plen + cmd
  }

  function DataHeader(cfg: Config, tag: nat, ttag: nat, offset: nat, len: nat): (h: seq<byte>)
    requires tag < 0x1_0000 && ttag < 0x1_0000 && offset < PLEN_LIMIT && len + 2 * DATA_PDU_LENGTH < PLEN_LIMIT
    ensures |h| == DATA_PDU_LENGTH
    ensures h[0] == TYPE_H2C_DATA && Le16(h, 8) == tag && Le16(h, 10) == ttag
    ensures Le32(h, 12) == offset && Le32(h, 16) == len
    ensures Le32(h, 4) == DATA_PDU_LENGTH + cfg.HdgstLen() + len + cfg.DdgstLen()
  {
    var flags := 4 + (if cfg.hdrDigest then 1 else 0) + (if cfg.dataDigest then 2 else 0);
    var pdo := DATA_PDU_LENGTH + cfg.HdgstLen();
    [TYPE_H2C_DATA, flags, DATA_PDU_LENGTH as byte, pdo as byte]
      + PutLe32(DATA_PDU_LENGTH + cfg.HdgstLen() + len + cfg.DdgstLen())
      + PutLe16(tag) + PutLe16(ttag) + PutLe32(offset) + PutLe32(len) + [0, 0, 0, 0]
  }

  // ---- What a peer reads off a PDU ----

  // Its type; where the header ends, by the header length; whether digests follow, by
  // the flags; where the data begin, by the data offset of the common header.
  predicate Reads(cfg: Config, p: seq<byte>, kind: byte, hlen: nat, body: seq<byte>) {
    && |p| >= 8 && p[0] == kind && p[2] as nat == hlen && hlen + cfg.HdgstLen() <= |p|
    && Le32(p, 4) == |p|
    && (p[1] % 2 == 1 <==> cfg.hdrDigest)
    && (cfg.hdrDigest ==> p[hlen..hlen + DIGEST_LENGTH] == cfg.crc(p[..hlen]))
    && (body != [] ==>
          && (p[1] / 2 % 2 == 1 <==> cfg.dataDigest)
          && p[3] as nat + |body| + cfg.DdgstLen() == |p| && p[p[3]..p[3] as nat + |body|] == body
          && (cfg.dataDigest ==> p[p[3] as nat + |body|..] == cfg.crc(body)))
  }

  lemma WholeReads(cfg: Config, header: seq<byte>, body: seq<byte>)
    requires 8 <= |header| < 0x100 - DIGEST_LENGTH && header[2] as nat == |header|
    requires header[1] % 2 == 1 <==> cfg.hdrDigest
    requires Le32(header, 4) == |header| + cfg.HdgstLen() + |body| + if body != [] then cfg.DdgstLen() else 0
    requires body != [] ==> (header[1] / 2 % 2 == 1 <==> cfg.dataDigest) && header[3] as nat == |header| + cfg.HdgstLen()
    ensures Reads(cfg, WholePdu(cfg, header, body), header[0], |header|, body)
  {
    var p := WholePdu(cfg, header, body);
    assert p[..|header|] == header;
    assert p[4] == header[4] && p[5] == header[5] && p[6] == header[6] && p[7] == header[7];
  }

  // A command PDU with or without inline data.
  lemma CmdReads(cfg: Config, cmd: seq<byte>, body: seq<byte>)
    requires |cmd| == 64 && |body| + CMD_PDU_LENGTH + 2 * DIGEST_LENGTH < PLEN_LIMIT
    ensures Reads(cfg, WholePdu(cfg, CmdHeader(cfg, |body|, cmd), body), TYPE_CMD, CMD_PDU_LENGTH, body)
  {
    var plen := PutLe32(CMD_PDU_LENGTH + cfg.HdgstLen() + |body| + if |body| > 0 then cfg.DdgstLen() else 0);
    WholeReads(cfg, CmdHeader(cfg, |body|, cmd), body);
  }

  // An H2CData PDU, the last for its R2T by its flag.
  lemma DataReads(cfg: Config, tag: nat, ttag: nat, offset: nat, body: seq<byte>)
    requires tag < 0x1_0000 && ttag < 0x1_0000 && offset < PLEN_LIMIT && |body| + 2 * DATA_PDU_LENGTH < PLEN_LIMIT && body != []
    ensures
      var h := DataHeader(cfg, tag, ttag, offset, |body|);
      Reads(cfg, WholePdu(cfg, h, body), TYPE_H2C_DATA, DATA_PDU_LENGTH, body) && h[1] / 4 % 2 == 1
  {
    WholeReads(cfg, DataHeader(cfg, tag, ttag, offset, |body|), body);
  }

  // ---- Transfers of one request ----

  datatype Transfer = Transfer(offset: nat, len: nat)

  // The transfers start at 0 and follow one another without gap up to end.
  ghost predicate Chained(ts: seq<Transfer>, end: nat)
    decreases |ts|
  {
    if ts == [] then end == 0
    else var t := ts[|ts| - 1]; t.offset + t.len == end && Chained(ts[..|ts| - 1], t.offset)
  }

  ghost function Payloads(data: seq<byte>, ts: seq<Transfer>): seq<byte>
    decreases |ts|
  {
    if ts == [] then []
    else
      var t := ts[|ts| - 1];
      Payloads(data, ts[..|ts| - 1]) + if t.offset + t.len <= |data| then data[t.offset..t.offset + t.len] else []
  }

  // Chained transfers carry a prefix of the data, each byte once.
  lemma {:induction false} TransfersCarryPrefix(data: seq<byte>, ts: seq<Transfer>, end: nat)
    requires Chained(ts, end) && end <= |data|
    ensures Payloads(data, ts) == data[..end]
    decreases |ts|
  {
    if ts != [] {
      var t := ts[|ts| - 1];
      TransfersCarryPrefix(data, ts[..|ts| - 1], t.offset);
      assert data[..end] == data[..t.offset] + data[t.offset..end];
    }
  }

  // ---- Cutting a stream by the announced lengths ----

  datatype Cut = Cut(frames: seq<seq<byte>>, rest: seq<byte>)

  function Frames(s: seq<byte>): Cut
    decreases |s|
  {
    if |s| < 8 || Le32(s, 4) < 8 || |s| < Le32(s, 4) then Cut([], s)
    else
      var n := Le32(s, 4);
      var c := Frames(s[n..]);
      Cut([s[..n]] + c.frames, c.rest)
  }

  lemma FramesFirst(p: seq<byte>, s: seq<byte>)
    requires Framed(p)
    ensures Frames(p + s) == Cut([p] + Frames(s).frames, Frames(s).rest)
  {
    assert Le32(p + s, 4) == Le32(p, 4);
    assert (p + s)[..|p|] == p && (p + s)[|p|..] == s;
  }

  lemma FramesNone(next: seq<byte>, k: nat)
    requires k <= |next| && (k > 0 ==> Framed(next) && k < |next|)
    ensures Frames(next[..k]) == Cut([], next[..k])
  {
    if k >= 8 {
      assert Le32(next[..k], 4) == Le32(next, 4);
    }
  }

  // A peer that cuts the stream by plen sees exactly the whole PDUs in it.
  lemma {:induction false} FramesOfPdus(ps: seq<seq<byte>>, next: seq<byte>, k: nat)
    requires (forall p | p in ps :: Framed(p)) && k <= |next| && (k > 0 ==> Framed(next) && k < |next|)
    ensures Frames(Concat(ps) + next[..k]) == Cut(ps, next[..k])
    decreases |ps|
  {
    hide Frames, Framed;
    if ps == [] {
      FramesNone(next, k);
      assert Concat(ps) + next[..k] == next[..k];
    } else {
      var later := Concat(ps[1..]) + next[..k];
      assert ps[0] in ps;
      assert Concat(ps) + next[..k] == ps[0] + later;
      FramesFirst(ps[0], later);
      FramesOfPdus(ps[1..], next, k);
      assert [ps[0]] + ps[1..] == ps;
    }
  }

  // ---- The queue ----

  // The whole state of a queue as a value: request and sendList as in the
  // driver, and for the specification the data each request was queued with, its
  // transfers, the PDUs queued and finished so far and the bytes the socket took.
  datatype Queue = Queue(
    request: Option<nat>,
    sendList: seq<nat>,
    reqs: map<nat, Request>,
    sndHash: seq<byte>,
    data: map<nat, seq<byte>>,
    transfers: map<nat, seq<Transfer>>,
    queued: seq<seq<byte>>,
    done: seq<seq<byte>>,
    wire: seq<byte>)
  {
    predicate Pending(t: nat) {
      request == Some(t) || t in sendList
    }

    ghost function Pdu(cfg: Config, t: nat): seq<byte> {
      if t in reqs && t in data && HeaderOk(reqs[t]) && |data[t]| == reqs[t].dataLen
      then PduBytes(cfg, data[t], reqs[t]) else []
    }

    ghost function Pdus(cfg: Config, tags: seq<nat>): (ps: seq<seq<byte>>)
      ensures |ps| == |tags|
    {
      seq(|tags|, i requires 0 <= i < |tags| => Pdu(cfg, tags[i]))
    }

    // The end of the last transfer queued for a request.
    ghost function TransferEnd(t: nat): nat
      requires t in reqs
    {
      var r := reqs[t];
      if Pending(t) && r.pduSent <= r.dataSent then Start(r) + r.pduLen else r.dataSent
    }

    ghost predicate ReqOk(cfg: Config, t: nat)
      requires t in reqs && t in data && t in transfers
    {
      && (if Pending(t) then PendingOk(cfg, data[t], reqs[t]) else Rested(reqs[t], data[t]))
      && Chained(transfers[t], TransferEnd(t))
      && (t in sendList ==> reqs[t].offset == 0 && (reqs[t].state.SendCmdPdu? || reqs[t].state.SendH2CPdu?))
    }

    ghost predicate TagsOk() {
      && (forall i, j | 0 <= i < j < |sendList| :: sendList[i] != sendList[j])
      && (request.Some? ==> request.value !in sendList)
      && (forall t | Pending(t) :: t in reqs)
      && data.Keys == reqs.Keys == transfers.Keys
    }

    ghost predicate HashOk(cfg: Config)
      requires TagsOk()
    {
      request.Some? && cfg.dataDigest ==>
        var r := reqs[request.value];
        r.state.SendData? && r.pduSent <= r.dataSent <= |data[request.value]| ==>
          sndHash == data[request.value][Start(r)..r.dataSent]
    }

    ghost function Current(cfg: Config): seq<seq<byte>> {
      if request.None? then [] else [Pdu(cfg, request.value)]
    }

    ghost function Partial(cfg: Config): seq<byte>
      requires request.Some? ==> request.value in reqs
    {
      if request.None? then []
      else
        var p := Pdu(cfg, request.value);
        var k := Progress(cfg, reqs[request.value]);
        if k <= |p| then p[..k] else p
    }

    // No byte lost, repeated or interleaved: PDUs leave in the order queued, and
    // the wire holds the finished ones and the taken part of the current one.
    ghost predicate StreamOk(cfg: Config)
      requires TagsOk()
    {
      && queued == done + Current(cfg) + Pdus(cfg, sendList)
      && wire == Concat(done) + Partial(cfg)
      && (forall p | p in done :: Framed(p))
    }

    ghost predicate Valid(cfg: Config) {
      && TagsOk()
      && (forall t | t in reqs :: ReqOk(cfg, t))
      && HashOk(cfg)
      && StreamOk(cfg)
    }

    lemma StreamMeaning(cfg: Config)
      requires Valid(cfg)
      ensures wire <= Concat(queued)
      ensures Frames(wire).frames == done <= queued
      ensures request.None? && sendList == [] ==> wire == Concat(queued)
    {
      hide Queue.ReqOk, Queue.HashOk, Queue.Pdu, Frames, Framed, Progress;
      ConcatAppend(done, Current(cfg) + Pdus(cfg, sendList));
      assert queued == done + (Current(cfg) + Pdus(cfg, sendList));
      if request.None? {
        assert Partial(cfg) == [][..0];
        FramesOfPdus(done, [], 0);
        assert wire == Concat(done) + [][..0];
        if sendList == [] {
          assert Current(cfg) + Pdus(cfg, sendList) == [];
        }
      } else {
        CurrentPartial(cfg, this);
        var p := Pdu(cfg, request.value);
        var k := Progress(cfg, reqs[request.value]);
        FramesOfPdus(done, p, k);
        ConcatAppend([p], Pdus(cfg, sendList));
        ConcatOne(p);
      }
    }
  }

  lemma CurrentPartial(cfg: Config, q: Queue)
    requires q.Valid(cfg) && q.request.Some?
    ensures
      var p := q.Pdu(cfg, q.request.value);
      var k := Progress(cfg, q.reqs[q.request.value]);
      Framed(p) && k < |p| && q.Partial(cfg) == p[..k]
  {
    hide AtPosition, FlatBios, Concat, Le32;
    CurrentOk(cfg, q);
  }

  lemma PdusSame(cfg: Config, q: Queue, s: Queue, tags: seq<nat>)
    requires forall t | t in tags :: q.Pdu(cfg, t) == s.Pdu(cfg, t)
    ensures q.Pdus(cfg, tags) == s.Pdus(cfg, tags)
  {
  }

  lemma PendingFrame(cfg: Config, data: seq<byte>, r: Request)
    requires PendingOk(cfg, data, r)
    ensures HeaderOk(r) && |data| == r.dataLen && Framed(PduBytes(cfg, data, r))
  {
  }

  lemma FreshPdu(cfg: Config, data: seq<byte>, r: Request)
    requires PendingOk(cfg, data, r) && (r.state.SendCmdPdu? || r.state.SendH2CPdu?)
    ensures r.pduSent == 0
  {
  }

  lemma ConcatOne(p: seq<byte>)
    ensures Concat([p]) == p
  {
  }

  lemma SamePdu(cfg: Config, data: seq<byte>, o: Request, r: Request)
    requires PendingOk(cfg, data, o) && PendingOk(cfg, data, r)
    requires Start(r) == Start(o) && r.pduLen == o.pduLen && r.pdu == o.pdu && r.dataLen == o.dataLen
    ensures HeaderOk(o) && HeaderOk(r) && |data| == r.dataLen && PduBytes(cfg, data, r) == PduBytes(cfg, data, o)
  {
  }

  ghost function Moved(q: Queue, r: Request, hash: seq<byte>, wire: seq<byte>): Queue
    requires q.request.Some?
  {
    q.(reqs := q.reqs[q.request.value := r], sndHash := hash, wire := wire)
  }

  // The current request stands further on within its PDU.
  ghost predicate Further(cfg: Config, q: Queue, r: Request) {
    && q.request.Some? && q.request.value in q.reqs && q.request.value in q.data
    && var o := q.reqs[q.request.value];
      && PendingOk(cfg, q.data[q.request.value], r) && o.pduSent <= o.dataSent && Start(r) == Start(o)
      && r.pduLen == o.pduLen && r.pdu == o.pdu && r.dataLen == o.dataLen
      && Progress(cfg, o) <= Progress(cfg, r) <= |q.Pdu(cfg, q.request.value)|
  }

  // The current request moved on within its PDU and the socket took the bytes.
  lemma Advanced(cfg: Config, q: Queue, r: Request, hash: seq<byte>, wire: seq<byte>)
    requires q.Valid(cfg) && Further(cfg, q, r)
    requires
      var t := q.request.value;
      && wire == q.wire + q.Pdu(cfg, t)[Progress(cfg, q.reqs[t])..Progress(cfg, r)]
      && (cfg.dataDigest && r.state.SendData? ==> hash == q.data[t][Start(r)..r.dataSent])
    ensures Moved(q, r, hash, wire).Valid(cfg)
  {
    hide PendingOk, Progress, Queue.Pdu, Queue.Pdus, Queue.ReqOk, Queue.StreamOk;
    AdvancedReqs(cfg, q, r, hash, wire);
    AdvancedStream(cfg, q, r, hash, wire);
  }

  lemma AdvancedStream(cfg: Config, q: Queue, r: Request, hash: seq<byte>, wire: seq<byte>)
    requires q.Valid(cfg) && Further(cfg, q, r)
    requires var t := q.request.value; wire == q.wire + q.Pdu(cfg, t)[Progress(cfg, q.reqs[t])..Progress(cfg, r)]
    ensures Moved(q, r, hash, wire).TagsOk() && Moved(q, r, hash, wire).StreamOk(cfg)
  {
    hide PendingOk, Rested, Chained, Concat, PduBytes, Progress, Framed, Queue.Pdus, Queue.ReqOk, Queue.HashOk;
    var t := q.request.value;
    var o := q.reqs[t];
    CurrentOk(cfg, q);
    SamePdu(cfg, q.data[t], o, r);
    PdusSame(cfg, q, Moved(q, r, hash, wire), q.sendList);
    var p := q.Pdu(cfg, t);
    assert p[..Progress(cfg, o)] + p[Progress(cfg, o)..Progress(cfg, r)] == p[..Progress(cfg, r)];
  }

  lemma CurrentOk(cfg: Config, q: Queue)
    requires q.Valid(cfg) && q.request.Some?
    ensures
      var t := q.request.value;
      && t in q.reqs && t in q.data && PendingOk(cfg, q.data[t], q.reqs[t])
      && HeaderOk(q.reqs[t]) && |q.data[t]| == q.reqs[t].dataLen
      && q.Pdu(cfg, t) == PduBytes(cfg, q.data[t], q.reqs[t])
      && (cfg.dataDigest && q.reqs[t].state.SendData? ==> q.sndHash == q.data[t][Start(q.reqs[t])..q.reqs[t].dataSent])
  {
    hide PduBytes;
    assert q.ReqOk(cfg, q.request.value);
    PendingFrame(cfg, q.data[q.request.value], q.reqs[q.request.value]);
  }

  lemma AdvancedReqs(cfg: Config, q: Queue, r: Request, hash: seq<byte>, wire: seq<byte>)
    requires q.Valid(cfg) && q.request.Some?
    requires
      var t := q.request.value;
      PendingOk(cfg, q.data[t], r) && Start(r) == Start(q.reqs[t]) && r.pduLen == q.reqs[t].pduLen
    ensures forall u | u in Moved(q, r, hash, wire).reqs :: Moved(q, r, hash, wire).ReqOk(cfg, u)
  {
    hide PendingOk, Rested, Chained;
    var s := Moved(q, r, hash, wire);
    forall u | u in s.reqs
      ensures s.ReqOk(cfg, u)
    {
      assert q.ReqOk(cfg, u);
    }
  }

  lemma EndedIs(cfg: Config, q: Queue, s: Queue, r: Request)
    requires q.request.Some? && q.request.value in q.reqs && r == q.reqs[q.request.value]
    requires s == q.(request := None, wire := s.wire, done := q.done + [q.Pdu(cfg, q.request.value)])
    ensures s == Ended(cfg, q, r, s.wire)
  {
    assert q.reqs[q.request.value := r] == q.reqs;
  }

  ghost function Ended(cfg: Config, q: Queue, r: Request, wire: seq<byte>): Queue
    requires q.request.Some?
  {
    var t := q.request.value;
    q.(request := None, reqs := q.reqs[t := r], wire := wire, done := q.done + [q.Pdu(cfg, t)])
  }

  // The socket took the rest of the current PDU.
  lemma Finished(cfg: Config, q: Queue, r: Request, wire: seq<byte>)
    requires q.Valid(cfg) && q.request.Some?
    requires
      var t := q.request.value;
      var o := q.reqs[t];
      && Rested(r, q.data[t]) && o.pduSent <= o.dataSent && r.dataSent == Start(o) + o.pduLen
      && Progress(cfg, o) <= |q.Pdu(cfg, t)|
      && wire == q.wire + q.Pdu(cfg, t)[Progress(cfg, o)..]
    ensures Ended(cfg, q, r, wire).Valid(cfg)
  {
    hide PendingOk, Rested, Chained, Concat, PduBytes, Progress, Framed, Queue.Pdus, Queue.ReqOk;
    var t := q.request.value;
    var p := q.Pdu(cfg, t);
    var s := Ended(cfg, q, r, wire);
    CurrentOk(cfg, q);
    PendingFrame(cfg, q.data[t], q.reqs[t]);
    EndedReqs(cfg, q, r, wire);
    PdusSame(cfg, q, s, q.sendList);
    ConcatAppend(q.done, [p]);
    ConcatOne(p);
    var k := Progress(cfg, q.reqs[t]);
    assert p[..k] + p[k..] == p;
    assert s.done + s.Pdus(cfg, s.sendList) == q.done + [p] + q.Pdus(cfg, q.sendList);
  }

  lemma EndedReqs(cfg: Config, q: Queue, r: Request, wire: seq<byte>)
    requires q.Valid(cfg) && q.request.Some?
    requires
      var o := q.reqs[q.request.value];
      && Rested(r, q.data[q.request.value]) && o.pduSent <= o.dataSent && r.dataSent == Start(o) + o.pduLen
    ensures forall u | u in Ended(cfg, q, r, wire).reqs :: Ended(cfg, q, r, wire).ReqOk(cfg, u)
  {
    hide PendingOk, Rested, Chained;
    var s := Ended(cfg, q, r, wire);
    assert q.ReqOk(cfg, q.request.value);
    forall u | u in s.reqs
      ensures s.ReqOk(cfg, u)
    {
      assert q.ReqOk(cfg, u);
    }
  }

  lemma PdusAppend(cfg: Config, q: Queue, a: seq<nat>, b: seq<nat>)
    ensures q.Pdus(cfg, a + b) == q.Pdus(cfg, a) + q.Pdus(cfg, b)
  {
  }

  lemma PdusOne(cfg: Config, q: Queue, t: nat)
    ensures q.Pdus(cfg, [t]) == [q.Pdu(cfg, t)]
  {
  }

  function WithEntry(cfg: Config, q: Queue, t: nat, r: Request, data: seq<byte>, ts: seq<Transfer>): Queue
    requires HeaderOk(r) && |data| == r.dataLen
  {
    q.(sendList := q.sendList + [t], reqs := q.reqs[t := r], data := q.data[t := data],
       transfers := q.transfers[t := ts], queued := q.queued + [PduBytes(cfg, data, r)])
  }

  lemma EnqueuedTags(cfg: Config, q: Queue, t: nat, r: Request, data: seq<byte>, ts: seq<Transfer>)
    requires q.TagsOk() && !q.Pending(t) && HeaderOk(r) && |data| == r.dataLen
    ensures
      var s := WithEntry(cfg, q, t, r, data, ts);
      && s.TagsOk()
      && (forall u :: s.Pending(u) <==> q.Pending(u) || u == t)
      && (forall u :: u in s.sendList <==> u in q.sendList || u == t)
  {
  }

  lemma EnqueuedReqs(cfg: Config, q: Queue, t: nat, r: Request, data: seq<byte>, ts: seq<Transfer>)
    requires q.Valid(cfg) && !q.Pending(t) && HeaderOk(r) && |data| == r.dataLen
    requires PendingOk(cfg, data, r) && r.offset == 0 && r.pduSent == 0 && (r.state.SendCmdPdu? || r.state.SendH2CPdu?)
    requires Chained(ts, r.dataSent + r.pduLen)
    ensures
      var s := WithEntry(cfg, q, t, r, data, ts);
      s.TagsOk() && forall u | u in s.reqs :: s.ReqOk(cfg, u)
  {
    hide PendingOk, Rested, Chained, PduBytes, Queue.StreamOk, Queue.HashOk, Queue.TagsOk, Queue.Pending;
    var s := WithEntry(cfg, q, t, r, data, ts);
    EnqueuedTags(cfg, q, t, r, data, ts);
    forall u | u in s.reqs
      ensures s.ReqOk(cfg, u)
    {
      if u != t {
        assert q.ReqOk(cfg, u);
      }
    }
  }

  // A request that is not pending joins the list with a new PDU.
  lemma Enqueued(cfg: Config, q: Queue, t: nat, r: Request, data: seq<byte>, ts: seq<Transfer>)
    requires q.Valid(cfg) && !q.Pending(t)
    requires PendingOk(cfg, data, r) && r.offset == 0 && (r.state.SendCmdPdu? || r.state.SendH2CPdu?)
    requires Chained(ts, r.dataSent + r.pduLen)
    ensures HeaderOk(r) && |data| == r.dataLen && WithEntry(cfg, q, t, r, data, ts).Valid(cfg)
  {
    hide PendingOk, Rested, Chained, Concat, PduBytes, Framed, Queue.Pdus, Queue.ReqOk;
    PendingFrame(cfg, data, r);
    FreshPdu(cfg, data, r);
    EnqueuedReqs(cfg, q, t, r, data, ts);
    var s := WithEntry(cfg, q, t, r, data, ts);
    PdusSame(cfg, q, s, q.sendList);
    PdusAppend(cfg, s, q.sendList, [t]);
    PdusOne(cfg, s, t);
  }

  lemma FetchedTags(q: Queue)
    requires q.TagsOk() && q.request.None? && q.sendList != []
    ensures
      var s := q.(request := Some(q.sendList[0]), sendList := q.sendList[1..]);
      s.TagsOk() && forall u :: s.Pending(u) <==> q.Pending(u)
  {
    assert q.sendList == [q.sendList[0]] + q.sendList[1..];
    assert forall u :: u in q.sendList <==> u == q.sendList[0] || u in q.sendList[1..];
  }

  lemma FetchedReqs(cfg: Config, q: Queue)
    requires q.Valid(cfg) && q.request.None? && q.sendList != []
    ensures
      var s := q.(request := Some(q.sendList[0]), sendList := q.sendList[1..]);
      s.TagsOk() && forall u | u in s.reqs :: s.ReqOk(cfg, u)
  {
    hide PendingOk, Rested, Chained, Queue.StreamOk, Queue.HashOk, Queue.TagsOk, Queue.Pending;
    var s := q.(request := Some(q.sendList[0]), sendList := q.sendList[1..]);
    FetchedTags(q);
    forall u | u in s.reqs
      ensures s.ReqOk(cfg, u)
    {
      assert q.ReqOk(cfg, u);
    }
  }

  lemma HeadUnsent(cfg: Config, q: Queue)
    requires q.Valid(cfg) && q.sendList != []
    ensures Progress(cfg, q.reqs[q.sendList[0]]) == 0 && !q.reqs[q.sendList[0]].state.SendData?
  {
    assert q.Pending(q.sendList[0]) && q.ReqOk(cfg, q.sendList[0]);
  }

  // The head of the list becomes the current request.
  lemma Fetched(cfg: Config, q: Queue)
    requires q.Valid(cfg) && q.request.None? && q.sendList != []
    ensures q.(request := Some(q.sendList[0]), sendList := q.sendList[1..]).Valid(cfg)
  {
    hide PendingOk, Rested, Chained, Concat, PduBytes, Framed, Queue.Pdus, Queue.ReqOk;
    FetchedReqs(cfg, q);
    var t := q.sendList[0];
    var s := q.(request := Some(t), sendList := q.sendList[1..]);
    PdusSame(cfg, q, s, s.sendList);
    assert [t] + q.sendList[1..] == q.sendList;
    PdusAppend(cfg, q, [t], q.sendList[1..]);
    PdusOne(cfg, q, t);
    HeadUnsent(cfg, q);
  }

  // ---- What the single sends do to a request ----

  function HeadRoom(cfg: Config, r: Request): (h: seq<byte>)
    ensures |h| == |r.pdu| + cfg.HdgstLen()
  {
    r.pdu + if cfg.hdrDigest then r.hdgst else []
  }

  // The digest is put behind the header before the first byte goes.
  function WithHdgst(cfg: Config, r: Request): Request {
    if cfg.hdrDigest && r.offset == 0 then r.(hdgst := cfg.crc(r.pdu)) else r
  }

  lemma HeadReady(cfg: Config, data: seq<byte>, r: Request)
    requires PendingOk(cfg, data, r) && (r.state.SendCmdPdu? || r.state.SendH2CPdu?)
    ensures r.offset < |HeadRoom(cfg, r)|
    ensures PendingOk(cfg, data, WithHdgst(cfg, r)) && HeadRoom(cfg, WithHdgst(cfg, r)) == HeadBytes(cfg, r)
  {
  }

  lemma HdgstOnly(cfg: Config, r: Request)
    ensures WithHdgst(cfg, r) == r.(hdgst := WithHdgst(cfg, r).hdgst)
  {
  }

  lemma RestedSame(o: Request, r: Request, data: seq<byte>)
    requires Rested(o, data) && r.dataLen == o.dataLen && r.dataSent == o.dataSent && r.bios == o.bios && r.iter == o.iter
    ensures Rested(r, data)
  {
  }

  lemma HeadMoved(cfg: Config, data: seq<byte>, o: Request, n: nat)
    requires PendingOk(cfg, data, o) && (o.state.SendCmdPdu? || o.state.SendH2CPdu?)
    requires 0 < n <= |HeadRoom(cfg, o)| - o.offset
    ensures
      var r := WithHdgst(cfg, o);
      && Rested(r, data)
      && (o.offset + n < |HeadRoom(cfg, o)| ==> PendingOk(cfg, data, r.(offset := o.offset + n)))
      && (o.state.SendCmdPdu? ==> o.dataSent == 0 && (o.pduLen > 0 <==> HasInlineData(cfg, o)))
      && (o.state.SendH2CPdu? ==> o.pduLen > 0)
  {
    hide AtPosition, FlatBios, Concat, Le32, Framed;
    var r := WithHdgst(cfg, o);
    RestedSame(o, r, data);
    if o.offset + n < |HeadRoom(cfg, o)| {
      var s := r.(offset := o.offset + n);
      RestedSame(o, s, data);
      assert PduBytes(cfg, data, s) == PduBytes(cfg, data, o);
    }
  }

  lemma HeadOfPdu(cfg: Config, data: seq<byte>, r: Request)
    requires HeaderOk(r) && |data| == r.dataLen
    ensures |HeadBytes(cfg, r)| <= |PduBytes(cfg, data, r)| && PduBytes(cfg, data, r)[0..|HeadBytes(cfg, r)|] == HeadBytes(cfg, r)
    ensures r.pduLen == 0 ==> |PduBytes(cfg, data, r)| == |HeadBytes(cfg, r)|
  {
  }

  lemma HeadBytesSlice(cfg: Config, data: seq<byte>, o: Request, n: nat)
    requires PendingOk(cfg, data, o) && (o.state.SendCmdPdu? || o.state.SendH2CPdu?)
    requires 0 < n <= |HeadRoom(cfg, o)| - o.offset
    ensures HeaderOk(o) && |data| == o.dataLen && o.offset + n <= |PduBytes(cfg, data, o)|
    ensures HeadRoom(cfg, WithHdgst(cfg, o))[o.offset..][..n] == PduBytes(cfg, data, o)[o.offset..o.offset + n]
    ensures o.pduLen == 0 ==> |PduBytes(cfg, data, o)| == |HeadRoom(cfg, o)|
  {
    hide PendingOk, HeadRoom, WithHdgst, HeadBytes, PduBytes;
    HeadReady(cfg, data, o);
    PendingFrame(cfg, data, o);
    HeadOfPdu(cfg, data, o);
    var h := HeadBytes(cfg, o);
    SliceOfSlice(PduBytes(cfg, data, o), 0, |h|, o.offset, o.offset + n);
    SliceOfSlice(h, o.offset, |h|, 0, n);
  }

  // Header complete: on to the data.
  function ToData(r: Request): Request
    requires r.dataSent == 0 ==> r.bios != []
  {
    var s := r.(state := SendData);
    if s.dataSent == 0 then InitIter(s) else s
  }

  lemma ToDataOk(cfg: Config, data: seq<byte>, r: Request)
    requires PendingOk(cfg, data, r) && (r.state.SendCmdPdu? || r.state.SendH2CPdu?) && r.pduLen > 0
    ensures r.bios != [] && PendingOk(cfg, data, ToData(r))
    ensures r.state.SendCmdPdu? ==> r.dataSent == 0
  {
    assert data != [];
    if r.dataSent == 0 {
      assert r.bios != [];
      assert r.bios[0] in r.bios;
      assert data[0..] == data;
    }
  }

  // nvme_tcp_req_cur_length.
  function CurLength(r: Request): nat
    requires r.iter != [] && r.pduSent <= r.pduLen
  {
    Min(|r.iter[0]|, r.pduLen - r.pduSent)
  }

  // nvme_tcp_pdu_last_send.
  predicate LastSend(r: Request, len: nat) {
    (if r.write then r.pduLen - r.pduSent else 0) <= len
  }

  lemma DataReady(cfg: Config, data: seq<byte>, r: Request)
    requires PendingOk(cfg, data, r) && r.state.SendData?
    ensures r.write && r.iter != [] && 0 < CurLength(r) <= |Concat(r.iter)| && CurLength(r) <= |r.iter[0]|
    ensures r.iter[0][..CurLength(r)] == data[r.dataSent..][..CurLength(r)]
  {
    assert r.iter[0] in r.iter;
    var left := data[r.dataSent..];
    assert Concat(r.iter) == r.iter[0] + Concat(r.iter[1..]);
    assert left == r.iter[0] + (Concat(r.iter[1..]) + FlatBios(r.bios[1..]));
    assert left[..CurLength(r)] == r.iter[0][..CurLength(r)];
  }

  lemma DataSlice(cfg: Config, data: seq<byte>, r: Request, n: nat)
    requires HeaderOk(r) && |data| == r.dataLen && r.pduSent + n <= r.pduLen
    ensures
      var k := |HeadBytes(cfg, r)| + r.pduSent;
      && k + n <= |PduBytes(cfg, data, r)|
      && PduBytes(cfg, data, r)[k..k + n] == data[r.dataSent..r.dataSent + n]
      && (!cfg.dataDigest && r.pduSent + n == r.pduLen ==> PduBytes(cfg, data, r)[k..] == data[r.dataSent..r.dataSent + n])
  {
    var body := data[Start(r)..Start(r) + r.pduLen];
    SliceOfSlice(data, Start(r), Start(r) + r.pduLen, r.pduSent, r.pduSent + n);
    var k := |HeadBytes(cfg, r)|;
    var p := PduBytes(cfg, data, r);
    assert p[k..k + r.pduLen] == body;
    SliceOfSlice(p, k, k + r.pduLen, r.pduSent, r.pduSent + n);
  }

  lemma DdgstReady(cfg: Config, data: seq<byte>, r: Request)
    requires PendingOk(cfg, data, r) && r.state.SendDdgst?
    ensures cfg.dataDigest && r.offset == 0 && Rested(r, data) && r.dataSent == Start(r) + r.pduLen
    ensures Progress(cfg, r) <= |PduBytes(cfg, data, r)| && PduBytes(cfg, data, r)[Progress(cfg, r)..] == r.ddgst
  {
  }

  // n bytes of the current segment were sent, not the last of the PDU, or the
  // last with a digest still to follow.
  lemma DataMoved(cfg: Config, data: seq<byte>, r: Request, n: nat)
    requires PendingOk(cfg, data, r) && r.state.SendData? && 0 < n <= CurLength(r)
    ensures n <= |Concat(r.iter)| && (|Concat(r.iter)| == n && r.dataSent + n < r.dataLen ==> |r.bios| > 1)
    ensures
      var s := AdvanceReq(r, n);
      && s == r.(dataSent := r.dataSent + n, pduSent := r.pduSent + n, bios := s.bios, iter := s.iter)
      && Start(s) == Start(r) && AtPosition(s, data) && Rested(s, data)
      && (s.pduSent < s.pduLen ==> PendingOk(cfg, data, s))
      && (s.pduSent == s.pduLen && cfg.dataDigest ==>
            PendingOk(cfg, data, s.(ddgst := cfg.crc(data[Start(s)..s.dataSent]), state := SendDdgst, offset := 0)))
  {
    hide AtPosition, IovAdvance, Framed;
    DataReady(cfg, data, r);
    AtPositionOf(cfg, data, r);
    AdvanceReqMoves(r, data, n);
    var s := AdvanceReq(r, n);
    MovedOk(cfg, data, r, s);
  }

  lemma AtPositionOf(cfg: Config, data: seq<byte>, r: Request)
    requires PendingOk(cfg, data, r) && r.state.SendData?
    ensures AtPosition(r, data) && r.pduSent < r.pduLen && HeaderOk(r)
  {
  }

  lemma MovedOk(cfg: Config, data: seq<byte>, r: Request, s: Request)
    requires PendingOk(cfg, data, r) && r.state.SendData? && AtPosition(s, data)
    requires r.dataSent < s.dataSent && Start(r) + r.pduLen >= s.dataSent
    requires s == r.(dataSent := s.dataSent, pduSent := r.pduSent + s.dataSent - r.dataSent, bios := s.bios, iter := s.iter)
    ensures Rested(s, data) && Start(s) == Start(r)
    ensures s.pduSent < s.pduLen ==> PendingOk(cfg, data, s)
    ensures s.pduSent == s.pduLen && cfg.dataDigest ==>
      PendingOk(cfg, data, s.(ddgst := cfg.crc(data[Start(s)..s.dataSent]), state := SendDdgst, offset := 0))
  {
    hide Framed, Concat, FlatBios;
    assert BiosOk(s.bios);
    assert HeaderOk(s) && PduBytes(cfg, data, s) == PduBytes(cfg, data, r);
    var e := s.(ddgst := cfg.crc(data[Start(s)..s.dataSent]), state := SendDdgst, offset := 0);
    assert PduBytes(cfg, data, e) == PduBytes(cfg, data, r);
  }

  // The socket took n bytes of the header: the rest is to follow, or the data
  // is, or the PDU is complete.
  lemma HeadSent(cfg: Config, q: Queue, n: nat, wire: seq<byte>)
    requires q.Valid(cfg) && q.request.Some?
    requires
      var o := q.reqs[q.request.value];
      && (o.state.SendCmdPdu? || o.state.SendH2CPdu?) && 0 < n <= |HeadRoom(cfg, o)| - o.offset
      && wire == q.wire + HeadRoom(cfg, WithHdgst(cfg, o))[o.offset..][..n]
    ensures
      var o := q.reqs[q.request.value];
      var r := WithHdgst(cfg, o);
      && (o.state.SendCmdPdu? ==> (o.pduLen > 0 <==> HasInlineData(cfg, o)))
      && (o.state.SendCmdPdu? ==> o.dataSent == 0)
      && (o.state.SendH2CPdu? ==> o.pduLen > 0)
      && (o.offset + n < |HeadRoom(cfg, o)| ==> Moved(q, r.(offset := o.offset + n), q.sndHash, wire).Valid(cfg))
      && (o.offset + n == |HeadRoom(cfg, o)| && o.pduLen == 0 ==> Ended(cfg, q, r, wire).Valid(cfg))
      && (o.offset + n == |HeadRoom(cfg, o)| && o.pduLen > 0 ==>
            (o.dataSent == 0 ==> o.bios != []) && Moved(q, ToData(r), if cfg.dataDigest then [] else q.sndHash, wire).Valid(cfg))
  {
    hide PendingOk, Rested, AtPosition, Chained, Concat, FlatBios, PduBytes, Framed, HasInlineData;
    hide Queue.Valid, Queue.Pdu, Queue.TagsOk, WithHdgst, HeadRoom, HeadBytes;
    CurrentOk(cfg, q);
    var t := q.request.value;
    var o := q.reqs[t];
    HdgstOnly(cfg, o);
    var r := WithHdgst(cfg, o);
    HeadReady(cfg, q.data[t], o);
    HeadMoved(cfg, q.data[t], o, n);
    HeadBytesSlice(cfg, q.data[t], o, n);
    if o.offset + n < |HeadRoom(cfg, o)| {
      Advanced(cfg, q, r.(offset := o.offset + n), q.sndHash, wire);
    } else if o.pduLen == 0 {
      Finished(cfg, q, r, wire);
    } else {
      ToDataOk(cfg, q.data[t], r);
      Advanced(cfg, q, ToData(r), if cfg.dataDigest then [] else q.sndHash, wire);
    }
  }

  // The socket took n bytes of the current segment.
  lemma SegmentSent(cfg: Config, q: Queue, n: nat, wire: seq<byte>)
    requires q.Valid(cfg) && q.request.Some?
    requires
      var r := q.reqs[q.request.value];
      && r.state.SendData? && r.iter != [] && r.pduSent <= r.pduLen && 0 < n <= CurLength(r)
      && wire == q.wire + r.iter[0][..CurLength(r)][..n]
    ensures
      var r := q.reqs[q.request.value];
      && n <= |Concat(r.iter)| && (|Concat(r.iter)| == n && r.dataSent + n < r.dataLen ==> |r.bios| > 1)
      && AdvanceReq(r, n).state.SendData?
    ensures
      var r := q.reqs[q.request.value];
      var s := AdvanceReq(r, n);
      var hash := if cfg.dataDigest then q.sndHash + r.iter[0][..n] else q.sndHash;
      if LastSend(r, CurLength(r)) && n == CurLength(r) then
        if cfg.dataDigest then Moved(q, s.(ddgst := cfg.crc(hash), state := SendDdgst, offset := 0), hash, wire).Valid(cfg)
        else Ended(cfg, q, s, wire).Valid(cfg)
      else
        && Moved(q, s, hash, wire).Valid(cfg) && s.state.SendData?
        && s.pduLen == r.pduLen && r.pduSent < s.pduSent < s.pduLen
  {
    hide PendingOk, Rested, AtPosition, Chained, Concat, FlatBios, PduBytes, Framed, AdvanceReq;
    hide HeadBytes, Moved, Ended, Queue.Valid, Queue.Pdu, Queue.TagsOk;
    CurrentOk(cfg, q);
    var t := q.request.value;
    var r := q.reqs[t];
    var len := CurLength(r);
    DataReady(cfg, q.data[t], r);
    DataMoved(cfg, q.data[t], r, n);
    DataSlice(cfg, q.data[t], r, n);
    SentSlice(q.data[t], r, r.iter[0], len, n);
    var s := AdvanceReq(r, n);
    var hash := if cfg.dataDigest then q.sndHash + r.iter[0][..n] else q.sndHash;
    if LastSend(r, len) && n == len {
      if cfg.dataDigest {
        Advanced(cfg, q, s.(ddgst := cfg.crc(hash), state := SendDdgst, offset := 0), hash, wire);
      } else {
        Finished(cfg, q, s, wire);
      }
    } else {
      Advanced(cfg, q, s, hash, wire);
    }
  }

  // ---- The digest in parts ----

  // What nvme_tcp_try_send_ddgst offers, mem being the memory from the digest on: the
  // pointer it adds the offset to is one to 32-bit words.
  function Offered(mem: seq<byte>, offset: nat): (b: seq<byte>)
    requires offset < DIGEST_LENGTH && |mem| >= 4 * DIGEST_LENGTH
    ensures |b| == DIGEST_LENGTH - offset
  {
    mem[4 * offset..4 * offset + (DIGEST_LENGTH - offset)]
  }

  // What goes out in calls that take that much each.
  function DdgstSent(mem: seq<byte>, offset: nat, takes: seq<nat>): seq<byte>
    requires |mem| >= 4 * DIGEST_LENGTH
    decreases |takes|
  {
    if takes == [] || offset >= DIGEST_LENGTH then []
    else
      var n := Min(takes[0], DIGEST_LENGTH - offset);
      Offered(mem, offset)[..n] + DdgstSent(mem, offset + n, takes[1..])
  }

  // It is the digest, whatever it is and whatever lies behind it, if and only if the
  // first call takes it whole.
  lemma DdgstExact(takes: seq<nat>)
    requires forall n | n in takes :: n > 0
    ensures (forall mem | |mem| == 4 * DIGEST_LENGTH :: DdgstSent(mem, 0, takes) == mem[..DIGEST_LENGTH]) <==>
            takes != [] && takes[0] >= DIGEST_LENGTH
  {
    hide DdgstSent;
    if takes != [] && takes[0] >= DIGEST_LENGTH {
      forall mem | |mem| == 4 * DIGEST_LENGTH
        ensures DdgstSent(mem, 0, takes) == mem[..DIGEST_LENGTH]
      {
        DdgstWhole(mem, takes);
      }
    } else {
      var mem := DdgstBroken(takes);
    }
  }

  lemma DdgstWhole(mem: seq<byte>, takes: seq<nat>)
    requires |mem| == 4 * DIGEST_LENGTH && takes != [] && takes[0] >= DIGEST_LENGTH
    ensures DdgstSent(mem, 0, takes) == mem[..DIGEST_LENGTH]
  {
    assert DdgstSent(mem, DIGEST_LENGTH, takes[1..]) == [];
  }

  lemma DdgstBroken(takes: seq<nat>) returns (mem: seq<byte>)
    requires (forall n | n in takes :: n > 0) && (takes == [] || takes[0] < DIGEST_LENGTH)
    ensures |mem| == 4 * DIGEST_LENGTH && DdgstSent(mem, 0, takes) != mem[..DIGEST_LENGTH]
  {
    mem := seq(4 * DIGEST_LENGTH, i requires 0 <= i < 16 => i as byte);
    if takes != [] {
      var n := takes[0];
      assert n in takes;
      var rest := DdgstSent(mem, n, takes[1..]);
      assert DdgstSent(mem, 0, takes) == Offered(mem, 0)[..n] + rest;
      if |takes| == 1 {
        assert rest == [];
      } else {
        assert takes[1] in takes && takes[1..][0] == takes[1];
        assert rest[0] == Offered(mem, n)[0] == mem[4 * n];
        assert (Offered(mem, 0)[..n] + rest)[n] == rest[0] != mem[n];
      }
    }
  }

  // A request whose digest is due, n bytes of which go out.
  lemma DdgstTaken(cfg: Config, q: Queue, behind: seq<byte>, n: nat)
    requires q.Valid(cfg) && q.request.Some? && q.request.value in q.reqs && q.reqs[q.request.value].state.SendDdgst?
    requires |behind| >= 3 * DIGEST_LENGTH && n <= DIGEST_LENGTH
    ensures
      var r := q.reqs[q.request.value];
      && r.offset == 0 && Offered(r.ddgst + behind, 0) == r.ddgst
      && Ended(cfg, q, r, q.wire + r.ddgst).Valid(cfg)
      && q.wire + r.ddgst[..n] <= Concat(q.queued)
  {
    hide PendingOk, Rested, AtPosition, Concat, PduBytes, Queue.Valid, Queue.Pdu;
    var t := q.request.value;
    var r := q.reqs[t];
    CurrentOk(cfg, q);
    DdgstReady(cfg, q.data[t], r);
    Finished(cfg, q, r, q.wire + r.ddgst);
    Ended(cfg, q, r, q.wire + r.ddgst).StreamMeaning(cfg);
    assert q.wire + r.ddgst == q.wire + r.ddgst[..n] + r.ddgst[n..];
  }

  // ---- Single socket calls ----

  // Whether the socket can take n bytes of what a request offers.
  predicate CanTake(cfg: Config, r: Request, n: nat) {
    match r.state
    case SendH2CPdu => r.offset + n <= |r.pdu| + cfg.HdgstLen() && (r.dataSent == 0 ==> r.bios != [])
    case SendData =>
      n > 0 ==>
        && r.iter != [] && r.pduSent <= r.pduLen && n <= CurLength(r) && n <= |Concat(r.iter)|
        && (|Concat(r.iter)| == n && r.dataSent + n < r.dataLen ==> |r.bios| > 1)
    case SendDdgst => r.offset + n <= DIGEST_LENGTH
    case SendCmdPdu => false
  }

  // What becomes of a request that answers an R2T when it takes them, None at the end
  // of the PDU; hash is of the data sent before.
  function OneCall(cfg: Config, r: Request, n: nat, hash: seq<byte>): Option<Request>
    requires CanTake(cfg, r, n)
  {
    match r.state
    case SendH2CPdu =>
      var h := WithHdgst(cfg, r);
      Some(if h.offset + n == |h.pdu| + cfg.HdgstLen() then ToData(h) else h.(offset := h.offset + n))
    case SendData =>
      if n == 0 then Some(r) else
      var s := AdvanceReq(r, n);
      if !LastSend(r, CurLength(r)) || n < CurLength(r) then Some(s)
      else if !cfg.dataDigest then None
      else Some(s.(ddgst := cfg.crc(hash + r.iter[0][..n]), state := SendDdgst, offset := 0))
    case SendDdgst =>
      if r.offset + n == DIGEST_LENGTH then None else Some(r.(offset := r.offset + n))
  }

  lemma HeadCall(cfg: Config, data: seq<byte>, r: Request, n: nat, hash: seq<byte>)
    requires PendingOk(cfg, data, r) && r.state.SendH2CPdu? && r.offset + n <= |r.pdu| + cfg.HdgstLen()
    ensures r.bios != [] && CanTake(cfg, r, n)
    ensures
      var h := WithHdgst(cfg, r);
      OneCall(cfg, r, n, hash) ==
        Some(if r.offset + n == |r.pdu| + cfg.HdgstLen() then ToData(h) else h.(offset := r.offset + n))
  {
    hide PduBytes, Framed, AtPosition, HeadBytes;
    ToDataOk(cfg, data, r);
  }

  lemma DataCall(cfg: Config, data: seq<byte>, r: Request, n: nat, hash: seq<byte>)
    requires PendingOk(cfg, data, r) && r.state.SendData? && r.iter != [] && r.pduSent <= r.pduLen && n <= CurLength(r)
    ensures CanTake(cfg, r, n)
    ensures n == 0 ==> OneCall(cfg, r, n, hash) == Some(r)
    ensures n > 0 ==>
      var s := AdvanceReq(r, n);
      OneCall(cfg, r, n, hash) ==
        if !(LastSend(r, CurLength(r)) && n == CurLength(r)) then Some(s)
        else if !cfg.dataDigest then None
        else Some(s.(ddgst := cfg.crc(hash + r.iter[0][..n]), state := SendDdgst, offset := 0))
  {
    hide PendingOk, AdvanceReq, Concat;
    DataReady(cfg, data, r);
    if n > 0 {
      DataMoved(cfg, data, r, n);
    }
  }

  // The request as an accepted R2T leaves it.
  function Answer(cfg: Config, r: Request, tag: nat, ttag: nat, len: nat): Request
    requires tag < 0x1_0000 && ttag < 0x1_0000 && r.dataSent + len <= r.dataLen
    requires r.dataLen + 2 * DATA_PDU_LENGTH < PLEN_LIMIT
  {
    r.(pduLen := len, pduSent := 0, pdu := DataHeader(cfg, tag, ttag, r.dataSent, len), state := SendH2CPdu, offset := 0)
  }

  // ---- Giving up a PDU ----

  // The queue without its current request.
  ghost function GivenUp(cfg: Config, q: Queue): Queue
    requires q.request.Some?
  {
    var t := q.request.value;
    q.(request := None, reqs := q.reqs - {t}, data := q.data - {t}, transfers := q.transfers - {t},
       queued := q.done + q.Pdus(cfg, q.sendList))
  }

  lemma GivenUpReqs(cfg: Config, q: Queue)
    requires q.Valid(cfg) && q.request.Some?
    ensures var s := GivenUp(cfg, q); s.TagsOk() && forall u | u in s.reqs :: s.ReqOk(cfg, u)
  {
    hide PendingOk, Rested, Chained, Queue.StreamOk, Queue.HashOk;
    var s := GivenUp(cfg, q);
    forall u | u in s.reqs
      ensures s.ReqOk(cfg, u)
    {
      assert q.ReqOk(cfg, u);
    }
  }

  // What is left is a proper queue if and only if no byte of the PDU had been taken.
  lemma GiveUpExact(cfg: Config, q: Queue)
    requires q.Valid(cfg) && q.request.Some? && q.request.value in q.reqs
    ensures GivenUp(cfg, q).Valid(cfg) <==> Progress(cfg, q.reqs[q.request.value]) == 0
    ensures q.wire == Concat(q.done) <==> Progress(cfg, q.reqs[q.request.value]) == 0
  {
    hide PendingOk, Rested, Chained, Concat, PduBytes, Progress, Framed, Queue.Pdus, Queue.ReqOk;
    var s := GivenUp(cfg, q);
    GivenUpReqs(cfg, q);
    CurrentPartial(cfg, q);
    GivenUpPdus(cfg, q);
  }

  lemma GivenUpPdus(cfg: Config, q: Queue)
    requires q.TagsOk() && q.request.Some?
    ensures GivenUp(cfg, q).Pdus(cfg, q.sendList) == q.Pdus(cfg, q.sendList)
  {
    var s := GivenUp(cfg, q);
    forall i | 0 <= i < |q.sendList|
      ensures s.Pdu(cfg, q.sendList[i]) == q.Pdu(cfg, q.sendList[i])
    {
      assert q.sendList[i] in q.sendList;
    }
  }

  lemma {:induction false} FramesWhole(s: seq<byte>)
    ensures Concat(Frames(s).frames) + Frames(s).rest == s
    decreases |s|
  {
    if |s| >= 8 && Le32(s, 4) >= 8 && |s| >= Le32(s, 4) {
      var n := Le32(s, 4);
      FramesWhole(s[n..]);
      assert s == s[..n] + s[n..];
      assert ([s[..n]] + Frames(s[n..]).frames)[1..] == Frames(s[n..]).frames;
    }
  }

  // Whatever PDUs follow, a peer sees them and the finished ones before them if and
  // only if no byte of the one given up had been taken; else they begin inside it.
  lemma GivenUpStream(cfg: Config, q: Queue, ps: seq<seq<byte>>)
    requires q.Valid(cfg) && q.request.Some? && q.request.value in q.reqs && forall p | p in ps :: Framed(p)
    ensures Frames(q.wire + Concat(ps)) == Cut(q.done + ps, []) <==> Progress(cfg, q.reqs[q.request.value]) == 0
  {
    hide Frames, Framed, Progress, PendingOk, Concat, Queue.ReqOk, Queue.HashOk, Queue.Pdu;
    CurrentPartial(cfg, q);
    ConcatAppend(q.done, ps);
    var k := Progress(cfg, q.reqs[q.request.value]);
    if k == 0 {
      FramesOfPdus(q.done + ps, [], 0);
      assert q.wire + Concat(ps) == Concat(q.done + ps) + [][..0];
    } else {
      FramesWhole(q.wire + Concat(ps));
    }
  }

  // ---- The driver's code ----

  class SendQueue {
    const cfg: Config
    var request: Option<nat>
    var sendList: seq<nat>
    var reqs: map<nat, Request>
    var sndHash: seq<byte>
    // What the socket will answer, call by call, and what it answered last.
    var script: seq<int>
    ghost var answer: int
    ghost var data: map<nat, seq<byte>>
    ghost var transfers: map<nat, seq<Transfer>>
    ghost var queued: seq<seq<byte>>
    ghost var done: seq<seq<byte>>
    ghost var wire: seq<byte>

    ghost function Abs(): Queue
      reads this
    {
      Queue(request, sendList, reqs, sndHash, data, transfers, queued, done, wire)
    }

    ghost predicate Valid()
      reads this
    {
      Abs().Valid(cfg)
    }

    constructor (cfg: Config, script: seq<int>)
      ensures Valid() && this.cfg == cfg && queued == [] && wire == [] && request.None? && reqs == map[]
    {
      this.cfg := cfg;
      this.script := script;
      request, sendList, reqs, sndHash := None, [], map[], [];
      data, transfers, queued, done, wire, answer := map[], map[], [], [], [], 0;
    }

    // The socket's next answer: to take at least a byte of what it is offered.
    predicate Willing()
      reads this`script
    {
      script != [] && script[0] > 0
    }

    // kernel_sendpage: takes a prefix, nothing, or fails.
    method Sendpage(b: seq<byte>) returns (ret: int)
      modifies this`script, this`wire, this`answer
      ensures old(Willing()) && b != [] ==> ret > 0
      ensures ret <= |b| && (ret > 0 ==> old(script) != [] && (ret == old(script)[0] || ret == |b|))
      ensures (ret > 0 ==> wire == old(wire) + b[..ret]) && (ret <= 0 ==> wire == old(wire))
      ensures answer == ret
    {
      if script == [] {
        answer := -EAGAIN;
        return -EAGAIN;
      }
      ret := if script[0] <= |b| then script[0] else |b|;
      answer := ret;
      script := script[1..];
      if ret > 0 {
        wire := wire + b[..ret];
      }
    }

    // What a send returns after the socket's last answer: that, unless bytes were taken.
    ghost predicate Reports(ret: int)
      reads this`answer
    {
      if answer > 0 then ret > 0 || ret == -EAGAIN else ret == answer
    }

    // nvme_tcp_setup_cmd_pdu and nvme_tcp_queue_request.
    method QueueRq(tag: nat, write: bool, cmd: seq<byte>, bios: seq<Bio>)
      requires Valid() && !Abs().Pending(tag)
      requires |cmd| == 64 && BiosOk(bios) && |FlatBios(bios)| + CMD_PDU_LENGTH + 2 * DIGEST_LENGTH < PLEN_LIMIT
      modifies this
      ensures Valid() && sendList == old(sendList) + [tag] && request == old(request) && wire == old(wire)
      ensures data == old(data)[tag := FlatBios(bios)]
      ensures
        var payload := if write && |data[tag]| <= cfg.inlineSize then data[tag] else [];
        && queued == old(queued) + [WholePdu(cfg, CmdHeader(cfg, |payload|, cmd), payload)]
        && transfers == old(transfers)[tag := if payload != [] then [Transfer(0, |payload|)] else []]
    {
      hide PendingOk, AtPosition, Concat, PduBytes, Framed, HeadBytes, WholePdu, CmdHeader, DataHeader, Queue.Valid;
      ghost var q := Abs();
      var dataLen := |FlatBios(bios)|;
      var pduLen := if write && dataLen <= cfg.inlineSize then dataLen else 0;
      var iter := if pduLen == 0 && bios != [] then bios[0] else [];
      var r := Request(write, dataLen, pduLen, 0, 0, 0, SendCmdPdu, CmdHeader(cfg, pduLen, cmd),
                       [0, 0, 0, 0], [0, 0, 0, 0], bios, iter);
      ghost var d := FlatBios(bios);
      ghost var ts := if pduLen > 0 then [Transfer(0, pduLen)] else [];
      CmdPduOk(cfg, d, r, cmd);
      assert d[..|d|] == d && d[..0] == [];
      Enqueued(cfg, q, tag, r, d, ts);
      reqs, data, transfers := reqs[tag := r], data[tag := d], transfers[tag := ts];
      queued := queued + [PduBytes(cfg, d, r)];
      sendList := sendList + [tag];
    }

    // nvme_tcp_handle_r2t. With a single R2T outstanding the request is not pending.
    method HandleR2t(tag: nat, ttag: nat, r2tOffset: nat, r2tLength: nat) returns (error: Option<SendError>)
      requires Valid() && tag < 0x1_0000 && ttag < 0x1_0000
      requires tag in reqs ==> !Abs().Pending(tag) && reqs[tag].dataLen + 2 * DATA_PDU_LENGTH < PLEN_LIMIT
      modifies this
      ensures wire == old(wire) && data == old(data) && request == old(request) && reqs.Keys == old(reqs.Keys)
      ensures error == Some(Enoent) <==> tag !in old(reqs)
      ensures error == Some(Eproto) <==>
        (tag in old(reqs)
         && (old(reqs)[tag].dataSent + r2tLength > old(reqs)[tag].dataLen || r2tOffset < old(reqs)[tag].dataSent))
      ensures error.Some? ==> Valid() && queued == old(queued) && sendList == old(sendList) && transfers == old(transfers)
      ensures error.None? ==> tag in old(transfers) && tag in data && |data[tag]| == old(reqs)[tag].dataLen
      ensures error.None? ==>
        var r := old(reqs)[tag];
        && reqs == old(reqs)[tag := Answer(cfg, r, tag, ttag, r2tLength)]
        && transfers == old(transfers)[tag := old(transfers)[tag] + [Transfer(r.dataSent, r2tLength)]]
        && sendList == old(sendList) + [tag]
        && queued == old(queued) + [WholePdu(cfg, DataHeader(cfg, tag, ttag, r.dataSent, r2tLength),
                                             data[tag][r.dataSent..r.dataSent + r2tLength])]
      // The queue stays proper if data of a write are asked for, at least a byte.
      ensures error.None? && r2tLength > 0 && old(reqs)[tag].write ==> Valid()
    {
      hide PendingOk, AtPosition, Concat, PduBytes, Framed, HeadBytes, WholePdu, DataHeader, Queue.Valid, Queue.TagsOk;
      if tag !in reqs {
        return Some(Enoent);
      }
      ghost var q := Abs();
      RestingOk(cfg, q, tag);
      var r := reqs[tag].(pduLen := r2tLength, pduSent := 0);
      if r.dataSent + r.pduLen > r.dataLen || r2tOffset < r.dataSent {
        Refused(cfg, q, tag, r);
        reqs := reqs[tag := r];
        return Some(Eproto);
      }
      r := r.(pdu := DataHeader(cfg, tag, ttag, r.dataSent, r.pduLen), state := SendH2CPdu, offset := 0);
      H2CBytes(cfg, data[tag], r);
      if r.write && r2tLength > 0 {
        H2CQueued(cfg, q, tag, ttag, r);
      }
      reqs := reqs[tag := r];
      transfers := transfers[tag := transfers[tag] + [Transfer(r.dataSent, r.pduLen)]];
      queued := queued + [PduBytes(cfg, data[tag], r)];
      sendList := sendList + [tag];
      assert data[tag := data[tag]] == data;
      error := None;
    }

    // The frame every sending step keeps; whole says that it ended a PDU.
    twostate predicate Sent(whole: bool)
      reads this
    {
      && Valid()
      && data == old(data) && transfers == old(transfers) && queued == old(queued)
      && old(wire) <= wire
      && |done| == |old(done)| + (if whole then 1 else 0)
    }

    // The socket took n bytes of request t in one call.
    ghost predicate Called(t: nat, before: map<nat, Request>, hash: seq<byte>, n: nat)
      reads this`request, this`reqs
    {
      t in before && t in reqs && CanTake(cfg, before[t], n)
      && match OneCall(cfg, before[t], n, hash)
         case Some(r) => request == Some(t) && reqs[t] == r
         case None => request.None?
    }

    method TrySendCmdPdu(t: nat) returns (ret: int)
      requires Valid() && request == Some(t) && reqs[t].state.SendCmdPdu?
      modifies this
      ensures t in reqs && reqs.Keys == old(reqs.Keys)
      ensures Sent(ret > 0 && request.None?)
      ensures old(Willing()) ==> |wire| > |old(wire)|
      ensures ret > 0 ==>
        if HasInlineData(cfg, old(reqs[t])) then request == Some(t) && reqs[t].state.SendData? else request.None?
      ensures ret <= 0 ==> request == Some(t)
      ensures Reports(ret)
    {
      hide PendingOk, Rested, AtPosition, Concat, PduBytes, HeadRoom, WithHdgst, HasInlineData, AdvanceReq;
      hide Queue.Valid, Queue.Pdu;
      ghost var q := Abs();
      CurrentOk(cfg, q);
      HeadReady(cfg, q.data[t], reqs[t]);
      HdgstOnly(cfg, reqs[t]);
      var inlineData := HasInlineData(cfg, reqs[t]);
      var r := WithHdgst(cfg, reqs[t]);
      var len := |r.pdu| + cfg.HdgstLen() - r.offset;
      ret := Sendpage(HeadRoom(cfg, r)[r.offset..]);
      if ret <= 0 {
        Unsent(cfg, q, r);
        reqs := reqs[t := r];
        assert Abs() == Moved(q, r, sndHash, wire);
        return;
      }
      HeadSent(cfg, q, ret, wire);
      if ret == len {
        if inlineData {
          r := InitIter(r.(state := SendData));
          reqs := reqs[t := r];
          if cfg.dataDigest {
            sndHash := [];
          }
          assert Abs() == Moved(q, r, sndHash, wire);
        } else {
          done := done + [q.Pdu(cfg, t)];
          reqs := reqs[t := r];
          request := None;
          assert Abs() == Ended(cfg, q, r, wire);
        }
        return 1;
      }
      r := r.(offset := r.offset + ret);
      reqs := reqs[t := r];
      assert Abs() == Moved(q, r, sndHash, wire);
      ret := -EAGAIN;
    }

    method TrySendDataPdu(t: nat) returns (ret: int)
      requires Valid() && request == Some(t) && reqs[t].state.SendH2CPdu?
      modifies this
      ensures t in reqs && reqs.Keys == old(reqs.Keys)
      ensures Sent(false) && request == Some(t)
      ensures old(Willing()) ==> |wire| > |old(wire)|
      ensures ret > 0 ==> reqs[t].state.SendData?
      ensures Reports(ret)
      ensures Called(t, old(reqs), old(sndHash), |wire| - |old(wire)|)
    {
      hide PendingOk, Rested, AtPosition, Concat, PduBytes, HeadRoom, WithHdgst, HasInlineData, AdvanceReq;
      hide Queue.Valid, Queue.Pdu, CanTake, OneCall;
      ghost var q := Abs();
      CurrentOk(cfg, q);
      HeadReady(cfg, q.data[t], reqs[t]);
      HdgstOnly(cfg, reqs[t]);
      var r := WithHdgst(cfg, reqs[t]);
      var len := |r.pdu| - r.offset + cfg.HdgstLen();
      ret := Sendpage(HeadRoom(cfg, r)[r.offset..]);
      HeadCall(cfg, q.data[t], q.reqs[t], if ret > 0 then ret else 0, q.sndHash);
      if ret <= 0 {
        Unsent(cfg, q, r);
        reqs := reqs[t := r];
        assert Abs() == Moved(q, r, sndHash, wire);
        return;
      }
      HeadSent(cfg, q, ret, wire);
      if ret == len {
        r := r.(state := SendData);
        if r.dataSent == 0 {
          r := InitIter(r);
        }
        reqs := reqs[t := r];
        if cfg.dataDigest {
          sndHash := [];
        }
        assert Abs() == Moved(q, r, sndHash, wire);
        return 1;
      }
      r := r.(offset := r.offset + ret);
      reqs := reqs[t := r];
      assert Abs() == Moved(q, r, sndHash, wire);
      ret := -EAGAIN;
    }

    // One turn of the loop of nvme_tcp_try_send_data; over says whether to leave it.
    method SendSegment(t: nat) returns (ret: int, over: bool)
      requires Valid() && request == Some(t) && reqs[t].state.SendData?
      modifies this
      ensures t in reqs && reqs.Keys == old(reqs.Keys)
      ensures Sent(over && ret > 0 && request.None?)
      ensures old(Willing()) ==> |wire| > |old(wire)|
      ensures !cfg.dataDigest ==> reqs[t].state.SendData?
      ensures over && ret > 0 ==> if cfg.dataDigest then request == Some(t) && reqs[t].state.SendDdgst? else request.None?
      ensures over && ret <= 0 ==> request == Some(t) && reqs[t].state.SendData?
      ensures !over ==> request == Some(t) && reqs[t].state.SendData? && reqs[t].pduSent < reqs[t].pduLen
      ensures !over ==> reqs[t].pduLen - reqs[t].pduSent < old(reqs[t].pduLen - reqs[t].pduSent)
      ensures if over then Reports(ret) else answer > 0
      ensures Called(t, old(reqs), old(sndHash), |wire| - |old(wire)|)
    {
      hide PendingOk, Rested, AtPosition, Concat, PduBytes, HeadRoom, WithHdgst, HasInlineData, AdvanceReq;
      hide Queue.Valid, Queue.Pdu, CanTake, OneCall;
      hide CurLength, LastSend, SegsOk, Start, Queue.TagsOk;
      ghost var q := Abs();
      CurrentOk(cfg, q);
      var r := reqs[t];
      DataReady(cfg, q.data[t], r);
      AtPositionOf(cfg, q.data[t], r);
      var len := CurLength(r);
      var last := LastSend(r, len);
      var page := r.iter[0];
      ret := Sendpage(page[..len]);
      DataCall(cfg, q.data[t], r, if ret > 0 then ret else 0, q.sndHash);
      if ret <= 0 {
        return ret, true;
      }
      SegmentSent(cfg, q, ret, wire);
      r := AdvanceReq(r, ret);
      if cfg.dataDigest {
        sndHash := sndHash + page[..ret];
      }
      if last && ret == len {
        if cfg.dataDigest {
          r := r.(ddgst := cfg.crc(sndHash), state := SendDdgst, offset := 0);
          reqs := reqs[t := r];
          assert Abs() == Moved(q, r, sndHash, wire);
        } else {
          done := done + [q.Pdu(cfg, t)];
          reqs := reqs[t := r];
          request := None;
          assert Abs() == Ended(cfg, q, r, wire);
        }
        return 1, true;
      }
      reqs := reqs[t := r];
      assert Abs() == Moved(q, r, sndHash, wire);
      over := false;
    }

    method TrySendData(t: nat) returns (ret: int)
      requires Valid() && request == Some(t) && reqs[t].state.SendData?
      modifies this
      ensures Sent(ret > 0 && request.None?)
      ensures old(Willing()) ==> |wire| > |old(wire)|
      ensures ret > 0 ==> if cfg.dataDigest then request == Some(t) && reqs[t].state.SendDdgst? else request.None?
      ensures ret <= 0 ==> request == Some(t)
      ensures t in reqs && reqs.Keys == old(reqs.Keys) && (!cfg.dataDigest ==> reqs[t].state.SendData?)
      ensures Reports(ret)
    {
      hide Queue.Valid;
      hide PendingOk;
      CurrentOk(cfg, Abs());
      AtPositionOf(cfg, data[t], reqs[t]);
      var over := false;
      while true
        invariant Sent(false) && request == Some(t) && t in reqs && reqs[t].state.SendData? && reqs.Keys == old(reqs.Keys)
        invariant reqs[t].pduSent < reqs[t].pduLen
        invariant script == old(script) || (old(Willing()) ==> |wire| > |old(wire)|)
        decreases reqs[t].pduLen - reqs[t].pduSent
      {
        ret, over := SendSegment(t);
        if over {
          return;
        }
      }
    }

    // The socket took part of the digest.
    predicate DigestCut()
      reads this`request, this`reqs
    {
      && request.Some? && request.value in reqs && reqs[request.value].state.SendDdgst?
      && 0 < reqs[request.value].offset < DIGEST_LENGTH
    }

    // behind is the memory after the digest, which the code reads when it goes on.
    method TrySendDdgst(t: nat, behind: seq<byte>) returns (ret: int)
      requires request == Some(t) && t in reqs && reqs[t].state.SendDdgst? && reqs[t].offset < DIGEST_LENGTH
      requires |behind| >= 3 * DIGEST_LENGTH && (reqs[t].offset == 0 ==> Valid())
      modifies this
      ensures old(wire) <= wire
      ensures
        var o, n := old(reqs[t].offset), |wire| - |old(wire)|;
        && n <= DIGEST_LENGTH - o && wire == old(wire) + Offered(old(reqs[t].ddgst) + behind, o)[..n]
        && (ret > 0 <==> n == DIGEST_LENGTH - o)
        && (ret > 0 ==> request.None? && reqs == old(reqs))
        && (ret <= 0 ==> request == Some(t) && reqs == old(reqs)[t := old(reqs[t]).(offset := o + n)])
      ensures old(reqs[t].offset) == 0 ==> if DigestCut() then wire <= Concat(queued) else Sent(ret > 0)
      ensures reqs.Keys == old(reqs.Keys) && (old(reqs[t].offset) == 0 && DigestCut() ==> ret == -EAGAIN)
      ensures Reports(ret)
      ensures old(Willing()) ==> |wire| > |old(wire)|
    {
      hide Ended, Concat, Queue.Valid, Queue.Pdu, Offered;
      ghost var q := Abs();
      var r := reqs[t];
      assert reqs[t := r] == reqs;
      var b := Offered(r.ddgst + behind, r.offset);
      ret := Sendpage(b);
      if r.offset == 0 {
        DdgstTaken(cfg, q, behind, if ret > 0 then ret else 0);
      }
      if ret <= 0 {
        return;
      }
      if r.offset + ret == DIGEST_LENGTH {
        assert b[..ret] == b;
        done := done + [q.Pdu(cfg, t)];
        request := None;
        if r.offset == 0 {
          EndedIs(cfg, q, Abs(), r);
        }
        ret := 1;
        return;
      }
      reqs := reqs[t := r.(offset := r.offset + ret)];
      ret := -EAGAIN;
    }

    lemma NotCut()
      requires Valid()
      ensures !DigestCut()
      ensures request.Some? ==>
        request.value in reqs && (reqs[request.value].state.SendDdgst? ==> reqs[request.value].offset == 0)
    {
      if request.Some? {
        CurrentOk(cfg, Abs());
      }
    }

    // The request whose turn it is.
    ghost function Head(): Option<nat>
      reads this`request, this`sendList
    {
      if request.Some? then request else if sendList != [] then Some(sendList[0]) else None
    }

    // A positive result is one more whole PDU on the wire; while PDUs are queued,
    // whatever the socket is ready to take brings them further.
    method TrySend(behind: seq<byte>) returns (ret: int)
      requires Valid() && |behind| >= 3 * DIGEST_LENGTH
      modifies this
      ensures if DigestCut() then ret == 0 && old(wire) <= wire <= Concat(queued) else Sent(ret > 0)
      ensures old(Willing()) && old(Head()).Some? ==> |wire| > |old(wire)|
      ensures reqs.Keys == old(reqs.Keys)
      // An error of the socket, other than that it would have to wait, is returned.
      ensures if old(Head()).None? then ret == 0
              else if answer > 0 then ret >= 0
              else ret == if answer == -EAGAIN then 0 else answer
      // What could not be finished stays current.
      ensures ret <= 0 ==> request == old(Head())
    {
      hide Queue.Valid, HasInlineData;
      NotCut();
      if request.None? {
        if sendList == [] {
          return 0;
        }
        Fetched(cfg, Abs());
        request := Some(sendList[0]);
        sendList := sendList[1..];
      }
      var t := request.value;
      CurrentOk(cfg, Abs());
      ret := TrySendRequest(t, behind);
      if ret == -EAGAIN {
        ret := 0;
      }
    }

    // The send half of nvme_tcp_io_work. Upon an error the request is given up, ended by
    // the driver or left to the recovery of the connection.
    method IoWorkSend(behind: seq<byte>) returns (result: int)
      requires Valid() && |behind| >= 3 * DIGEST_LENGTH
      modifies this
      ensures result >= 0 ==> if DigestCut() then old(wire) <= wire <= Concat(queued) else Sent(result > 0)
      ensures result < 0 <==> old(Head()).Some? && answer < 0 && answer != -EAGAIN
      ensures result < 0 ==> result == answer && reqs.Keys == old(reqs.Keys) - {old(Head()).value}
      ensures result == 0 ==> request == old(Head())
      // The queue goes on as if the PDU had never been queued, or inside it.
      ensures result < 0 ==> request.None? && old(wire) <= wire && (Valid() <==> wire == Concat(done))
    {
      hide Queue.Valid, Concat;
      result := TrySend(behind);
      if result < 0 {
        NotCut();
        GiveUpExact(cfg, Abs());
        var t := request.value;
        ghost var q := Abs();
        reqs, data, transfers := reqs - {t}, data - {t}, transfers - {t};
        request := None;
        queued := done + q.Pdus(cfg, sendList);
        assert Abs() == GivenUp(cfg, q);
      }
    }

    method TrySendRequest(t: nat, behind: seq<byte>) returns (ret: int)
      requires Valid() && request == Some(t) && |behind| >= 3 * DIGEST_LENGTH
      modifies this
      ensures if DigestCut() then ret == -EAGAIN && old(wire) <= wire <= Concat(queued) else Sent(ret > 0)
      ensures reqs.Keys == old(reqs.Keys) && (ret <= 0 ==> request == Some(t))
      ensures old(Willing()) ==> |wire| > |old(wire)|
      ensures Reports(ret)
    {
      hide Queue.Valid, HasInlineData, Concat;
      NotCut();
      if reqs[t].state.SendCmdPdu? {
        var inlineData := HasInlineData(cfg, reqs[t]);
        ret := TrySendCmdPdu(t);
        NotCut();
        if ret <= 0 || !inlineData {
          return;
        }
      }
      if reqs[t].state.SendH2CPdu? {
        ret := TrySendDataPdu(t);
        NotCut();
        if ret <= 0 {
          return;
        }
      }
      ret := TrySendBody(t, behind);
    }

    // The rest of nvme_tcp_try_send: data, and the digest after it.
    method TrySendBody(t: nat, behind: seq<byte>) returns (ret: int)
      requires Valid() && request == Some(t) && t in reqs && |behind| >= 3 * DIGEST_LENGTH
      requires reqs[t].state.SendData? || reqs[t].state.SendDdgst?
      modifies this
      ensures if DigestCut() then ret == -EAGAIN && old(wire) <= wire <= Concat(queued) else Sent(ret > 0)
      ensures reqs.Keys == old(reqs.Keys) && (ret <= 0 ==> request == Some(t))
      ensures old(Willing()) ==> |wire| > |old(wire)|
      ensures Reports(ret)
    {
      hide Queue.Valid, Concat;
      NotCut();
      if reqs[t].state.SendData? {
        ret := TrySendData(t);
        NotCut();
        if ret <= 0 {
          return;
        }
      }
      if reqs[t].state.SendDdgst? {
        ret := TrySendDdgst(t, behind);
      }
    }

    // What it means for a request: its transfers carry the data from the first
    // byte on, each byte once and none past the end.
    lemma TransferMeaning(t: nat)
      requires Valid() && t in reqs
      ensures t in data && t in transfers && reqs[t].dataSent <= |data[t]|
      ensures Payloads(data[t], transfers[t]) <= data[t]
      ensures reqs[t].dataSent <= |Payloads(data[t], transfers[t])|
      ensures !Abs().Pending(t) ==> Payloads(data[t], transfers[t]) == data[t][..reqs[t].dataSent]
    {
      assert Abs().ReqOk(cfg, t);
      TransfersCarryPrefix(data[t], transfers[t], Abs().TransferEnd(t));
    }
  }

  // ---- Facts the methods rest on ----

  lemma CmdPduOk(cfg: Config, data: seq<byte>, r: Request, cmd: seq<byte>)
    requires |cmd| == 64 && BiosOk(r.bios) && FlatBios(r.bios) == data && |data| == r.dataLen
    requires |data| + CMD_PDU_LENGTH + 2 * DIGEST_LENGTH < PLEN_LIMIT
    requires r.state.SendCmdPdu? && r.offset == r.pduSent == r.dataSent == 0
    requires r.pduLen == if r.write && r.dataLen <= cfg.inlineSize then r.dataLen else 0
    requires r.pdu == CmdHeader(cfg, r.pduLen, cmd)
    ensures PendingOk(cfg, data, r) && HeaderOk(r)
    ensures PduBytes(cfg, data, r) == WholePdu(cfg, r.pdu, data[..r.pduLen])
  {
    var p := PduBytes(cfg, data, r);
    assert p[4] == r.pdu[4] && p[5] == r.pdu[5] && p[6] == r.pdu[6] && p[7] == r.pdu[7];
  }

  lemma H2CPduOk(cfg: Config, data: seq<byte>, o: Request, r: Request)
    requires Rested(o, data) && r.write && r.pduLen > 0
    requires r == o.(pduLen := r.pduLen, pduSent := 0, pdu := r.pdu, state := SendH2CPdu, offset := 0)
    requires r.dataSent + r.pduLen <= r.dataLen && |r.pdu| == DATA_PDU_LENGTH
    requires Le32(r.pdu, 4) == DATA_PDU_LENGTH + cfg.HdgstLen() + r.pduLen + cfg.DdgstLen()
    requires Le32(r.pdu, 12) == r.dataSent && Le32(r.pdu, 16) == r.pduLen
    ensures PendingOk(cfg, data, r) && HeaderOk(r)
    ensures PduBytes(cfg, data, r) == WholePdu(cfg, r.pdu, data[r.dataSent..r.dataSent + r.pduLen])
  {
    var p := PduBytes(cfg, data, r);
    assert p[4] == r.pdu[4] && p[5] == r.pdu[5] && p[6] == r.pdu[6] && p[7] == r.pdu[7];
  }

  lemma H2CBytes(cfg: Config, data: seq<byte>, r: Request)
    requires r.pduSent == 0 && r.dataSent + r.pduLen <= r.dataLen == |data| && |r.pdu| == DATA_PDU_LENGTH
    ensures HeaderOk(r) && PduBytes(cfg, data, r) == WholePdu(cfg, r.pdu, data[r.dataSent..r.dataSent + r.pduLen])
  {
  }

  lemma RestingOk(cfg: Config, q: Queue, t: nat)
    requires q.Valid(cfg) && t in q.reqs && !q.Pending(t)
    ensures t in q.data && t in q.transfers
    ensures |q.data[t]| == q.reqs[t].dataLen >= q.reqs[t].dataSent
    ensures Rested(q.reqs[t], q.data[t]) && Chained(q.transfers[t], q.reqs[t].dataSent)
  {
    assert q.ReqOk(cfg, t);
  }

  lemma H2CQueued(cfg: Config, q: Queue, t: nat, ttag: nat, r: Request)
    requires q.Valid(cfg) && t in q.reqs && t in q.data && t in q.transfers && !q.Pending(t)
    requires t < 0x1_0000 && ttag < 0x1_0000 && r.dataLen + 2 * DATA_PDU_LENGTH < PLEN_LIMIT
    requires r == q.reqs[t].(pduLen := r.pduLen, pduSent := 0, pdu := r.pdu, state := SendH2CPdu, offset := 0)
    requires r.write && 0 < r.pduLen && r.dataSent + r.pduLen <= r.dataLen
    requires r.pdu == DataHeader(cfg, t, ttag, r.dataSent, r.pduLen)
    ensures HeaderOk(r) && |q.data[t]| == r.dataLen
    ensures PduBytes(cfg, q.data[t], r) == WholePdu(cfg, r.pdu, q.data[t][r.dataSent..r.dataSent + r.pduLen])
    ensures WithEntry(cfg, q, t, r, q.data[t], q.transfers[t] + [Transfer(r.dataSent, r.pduLen)]).Valid(cfg)
  {
    hide PendingOk, AtPosition, Concat, PduBytes, Framed, HeadBytes, WholePdu, Queue.Valid, WithEntry;
    RestingOk(cfg, q, t);
    H2CPduOk(cfg, q.data[t], q.reqs[t], r);
    var ts := q.transfers[t] + [Transfer(r.dataSent, r.pduLen)];
    assert ts[..|ts| - 1] == q.transfers[t];
    Enqueued(cfg, q, t, r, q.data[t], ts);
  }

  // A refused R2T leaves pdu_len and pdu_sent behind, which nothing depends on.
  lemma Refused(cfg: Config, q: Queue, t: nat, r: Request)
    requires q.Valid(cfg) && t in q.reqs && !q.Pending(t)
    requires r == q.reqs[t].(pduLen := r.pduLen, pduSent := r.pduSent)
    ensures q.(reqs := q.reqs[t := r]).Valid(cfg)
  {
    hide PendingOk, Concat, PduBytes, Framed, Queue.Pdus, Queue.ReqOk;
    RefusedReqs(cfg, q, t, r);
    PdusSame(cfg, q, q.(reqs := q.reqs[t := r]), q.sendList);
  }

  lemma RefusedReqs(cfg: Config, q: Queue, t: nat, r: Request)
    requires q.Valid(cfg) && t in q.reqs && !q.Pending(t)
    requires r == q.reqs[t].(pduLen := r.pduLen, pduSent := r.pduSent)
    ensures forall u | u in q.reqs :: q.(reqs := q.reqs[t := r]).ReqOk(cfg, u)
  {
    hide PendingOk, Concat, Chained, FlatBios, Queue.StreamOk, Queue.HashOk;
    forall u | u in q.reqs
      ensures q.(reqs := q.reqs[t := r]).ReqOk(cfg, u)
    {
      assert q.ReqOk(cfg, u);
    }
  }

  // Nothing was taken, but the header digest may have been filled in.
  lemma Unsent(cfg: Config, q: Queue, r: Request)
    requires q.Valid(cfg) && q.request.Some?
    requires PendingOk(cfg, q.data[q.request.value], r)
    requires r == q.reqs[q.request.value].(hdgst := r.hdgst) && !r.state.SendData?
    ensures Moved(q, r, q.sndHash, q.wire).Valid(cfg)
  {
    hide PendingOk, PduBytes, Queue.Valid, Queue.Pdu;
    CurrentOk(cfg, q);
    ProgressFits(cfg, q.data[q.request.value], q.reqs[q.request.value]);
    assert q.wire + [] == q.wire;
    Advanced(cfg, q, r, q.sndHash, q.wire);
  }

  lemma ProgressFits(cfg: Config, data: seq<byte>, r: Request)
    requires PendingOk(cfg, data, r)
    ensures HeaderOk(r) && |data| == r.dataLen && Progress(cfg, r) <= |PduBytes(cfg, data, r)|
  {
  }

  lemma SentSlice(data: seq<byte>, r: Request, page: seq<byte>, len: nat, n: nat)
    requires n <= len <= |page| && r.pduSent <= r.dataSent && r.dataSent + len <= |data|
    requires page[..len] == data[r.dataSent..][..len]
    ensures page[..len][..n] == page[..n] == data[r.dataSent..r.dataSent + n]
    ensures data[Start(r)..r.dataSent] + page[..n] == data[Start(r)..r.dataSent + n]
  {
    assert page[..n] == page[..len][..n];
    SliceOfSlice(data, r.dataSent, |data|, 0, n);
    assert data[r.dataSent..][..len][..n] == data[r.dataSent..][..n];
  }
}
