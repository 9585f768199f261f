// Where the data of a transfer land: every C2HData PDU announces the offset its data
// belong at, which the host does not look at.
module TcpPlacement {
  import opened Options
  import opened TcpRecv
  import opened TcpStream
  import opened Wire

  // A part of a transfer as the controller may cut it: len bytes of the data from
  // offset on.
  datatype Piece = Piece(offset: nat, len: nat, pdo: byte, last: bool, success: bool)

  // The pieces lie within size bytes; none says SUCCESS before the last PDU.
  ghost predicate PiecesOk(ks: seq<Piece>, size: nat) {
    forall k | k in ks :: k.offset + k.len <= size && (k.success ==> k.last)
  }

  function Total(ks: seq<Piece>): nat {
    if ks == [] then 0 else ks[0].len + Total(ks[1..])
  }

  // The data as they are sent one after another.
  function Stream(ks: seq<Piece>, src: seq<byte>): (s: seq<byte>)
    requires PiecesOk(ks, |src|)
    ensures |s| == Total(ks)
  {
    if ks == [] then [] else src[ks[0].offset..ks[0].offset + ks[0].len] + Stream(ks[1..], src)
  }

  function PduOf(cfg: Config, id: nat, k: Piece, src: seq<byte>): (p: WirePdu)
    requires k.offset + k.len <= |src| < 0xFFFF_FF00 && id < 0x1_0000
    ensures WellFormed(p)
  {
    DataPdu(cfg, id, k.last, k.success, k.pdo, k.offset, src[k.offset..k.offset + k.len])
  }

  function Pdus(cfg: Config, id: nat, ks: seq<Piece>, src: seq<byte>): (ps: seq<WirePdu>)
    requires PiecesOk(ks, |src|) && id < 0x1_0000 && |src| < 0xFFFF_FF00
    ensures forall p | p in ps :: WellFormed(p)
  {
    if ks == [] then [] else [PduOf(cfg, id, ks[0], src)] + Pdus(cfg, id, ks[1..], src)
  }

  // Each piece that has data begins where the data before it ended.
  predicate InSequence(ks: seq<Piece>, pos: nat)
    decreases |ks|
  {
    ks == [] || ((ks[0].len > 0 ==> ks[0].offset == pos) && InSequence(ks[1..], pos + ks[0].len))
  }

  predicate Covered(ks: seq<Piece>, i: nat) {
    exists k :: k in ks && k.offset <= i < k.offset + k.len
  }

  // The memory as the announced offsets would have it.
  ghost function Announced(ks: seq<Piece>, src: seq<byte>, mem: seq<byte>): (m: seq<byte>)
    requires |src| == |mem|
    ensures |m| == |mem|
  {
    seq(|mem|, i requires 0 <= i < |mem| => if Covered(ks, i) then src[i] else mem[i])
  }

  // ---- In sequence ----

  lemma PiecesTail(ks: seq<Piece>, size: nat)
    requires PiecesOk(ks, size) && ks != []
    ensures PiecesOk(ks[1..], size) && ks[0].offset + ks[0].len <= size && (ks[0].success ==> ks[0].last)
  {
    assert ks[0] in ks;
  }

  lemma CoveredTail(ks: seq<Piece>, i: nat)
    requires ks != []
    ensures Covered(ks, i) <==> ks[0].offset <= i < ks[0].offset + ks[0].len || Covered(ks[1..], i)
  {
    assert ks == [ks[0]] + ks[1..];
  }

  lemma {:induction false} StreamInSequence(ks: seq<Piece>, pos: nat, src: seq<byte>)
    requires PiecesOk(ks, |src|) && InSequence(ks, pos) && pos + Total(ks) <= |src|
    ensures Stream(ks, src) == src[pos..pos + Total(ks)]
    decreases |ks|
  {
    hide PiecesOk;
    if ks != [] {
      PiecesTail(ks, |src|);
      var n := pos + ks[0].len;
      StreamInSequence(ks[1..], n, src);
      assert src[pos..n] + src[n..n + Total(ks[1..])] == src[pos..pos + Total(ks)];
    }
  }

  lemma {:induction false} CoveredInSequence(ks: seq<Piece>, pos: nat, i: nat)
    requires InSequence(ks, pos)
    ensures Covered(ks, i) <==> pos <= i < pos + Total(ks)
    decreases |ks|
  {
    hide Covered;
    if ks != [] {
      CoveredTail(ks, i);
      CoveredInSequence(ks[1..], pos + ks[0].len, i);
    } else {
      NoneCovered();
    }
  }

  lemma NoneCovered()
    ensures forall i: nat :: !Covered([], i)
  {
  }

  // Out of sequence, some place p gets the byte that belongs at o.
  lemma {:induction false} OutOfSequence(ks: seq<Piece>, pos: nat, size: nat) returns (p: nat, o: nat)
    requires PiecesOk(ks, size) && !InSequence(ks, pos)
    ensures pos <= p < pos + Total(ks) && p != o < size
    ensures forall src: seq<byte> | |src| == size :: Stream(ks, src)[p - pos] == src[o]
    decreases |ks|
  {
    hide PiecesOk;
    PiecesTail(ks, size);
    var k := ks[0];
    if k.len > 0 && k.offset != pos {
      p, o := pos, k.offset;
    } else {
      p, o := OutOfSequence(ks[1..], pos + k.len, size);
      forall src: seq<byte> | |src| == size
        ensures Stream(ks, src)[p - pos] == src[o]
      {
        assert Stream(ks, src)[p - pos] == Stream(ks[1..], src)[p - pos - k.len];
      }
    }
  }

  // The bytes one after another from pos on are the announced memory.
  ghost predicate Placed(ks: seq<Piece>, pos: nat, mem: seq<byte>, src: seq<byte>)
    requires |src| == |mem| && PiecesOk(ks, |mem|) && pos + Total(ks) <= |mem|
  {
    Splice(mem, pos, Stream(ks, src)) == Announced(ks, src, mem)
  }

  // They are, whatever the data, if and only if the pieces come in sequence.
  lemma PlacedExact(ks: seq<Piece>, pos: nat, mem: seq<byte>)
    requires PiecesOk(ks, |mem|) && pos + Total(ks) <= |mem|
    ensures (forall src | |src| == |mem| :: Placed(ks, pos, mem, src)) <==> InSequence(ks, pos)
  {
    hide PiecesOk, Placed, InSequence;
    if InSequence(ks, pos) {
      forall src: seq<byte> | |src| == |mem|
        ensures Placed(ks, pos, mem, src)
      {
        PlacedInSequence(ks, pos, mem, src);
      }
    } else {
      var src := Misplaced(ks, pos, mem);
    }
  }

  lemma PlacedInSequence(ks: seq<Piece>, pos: nat, mem: seq<byte>, src: seq<byte>)
    requires |src| == |mem| && PiecesOk(ks, |mem|) && InSequence(ks, pos) && pos + Total(ks) <= |mem|
    ensures Placed(ks, pos, mem, src)
  {
    hide PiecesOk, Covered, Stream, InSequence;
    StreamInSequence(ks, pos, src);
    forall i: nat
      ensures Covered(ks, i) <==> pos <= i < pos + Total(ks)
    {
      CoveredInSequence(ks, pos, i);
    }
  }

  lemma Misplaced(ks: seq<Piece>, pos: nat, mem: seq<byte>) returns (src: seq<byte>)
    requires PiecesOk(ks, |mem|) && !InSequence(ks, pos) && pos + Total(ks) <= |mem|
    ensures |src| == |mem| && !Placed(ks, pos, mem, src)
  {
    hide PiecesOk, Covered, Stream, InSequence;
    var p, o := OutOfSequence(ks, pos, |mem|);
    var v: byte := if mem[p] == 1 then 2 else 1;
    src := seq(|mem|, i => if i == o then v else 0);
    assert Splice(mem, pos, Stream(ks, src))[p] == Stream(ks, src)[p - pos];
    assert Announced(ks, src, mem)[p] != src[o];
  }

  // ---- What the receiver does ----

  lemma SpliceTwice(mem: seq<byte>, pos: nat, a: seq<byte>, b: seq<byte>)
    requires pos + |a| + |b| <= |mem|
    ensures Splice(Splice(mem, pos, a), pos + |a|, b) == Splice(mem, pos, a + b)
  {
  }

  lemma DeliverOne(cfg: Config, v: View, id: nat, k: Piece, src: seq<byte>)
    requires ViewOk(v) && v.error.None? && id in v.bufs && v.bufs[id].payloadBytes > 0
    requires k.offset + k.len <= |src| < 0xFFFF_FF00 && id < 0x1_0000 && (k.success ==> k.last) && k.len <= Room(v.bufs[id])
    ensures
      var w, b := Deliver(cfg, v, PduOf(cfg, id, k, src)), v.bufs[id];
      && ViewOk(w) && w.error.None? && id in w.bufs
      && w.bufs[id] == b.(mem := Splice(b.mem, b.pos, src[k.offset..k.offset + k.len]), pos := b.pos + k.len)
  {
    hide Splice, DataPdu, Refusal;
    DataPduIs(cfg, id, k.last, k.success, k.pdo, k.offset, src[k.offset..k.offset + k.len]);
    var d := src[k.offset..k.offset + k.len];
    assert d[..|d|] == d;
  }

  lemma {:induction false} DeliverPieces(cfg: Config, v: View, id: nat, ks: seq<Piece>, src: seq<byte>)
    requires ViewOk(v) && v.error.None? && id in v.bufs && v.bufs[id].payloadBytes > 0
    requires PiecesOk(ks, |src|) && id < 0x1_0000 && |src| < 0xFFFF_FF00 && Total(ks) <= Room(v.bufs[id])
    ensures
      var w, b := DeliverAll(cfg, v, Pdus(cfg, id, ks, src)), v.bufs[id];
      && w.error.None? && id in w.bufs
      && w.bufs[id] == b.(mem := Splice(b.mem, b.pos, Stream(ks, src)), pos := b.pos + Total(ks))
    decreases |ks|
  {
    hide PiecesOk, Deliver, Splice, PduOf;
    var b := v.bufs[id];
    if ks != [] {
      PiecesTail(ks, |src|);
      DeliverOne(cfg, v, id, ks[0], src);
      assert Pdus(cfg, id, ks, src)[1..] == Pdus(cfg, id, ks[1..], src);
      DeliverPieces(cfg, Deliver(cfg, v, PduOf(cfg, id, ks[0], src)), id, ks[1..], src);
      SpliceTwice(b.mem, b.pos, src[ks[0].offset..ks[0].offset + ks[0].len], Stream(ks[1..], src));
    } else {
      SpliceNothing(b.mem, b.pos);
    }
  }

  lemma SpliceNothing(mem: seq<byte>, pos: nat)
    requires pos <= |mem|
    ensures Splice(mem, pos, []) == mem
  {
  }

  lemma SettleKeeps(cfg: Config, rx: Rx)
    requires ContextOk(cfg, rx.ctx)
    ensures Settle(cfg, rx).ctx.reqs == rx.ctx.reqs && (Settle(cfg, rx).Running? <==> rx.Running?)
  {
  }

  // The PDUs are accepted and leave the request's memory as given.
  ghost predicate EndsWith(cfg: Config, c: Context, id: nat, ps: seq<WirePdu>, mem: seq<byte>)
    requires AtBoundary(cfg, c) && forall p | p in ps :: WellFormed(p)
  {
    var rx := Run(cfg, Running(c), EncodeAll(cfg, ps));
    rx.Running? && id in rx.ctx.reqs && ReqOk(rx.ctx.reqs[id]) && BufferOf(rx.ctx.reqs[id]).mem == mem
  }

  lemma EndsOnce(cfg: Config, c: Context, id: nat, ps: seq<WirePdu>, mem: seq<byte>, other: seq<byte>)
    requires AtBoundary(cfg, c) && (forall p | p in ps :: WellFormed(p)) && EndsWith(cfg, c, id, ps, mem)
    ensures EndsWith(cfg, c, id, ps, other) <==> other == mem
  {
  }

  // A request that takes data, with room for the pieces.
  ghost predicate Awaits(cfg: Config, c: Context, id: nat, ks: seq<Piece>) {
    && AtBoundary(cfg, c) && id < 0x1_0000 && id in c.reqs && c.reqs[id].payloadBytes > 0 && ReqOk(c.reqs[id])
    && var b := BufferOf(c.reqs[id]);
      PiecesOk(ks, |b.mem|) && |b.mem| < 0xFFFF_FF00 && b.pos + Total(ks) <= |b.mem|
  }

  // Whatever offsets they announce, the pieces are accepted, and their data go to the
  // next free place.
  lemma OffsetIgnored(cfg: Config, c: Context, id: nat, ks: seq<Piece>, src: seq<byte>)
    requires Awaits(cfg, c, id, ks) && |src| == |BufferOf(c.reqs[id]).mem|
    ensures
      var b := BufferOf(c.reqs[id]);
      EndsWith(cfg, c, id, Pdus(cfg, id, ks, src), Splice(b.mem, b.pos, Stream(ks, src)))
  {
    hide Run, Fill, BufferOf, Bufs, ReqsOk, Pdus, Stream, EncodeAll, DeliverAll, PiecesOk, Served, Settle, EndsOpen, Splice;
    var ps := Pdus(cfg, id, ks, src);
    var rx := Run(cfg, Running(c), EncodeAll(cfg, ps));
    StreamMeaning(cfg, c, ps);
    BufsAt(c.reqs);
    var v := ViewOf(Running(c));
    assert v.bufs == Bufs(c.reqs) && v.bufs[id] == BufferOf(c.reqs[id]);
    DeliverPieces(cfg, v, id, ks, src);
    SettleKeeps(cfg, rx);
    BufsAt(rx.ctx.reqs);
  }

  // The memory of the request ends up as the PDUs announce.
  ghost predicate EndsAnnounced(cfg: Config, c: Context, id: nat, ks: seq<Piece>, src: seq<byte>)
    requires Awaits(cfg, c, id, ks) && |src| == |BufferOf(c.reqs[id]).mem|
  {
    EndsWith(cfg, c, id, Pdus(cfg, id, ks, src), Announced(ks, src, BufferOf(c.reqs[id]).mem))
  }

  lemma EndsAnnouncedIs(cfg: Config, c: Context, id: nat, ks: seq<Piece>, src: seq<byte>)
    requires Awaits(cfg, c, id, ks) && |src| == |BufferOf(c.reqs[id]).mem|
    ensures
      var b := BufferOf(c.reqs[id]);
      EndsAnnounced(cfg, c, id, ks, src) <==> Placed(ks, b.pos, b.mem, src)
  {
    hide EndsWith, BufferOf, Stream, Announced, Splice, Pdus, PiecesOk, AtBoundary, ReqOk;
    var b := BufferOf(c.reqs[id]);
    OffsetIgnored(cfg, c, id, ks, src);
    EndsOnce(cfg, c, id, Pdus(cfg, id, ks, src), Splice(b.mem, b.pos, Stream(ks, src)), Announced(ks, src, b.mem));
  }

  // However a controller cuts a transfer into PDUs the host has room for: the memory
  // of the request ends up as the PDUs announce, whatever the data, if and only if
  // each PDU with data announces the place where the data before it ended.
  lemma TransferExact(cfg: Config, c: Context, id: nat, ks: seq<Piece>)
    requires Awaits(cfg, c, id, ks)
    ensures (forall src | |src| == |BufferOf(c.reqs[id]).mem| :: EndsAnnounced(cfg, c, id, ks, src))
            <==> InSequence(ks, BufferOf(c.reqs[id]).pos)
  {
    hide BufferOf, InSequence, PiecesOk, EndsAnnounced, AtBoundary, Placed, ReqOk;
    var b := BufferOf(c.reqs[id]);
    forall src | |src| == |b.mem|
      ensures EndsAnnounced(cfg, c, id, ks, src) <==> Placed(ks, b.pos, b.mem, src)
    {
      EndsAnnouncedIs(cfg, c, id, ks, src);
    }
    PlacedExact(ks, b.pos, b.mem);
  }

  // For one PDU with data: they land at the announced offset if and only if it is the
  // place the request is filled up to.
  lemma OnePieceExact(cfg: Config, c: Context, id: nat, k: Piece)
    requires Awaits(cfg, c, id, [k]) && k.len > 0
    ensures
      var b := BufferOf(c.reqs[id]);
      k.offset + k.len <= |b.mem| &&
      ((forall src | |src| == |b.mem| ::
          EndsWith(cfg, c, id, Pdus(cfg, id, [k], src), Splice(b.mem, k.offset, src[k.offset..k.offset + k.len])))
       <==> k.offset == b.pos)
  {
    hide BufferOf, EndsWith, AtBoundary, ReqOk, Splice, Announced, Pdus;
    var b := BufferOf(c.reqs[id]);
    TransferExact(cfg, c, id, [k]);
    assert InSequence([k], b.pos) <==> k.offset == b.pos by { assert [k][1..] == []; }
    assert k in [k];
    forall src | |src| == |b.mem|
      ensures Announced([k], src, b.mem) == Splice(b.mem, k.offset, src[k.offset..k.offset + k.len])
      ensures EndsAnnounced(cfg, c, id, [k], src) <==>
              EndsWith(cfg, c, id, Pdus(cfg, id, [k], src), Splice(b.mem, k.offset, src[k.offset..k.offset + k.len]))
    {
      OnePiece(k, src, b.mem);
    }
  }

  lemma OnePiece(k: Piece, src: seq<byte>, mem: seq<byte>)
    requires |src| == |mem| && k.offset + k.len <= |mem|
    ensures Announced([k], src, mem) == Splice(mem, k.offset, src[k.offset..k.offset + k.len])
  {
    forall i | 0 <= i < |mem|
      ensures Covered([k], i) <==> k.offset <= i < k.offset + k.len
    {
      assert k in [k];
    }
  }

  // A PDU with a byte for place 1 of two, accepted, its byte stored at place 0.
  lemma WrongPlace(cfg: Config, c: Context, id: nat)
    requires AtBoundary(cfg, c) && id < 0x1_0000 && id in c.reqs && c.reqs[id].payloadBytes > 0
    requires ReqOk(c.reqs[id]) && BufferOf(c.reqs[id]) == Buffer(c.reqs[id].payloadBytes, [0, 0], 0)
    ensures EndsWith(cfg, c, id, [DataPdu(cfg, id, true, false, 24, 1, [7])], [7, 0])
  {
    hide BufferOf, EndsWith, AtBoundary, ReqOk;
    var k := Piece(1, 1, 24, true, false);
    assert [k][1..] == [] && Total([k]) == 1;
    OffsetIgnored(cfg, c, id, [k], [0, 7]);
    assert [0, 7][1..2] == [7];
    assert Splice([0, 0], 0, [7]) == [7, 0];
    assert Stream([k], [0, 7]) == [7] && Pdus(cfg, id, [k], [0, 7]) == [PduOf(cfg, id, k, [0, 7])];
  }
}
