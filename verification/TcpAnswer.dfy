// What becomes of the answer to an R2T: whether it is the data asked for, and whether
// it ever ends.
module TcpAnswer {
  import opened Options
  import opened TcpSend
  import opened Wire

  // ---- The data asked for ----

  // The data part of a H2CData PDU.
  function Body(cfg: Config, p: seq<byte>, len: nat): seq<byte>
    requires DATA_PDU_LENGTH + cfg.HdgstLen() + len <= |p|
  {
    p[DATA_PDU_LENGTH + cfg.HdgstLen()..DATA_PDU_LENGTH + cfg.HdgstLen() + len]
  }

  lemma BodyIs(cfg: Config, header: seq<byte>, body: seq<byte>)
    requires |header| == DATA_PDU_LENGTH
    ensures |WholePdu(cfg, header, body)| >= DATA_PDU_LENGTH + cfg.HdgstLen() + |body|
    ensures Body(cfg, WholePdu(cfg, header, body), |body|) == body
  {
  }

  // The PDU queued for an accepted R2T holds the data the R2T names.
  ghost predicate Answers(cfg: Config, data: seq<byte>, p: seq<byte>, r2tOffset: nat, len: nat)
    requires r2tOffset + len <= |data|
  {
    && DATA_PDU_LENGTH + cfg.HdgstLen() + len <= |p|
    && Body(cfg, p, len) == data[r2tOffset..r2tOffset + len]
  }

  // Whatever the data are, it does if and only if the R2T asks for them from where the
  // data sent end; a larger offset is accepted all the same.
  lemma R2tAnswered(cfg: Config, size: nat, tag: nat, ttag: nat, sent: nat, r2tOffset: nat, len: nat)
    requires tag < 0x1_0000 && ttag < 0x1_0000 && size + 2 * DATA_PDU_LENGTH < PLEN_LIMIT
    requires len > 0 && sent + len <= size && r2tOffset + len <= size
    ensures
      (forall data | |data| == size ::
         Answers(cfg, data, WholePdu(cfg, DataHeader(cfg, tag, ttag, sent, len), data[sent..sent + len]), r2tOffset, len))
      <==> r2tOffset == sent
  {
    hide WholePdu, DataHeader, Body;
    var header := DataHeader(cfg, tag, ttag, sent, len);
    forall data: seq<byte> | |data| == size
      ensures Answers(cfg, data, WholePdu(cfg, header, data[sent..sent + len]), r2tOffset, len) <==>
              data[sent..sent + len] == data[r2tOffset..r2tOffset + len]
    {
      BodyIs(cfg, header, data[sent..sent + len]);
    }
    if r2tOffset != sent {
      var data: seq<byte> := seq(size, i => if i == sent then 1 else 0);
      assert data[sent..sent + len][0] != data[r2tOffset..r2tOffset + len][0];
    }
  }

  // ---- Its end ----

  function HashAfter(r: Request, n: nat, hash: seq<byte>): seq<byte> {
    if r.state.SendH2CPdu? then [] else if r.iter != [] && n <= |r.iter[0]| then hash + r.iter[0][..n] else hash
  }

  // Calls in which the socket takes that many bytes each end the PDU.
  predicate Ends(cfg: Config, r: Request, hash: seq<byte>, takes: seq<nat>)
    decreases |takes|
  {
    && takes != [] && CanTake(cfg, r, takes[0])
    && match OneCall(cfg, r, takes[0], hash)
       case None => |takes| == 1
       case Some(s) => Ends(cfg, s, HashAfter(r, takes[0], hash), takes[1..])
  }

  // An answer without data stays at its data for good.
  lemma {:induction false} EmptyNeverEnds(cfg: Config, r: Request, hash: seq<byte>, takes: seq<nat>)
    requires r.pduLen == r.pduSent == 0 && (r.state.SendH2CPdu? || r.state.SendData?)
    ensures !Ends(cfg, r, hash, takes)
    decreases |takes|
  {
    hide AdvanceReq;
    if takes != [] && CanTake(cfg, r, takes[0]) {
      var s := OneCall(cfg, r, takes[0], hash);
      assert s.Some? && s.value.pduLen == s.value.pduSent == 0 && (s.value.state.SendH2CPdu? || s.value.state.SendData?);
      EmptyNeverEnds(cfg, s.value, HashAfter(r, takes[0], hash), takes[1..]);
    }
  }

  // Some behaviour of the socket ends it.
  ghost predicate CanEnd(cfg: Config, r: Request) {
    exists takes :: Ends(cfg, r, [], takes)
  }

  lemma SoCanEnd(cfg: Config, r: Request, takes: seq<nat>)
    requires Ends(cfg, r, [], takes)
    ensures CanEnd(cfg, r)
  {
  }

  lemma EmptyCannotEnd(cfg: Config, r: Request)
    requires r.pduLen == r.pduSent == 0 && (r.state.SendH2CPdu? || r.state.SendData?)
    ensures !CanEnd(cfg, r)
  {
    forall takes
      ensures !Ends(cfg, r, [], takes)
    {
      EmptyNeverEnds(cfg, r, [], takes);
    }
  }

  lemma EndsFirst(cfg: Config, r: Request, hash: seq<byte>, n: nat, s: Request, takes: seq<nat>)
    requires CanTake(cfg, r, n) && OneCall(cfg, r, n, hash) == Some(s) && Ends(cfg, s, HashAfter(r, n, hash), takes)
    ensures Ends(cfg, r, hash, [n] + takes)
  {
    assert ([n] + takes)[1..] == takes;
  }

  lemma EndsLast(cfg: Config, r: Request, hash: seq<byte>, n: nat)
    requires CanTake(cfg, r, n) && OneCall(cfg, r, n, hash).None?
    ensures Ends(cfg, r, hash, [n])
  {
  }

  lemma {:induction false} DataEnds(cfg: Config, data: seq<byte>, r: Request, hash: seq<byte>) returns (takes: seq<nat>)
    requires PendingOk(cfg, data, r) && r.state.SendData?
    ensures Ends(cfg, r, hash, takes)
    decreases r.pduLen - r.pduSent
  {
    hide PendingOk, Ends, CanTake, OneCall, AdvanceReq;
    AtPositionOf(cfg, data, r);
    DataReady(cfg, data, r);
    var n := CurLength(r);
    DataMoved(cfg, data, r, n);
    DataCall(cfg, data, r, n, hash);
    var s := AdvanceReq(r, n);
    if s.pduSent < s.pduLen {
      takes := DataEnds(cfg, data, s, HashAfter(r, n, hash));
      EndsFirst(cfg, r, hash, n, s, takes);
      takes := [n] + takes;
    } else if !cfg.dataDigest {
      EndsLast(cfg, r, hash, n);
      takes := [n];
    } else {
      s := s.(ddgst := cfg.crc(hash + r.iter[0][..n]), state := SendDdgst, offset := 0);
      DigestEnds(cfg, s, HashAfter(r, n, hash));
      EndsFirst(cfg, r, hash, n, s, [DIGEST_LENGTH]);
      takes := [n] + [DIGEST_LENGTH];
    }
  }

  lemma DigestEnds(cfg: Config, r: Request, hash: seq<byte>)
    requires r.state.SendDdgst? && r.offset == 0
    ensures Ends(cfg, r, hash, [DIGEST_LENGTH])
  {
  }

  // The PDU that answers an R2T for data of a write can come to its end if and only if
  // the R2T asks for at least a byte. Until its end no other PDU is sent.
  lemma AnswerEnds(cfg: Config, data: seq<byte>, r: Request, tag: nat, ttag: nat, len: nat)
    requires Rested(r, data) && r.write && tag < 0x1_0000 && ttag < 0x1_0000
    requires r.dataSent + len <= r.dataLen && r.dataLen + 2 * DATA_PDU_LENGTH < PLEN_LIMIT
    ensures CanEnd(cfg, Answer(cfg, r, tag, ttag, len)) <==> len > 0
  {
    hide Rested, Ends, CanEnd, CanTake, OneCall, DataHeader, PduBytes, WholePdu, ToData, WithHdgst;
    var a := Answer(cfg, r, tag, ttag, len);
    if len > 0 {
      H2CPduOk(cfg, data, r, a);
      HeadReady(cfg, data, a);
      HdgstOnly(cfg, a);
      var h := WithHdgst(cfg, a);
      var n := |a.pdu| + cfg.HdgstLen();
      HeadCall(cfg, data, a, n, []);
      ToDataOk(cfg, data, h);
      assert ToData(h).state.SendData? by { ToDataIs(h); }
      var takes := DataEnds(cfg, data, ToData(h), HashAfter(a, n, []));
      EndsFirst(cfg, a, [], n, ToData(h), takes);
      SoCanEnd(cfg, a, [n] + takes);
    } else {
      EmptyCannotEnd(cfg, a);
    }
  }

  lemma ToDataIs(r: Request)
    requires r.bios != []
    ensures ToData(r).state.SendData?
  {
  }
}
