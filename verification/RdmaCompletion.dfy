// Completion of RDMA requests: send, receive and local-invalidate completions come
// in any order; the request ends with the last, and its memory region goes back.
module RdmaCompletion {
  import opened Options
  import opened Seqs

  datatype Phase = Idle | Busy | Ended

  // sendDue, rspDue and invDue are the completions still to come: of the send, of
  // the receive with the response, of a local invalidate that was posted. keyless
  // says that the response named no key, stuck that the local invalidate called for
  // could not be posted.
  datatype Request = Request(
    phase: Phase,
    ref: int,
    mr: Option<nat>,
    sendDue: bool,
    rspDue: bool,
    invDue: bool,
    keyless: bool,
    stuck: bool,
    status: nat)

  // A region's key, whether the key is valid for the peer, and whether a response
  // named it for invalidation since it became so.
  datatype Region = Region(rkey: nat, valid: bool, named: bool)

  datatype End = End(tag: nat, status: nat)

  // starts, answers and ends record what has happened.
  datatype Queue = Queue(
    reqs: seq<Request>,
    regions: seq<Region>,
    pool: seq<nat>,
    starts: seq<nat>,
    answers: seq<End>,
    ends: seq<End>)

  // What nvme_rdma_map_data needs for a request.
  datatype Mapping = NoData | Inline | Single | FastReg

  datatype Transfer = Transfer(
    segments: nat, mapped: nat, write: bool, bytes: nat, queueIdx: nat, numInlineSegments: nat,
    useInlineData: bool, inlineDataSize: nat, unsafeGlobalRkey: bool)

  function MapKind(t: Transfer): Mapping {
    if t.segments == 0 then NoData
    else if t.mapped <= t.numInlineSegments && t.write && t.queueIdx != 0 && t.useInlineData
            && t.bytes <= t.inlineDataSize then Inline
    else if t.mapped <= t.numInlineSegments && t.mapped == 1 && t.unsafeGlobalRkey then Single
    else FastReg
  }

  // ib_inc_rkey: the low byte counts up.
  function IncRkey(rkey: nat): nat {
    rkey / 0x100 * 0x100 + (rkey + 1) % 0x100
  }

  // A region's key comes round after 256 registrations, no sooner, and stays the
  // region's: only its low byte changes.
  function Rekeyed(rkey: nat, n: nat): nat {
    if n == 0 then rkey else IncRkey(Rekeyed(rkey, n - 1))
  }

  lemma LowByte(high: nat, low: nat)
    requires low < 0x100
    ensures (high * 0x100 + low) / 0x100 == high
    ensures IncRkey(high * 0x100 + low) == high * 0x100 + if low == 0xff then 0 else low + 1
  {
  }

  lemma {:induction false} RekeyedIs(high: nat, low: nat, n: nat)
    requires low < 0x100
    ensures Rekeyed(high * 0x100 + low, n) == high * 0x100 + (low + n) % 0x100
    decreases n
  {
    hide IncRkey;
    if n > 0 {
      RekeyedIs(high, low, n - 1);
      LowByte(high, (low + n - 1) % 0x100);
    }
  }

  lemma KeysRepeat(high: nat, low: nat, n: nat)
    requires low < 0x100
    ensures Rekeyed(high * 0x100 + low, n) / 0x100 == high
    ensures Rekeyed(high * 0x100 + low, n) == high * 0x100 + low <==> n % 0x100 == 0
  {
    RekeyedIs(high, low, n);
    LowByte(high, (low + n) % 0x100);
  }

  // ---- Steps ----

  datatype Step =
    | Starts(tag: nat, fastReg: bool)
    | SendCompletes(tag: nat)
    // invalidated is the key named, posted whether a local invalidate can be posted
    | Responds(tag: nat, status: nat, invalidated: Option<nat>, posted: bool)
    | InvalidateCompletes(tag: nat)
    | Completes(tag: nat)

  predicate Enabled(q: Queue, s: Step) {
    match s
    case Starts(t, fastReg) => t < |q.reqs| && q.reqs[t].phase.Idle? && (fastReg ==> q.pool != [] && q.pool[0] < |q.regions|)
    case SendCompletes(t) => t < |q.reqs| && q.reqs[t].sendDue
    // One response per command, and none invalidates a key where there is none.
    case Responds(t, _, k, _) =>
      t < |q.reqs| && q.reqs[t].rspDue
      && (q.reqs[t].mr.Some? ==> q.reqs[t].mr.value < |q.regions|) && (k.Some? ==> q.reqs[t].mr.Some?)
    case InvalidateCompletes(t) =>
      t < |q.reqs| && q.reqs[t].invDue && q.reqs[t].mr.Some? && q.reqs[t].mr.value < |q.regions|
    case Completes(t) => t < |q.reqs| && q.reqs[t].phase.Ended?
  }

  // refcount_dec_and_test, ending the request when it was the last.
  function Dropped(q: Queue, t: nat): Queue
    requires t < |q.reqs|
  {
    var r := q.reqs[t].(ref := q.reqs[t].ref - 1);
    if r.ref == 0 then
      q.(reqs := q.reqs[t := r.(phase := Ended)], ends := q.ends + [End(t, r.status)])
    else
      q.(reqs := q.reqs[t := r])
  }

  // What the peer's card and ours do about a key named in a response.
  function Invalidated(regions: seq<Region>, k: nat): (r: seq<Region>)
    ensures |r| == |regions|
  {
    seq(|regions|, m requires 0 <= m < |regions| =>
      Region(regions[m].rkey, regions[m].valid && regions[m].rkey != k, regions[m].named || regions[m].rkey == k))
  }

  function Fresh(mr: Option<nat>): Request {
    Request(Busy, 2, mr, true, true, false, false, false, 0)
  }

  function Next(q: Queue, s: Step): Queue
    requires Enabled(q, s)
  {
    match s
    case Starts(t, false) =>
      q.(reqs := q.reqs[t := Fresh(None)], starts := q.starts + [t])
    case Starts(t, true) =>
      var m := q.pool[0];
      q.(reqs := q.reqs[t := Fresh(Some(m))],
         regions := q.regions[m := Region(IncRkey(q.regions[m].rkey), true, false)],
         pool := q.pool[1..], starts := q.starts + [t])
    case SendCompletes(t) =>
      Dropped(q.(reqs := q.reqs[t := q.reqs[t].(sendDue := false)]), t)
    case Responds(t, status, k, posted) =>
      var r := q.reqs[t].(rspDue := false, keyless := k.None?, status := status);
      var a := q.(answers := q.answers + [End(t, status)]);
      if k.Some? then
        Dropped(a.(reqs := q.reqs[t := r], regions := Invalidated(q.regions, k.value)), t)
      else if r.mr.Some? then
        a.(reqs := q.reqs[t := r.(invDue := posted, stuck := !posted)])
      else
        Dropped(a.(reqs := q.reqs[t := r]), t)
    case InvalidateCompletes(t) =>
      var m := q.reqs[t].mr.value;
      Dropped(q.(reqs := q.reqs[t := q.reqs[t].(invDue := false)], regions := q.regions[m := q.regions[m].(valid := false)]), t)
    case Completes(t) =>
      var r := q.reqs[t];
      q.(reqs := q.reqs[t := r.(phase := Idle, mr := None)], pool := if r.mr.Some? then [r.mr.value] + q.pool else q.pool)
  }

  // ---- What the steps keep ----

  function Bit(b: bool): nat {
    if b then 1 else 0
  }

  predicate RequestOk(r: Request, nregions: nat) {
    && r.ref == Bit(r.sendDue) + Bit(r.rspDue) + Bit(r.invDue) + Bit(r.stuck)
    && (r.phase.Busy? <==> r.ref > 0)
    && (r.rspDue ==> !r.invDue && !r.keyless && !r.stuck)
    && !(r.invDue && r.stuck)
    && (r.invDue || r.stuck ==> r.mr.Some? && r.keyless)
    && (r.phase.Idle? ==> r.mr.None?)
    && (r.mr.Some? ==> r.mr.value < nregions)
  }

  ghost predicate RequestsOk(q: Queue) {
    forall t | 0 <= t < |q.reqs| :: RequestOk(q.reqs[t], |q.regions|)
  }

  // The key of a request is valid until a response names it or, no key having been
  // named in the request's own, the local invalidate is complete.
  predicate KeyOk(r: Request, regions: seq<Region>)
    requires r.mr.Some? ==> r.mr.value < |regions|
  {
    r.mr.Some? ==> (regions[r.mr.value].valid <==> !regions[r.mr.value].named && !(r.keyless && !r.invDue && !r.stuck))
  }

  ghost predicate KeysOk(q: Queue)
    requires RequestsOk(q)
  {
    forall t | 0 <= t < |q.reqs| :: RequestOk(q.reqs[t], |q.regions|) && KeyOk(q.reqs[t], q.regions)
  }

  // Each region is in the pool or with one request, never both.
  ghost predicate RegionsOk(q: Queue) {
    PoolOk(q.pool, |q.regions|) && OwnersOk(q) && Placed(q)
  }

  ghost predicate PoolOk(pool: seq<nat>, nregions: nat) {
    && (forall i | 0 <= i < |pool| :: pool[i] < nregions)
    && (forall i, j | 0 <= i < j < |pool| :: pool[i] != pool[j])
  }

  ghost predicate OwnersOk(q: Queue) {
    && (forall t | 0 <= t < |q.reqs| && q.reqs[t].mr.Some? :: q.reqs[t].mr.value !in q.pool)
    && (forall t, u | 0 <= t < u < |q.reqs| && q.reqs[t].mr.Some? :: q.reqs[t].mr != q.reqs[u].mr)
  }

  ghost predicate Placed(q: Queue) {
    forall m | 0 <= m < |q.regions| :: m in q.pool || Owned(q, m)
  }

  ghost predicate Owned(q: Queue, m: nat) {
    exists t :: 0 <= t < |q.reqs| && q.reqs[t].mr == Some(m)
  }

  function Tags(ends: seq<End>): (s: seq<nat>)
    ensures |s| == |ends|
  {
    seq(|ends|, i requires 0 <= i < |ends| => ends[i].tag)
  }

  // A request ends once for each start, and with the status it was answered with.
  ghost predicate EndsOk(q: Queue) {
    && (forall t | 0 <= t < |q.reqs| :: Occ(q.starts, t) == Occ(Tags(q.ends), t) + Bit(q.reqs[t].phase.Busy?))
    && (forall e | e in q.ends :: e in q.answers)
    && (forall t | 0 <= t < |q.reqs| && q.reqs[t].phase.Busy? && !q.reqs[t].rspDue :: End(t, q.reqs[t].status) in q.answers)
  }

  ghost predicate Inv(q: Queue) {
    RequestsOk(q) && RegionsOk(q) && EndsOk(q) && KeysOk(q)
  }

  lemma NextRequestsOk(q: Queue, s: Step)
    requires RequestsOk(q) && RegionsOk(q) && Enabled(q, s)
    ensures |Next(q, s).regions| == |q.regions| && RequestsOk(Next(q, s))
  {
    hide Invalidated;
    var n := Next(q, s);
    assert RequestOk(q.reqs[s.tag], |q.regions|);
    forall t | 0 <= t < |n.reqs|
      ensures RequestOk(n.reqs[t], |n.regions|)
    {
      assert RequestOk(q.reqs[t], |q.regions|);
    }
  }

  // What a step does to the region of a request that is not its own.
  lemma OtherRegion(q: Queue, s: Step, t: nat)
    requires RequestsOk(q) && RegionsOk(q) && Enabled(q, s) && t < |q.reqs| && t != s.tag && q.reqs[t].mr.Some?
    ensures var m := q.reqs[t].mr.value;
      && m < |q.regions| && |Next(q, s).regions| == |q.regions|
      && Next(q, s).regions[m] ==
         if s.Responds? && s.invalidated.Some? then Invalidated(q.regions, s.invalidated.value)[m] else q.regions[m]
  {
    assert RequestOk(q.reqs[t], |q.regions|);
    if t < s.tag {
      assert q.reqs[t].mr != q.reqs[s.tag].mr;
    } else {
      assert q.reqs[s.tag].mr.Some? ==> q.reqs[s.tag].mr != q.reqs[t].mr;
    }
  }

  lemma NextKeysOk(q: Queue, s: Step)
    requires RequestsOk(q) && RegionsOk(q) && KeysOk(q) && Enabled(q, s)
    ensures RequestsOk(Next(q, s)) && KeysOk(Next(q, s))
  {
    hide RegionsOk, RequestsOk;
    NextRequestsOk(q, s);
    var n := Next(q, s);
    SameSize(q, s);
    forall t | 0 <= t < |n.reqs|
      ensures RequestOk(n.reqs[t], |n.regions|) && KeyOk(n.reqs[t], n.regions)
    {
      RequestAt(q, t);
      RequestAt(n, t);
      if t != s.tag {
        SameOther(q, s, t);
        if q.reqs[t].mr.Some? {
          OtherRegion(q, s, t);
        }
      }
    }
  }

  lemma RequestAt(q: Queue, t: nat)
    requires RequestsOk(q) && t < |q.reqs|
    ensures RequestOk(q.reqs[t], |q.regions|)
  {
  }

  lemma SameOther(q: Queue, s: Step, t: nat)
    requires Enabled(q, s) && t < |q.reqs| && t != s.tag
    ensures |Next(q, s).reqs| == |q.reqs| && Next(q, s).reqs[t] == q.reqs[t]
  {
  }

  // The steps that neither take nor return a region.
  lemma SameOwners(q: Queue, n: Queue)
    requires RegionsOk(q) && n.pool == q.pool && |n.reqs| == |q.reqs| && |n.regions| == |q.regions|
    requires forall t | 0 <= t < |q.reqs| :: n.reqs[t].mr == q.reqs[t].mr
    ensures RegionsOk(n)
  {
    forall m | 0 <= m < |n.regions|
      ensures m in n.pool || Owned(n, m)
    {
      if m !in q.pool {
        assert Owned(q, m);
        var t :| 0 <= t < |q.reqs| && q.reqs[t].mr == Some(m);
        assert n.reqs[t].mr == Some(m);
      }
    }
  }

  lemma StartRegionsOk(q: Queue, t: nat)
    requires RequestsOk(q) && RegionsOk(q) && Enabled(q, Starts(t, true))
    ensures RegionsOk(Next(q, Starts(t, true)))
  {
    var n, m := Next(q, Starts(t, true)), q.pool[0];
    assert RequestOk(q.reqs[t], |q.regions|);
    forall i | 0 <= i < |n.pool|
      ensures n.pool[i] < |n.regions| && n.pool[i] != m
    {
      assert n.pool[i] == q.pool[i + 1];
    }
    forall x | 0 <= x < |n.regions|
      ensures x in n.pool || Owned(n, x)
    {
      if x == m {
        assert n.reqs[t].mr == Some(m);
      } else if x in q.pool {
        assert q.pool == [m] + n.pool;
      } else {
        assert Owned(q, x);
        var u :| 0 <= u < |q.reqs| && q.reqs[u].mr == Some(x);
        assert n.reqs[u].mr == Some(x);
      }
    }
  }

  lemma CompleteRegionsOk(q: Queue, t: nat)
    requires RequestsOk(q) && RegionsOk(q) && Enabled(q, Completes(t))
    ensures RegionsOk(Next(q, Completes(t)))
  {
    hide PoolOk, OwnersOk, Placed;
    CompletePool(q, t);
    CompleteOwners(q, t);
    CompletePlaced(q, t);
  }

  lemma CompletePool(q: Queue, t: nat)
    requires RequestsOk(q) && PoolOk(q.pool, |q.regions|) && OwnersOk(q) && Enabled(q, Completes(t))
    ensures PoolOk(Next(q, Completes(t)).pool, |q.regions|)
  {
    assert RequestOk(q.reqs[t], |q.regions|);
    if q.reqs[t].mr.Some? {
      var m := q.reqs[t].mr.value;
      assert m !in q.pool;
      forall i | 0 <= i < |[m] + q.pool|
        ensures ([m] + q.pool)[i] < |q.regions|
      {
        assert i > 0 ==> ([m] + q.pool)[i] == q.pool[i - 1];
      }
    }
  }

  lemma CompleteOwners(q: Queue, t: nat)
    requires OwnersOk(q) && Enabled(q, Completes(t))
    ensures OwnersOk(Next(q, Completes(t)))
  {
    var n := Next(q, Completes(t));
    forall u | 0 <= u < |n.reqs| && n.reqs[u].mr.Some?
      ensures n.reqs[u].mr.value !in n.pool
    {
      assert n.reqs[u] == q.reqs[u];
      if u < t {
        assert q.reqs[u].mr != q.reqs[t].mr;
      } else if q.reqs[t].mr.Some? {
        assert q.reqs[t].mr != q.reqs[u].mr;
      }
    }
  }

  lemma CompletePlaced(q: Queue, t: nat)
    requires Placed(q) && Enabled(q, Completes(t))
    ensures Placed(Next(q, Completes(t)))
  {
    var n := Next(q, Completes(t));
    forall x | 0 <= x < |n.regions|
      ensures x in n.pool || Owned(n, x)
    {
      if x !in q.pool {
        assert Owned(q, x);
        var u :| 0 <= u < |q.reqs| && q.reqs[u].mr == Some(x);
        if u != t {
          assert n.reqs[u].mr == Some(x);
        }
      }
    }
  }

  lemma NextRegionsOk(q: Queue, s: Step)
    requires RequestsOk(q) && RegionsOk(q) && Enabled(q, s)
    ensures RegionsOk(Next(q, s))
  {
    hide RegionsOk, RequestsOk;
    match s
    case Starts(t, true) => StartRegionsOk(q, t);
    case Completes(t) => CompleteRegionsOk(q, t);
    case Starts(t, false) =>
      assert q.reqs[t].mr.None? by { IdleNoRegion(q, t); }
      SameOwners(q, Next(q, s));
    case SendCompletes(t) => SameOwners(q, Next(q, s));
    case Responds(t, status, k, posted) => SameOwners(q, Next(q, s));
    case InvalidateCompletes(t) => SameOwners(q, Next(q, s));
  }

  lemma IdleNoRegion(q: Queue, t: nat)
    requires RequestsOk(q) && t < |q.reqs| && q.reqs[t].phase.Idle?
    ensures q.reqs[t].mr.None?
  {
    assert RequestOk(q.reqs[t], |q.regions|);
  }

  lemma OccPut(s: seq<nat>, y: nat, x: nat)
    ensures Occ(s + [y], x) == Occ(s, x) + Bit(y == x)
  {
    OccAppend(s, [y], x);
    OccOne(y, x);
  }

  lemma TagsPut(ends: seq<End>, e: End)
    ensures Tags(ends + [e]) == Tags(ends) + [e.tag]
  {
  }

  lemma NextEndsOk(q: Queue, s: Step)
    requires RequestsOk(q) && EndsOk(q) && Enabled(q, s)
    ensures EndsOk(Next(q, s))
  {
    hide Next, RequestOk;
    var n := Next(q, s);
    SameSize(q, s);
    forall u | 0 <= u < |n.reqs|
      ensures Occ(n.starts, u) == Occ(Tags(n.ends), u) + Bit(n.reqs[u].phase.Busy?)
    {
      CountsOk(q, s, u);
    }
    AnswersOk(q, s);
  }

  lemma SameSize(q: Queue, s: Step)
    requires Enabled(q, s)
    ensures |Next(q, s).reqs| == |q.reqs| && |Next(q, s).regions| == |q.regions|
  {
  }

  lemma CountsOk(q: Queue, s: Step, u: nat)
    requires RequestsOk(q) && Enabled(q, s) && u < |q.reqs|
    requires Occ(q.starts, u) == Occ(Tags(q.ends), u) + Bit(q.reqs[u].phase.Busy?)
    ensures var n := Next(q, s);
      u < |n.reqs| && Occ(n.starts, u) == Occ(Tags(n.ends), u) + Bit(n.reqs[u].phase.Busy?)
  {
    hide Occ, Tags;
    var n, t := Next(q, s), s.tag;
    assert RequestOk(q.reqs[t], |q.regions|);
    TagsPut(q.ends, End(t, n.reqs[t].status));
    OccPut(q.starts, t, u);
    OccPut(Tags(q.ends), t, u);
  }

  lemma AnswersOk(q: Queue, s: Step)
    requires RequestsOk(q) && EndsOk(q) && Enabled(q, s)
    ensures var n := Next(q, s);
      && (forall e | e in n.ends :: e in n.answers)
      && (forall t | 0 <= t < |n.reqs| && n.reqs[t].phase.Busy? && !n.reqs[t].rspDue :: End(t, n.reqs[t].status) in n.answers)
  {
    var n, t := Next(q, s), s.tag;
    assert RequestOk(q.reqs[t], |q.regions|);
    assert q.answers <= n.answers;
    if s.Responds? {
      assert n.answers[|q.answers|] == End(t, s.status);
    }
    forall u | 0 <= u < |n.reqs| && n.reqs[u].phase.Busy? && !n.reqs[u].rspDue
      ensures End(u, n.reqs[u].status) in n.answers
    {
      if u != t {
        assert n.reqs[u] == q.reqs[u];
      }
    }
  }

  lemma NextInv(q: Queue, s: Step)
    requires Inv(q) && Enabled(q, s)
    ensures Inv(Next(q, s))
  {
    hide RequestsOk, RegionsOk, EndsOk, KeysOk;
    NextKeysOk(q, s);
    NextRegionsOk(q, s);
    NextEndsOk(q, s);
  }

  // ---- Runs ----

  ghost predicate Reaches(q: Queue, run: seq<Step>, r: Queue)
    decreases |run|
  {
    if run == [] then r == q
    else Enabled(q, run[0]) && Reaches(Next(q, run[0]), run[1..], r)
  }

  function Init(tags: nat, regions: seq<nat>): Queue {
    Queue(seq(tags, i => Request(Idle, 0, None, false, false, false, false, false, 0)),
          seq(|regions|, i requires 0 <= i < |regions| => Region(regions[i], false, false)),
          seq(|regions|, i => i), [], [], [])
  }

  lemma InitInv(tags: nat, regions: seq<nat>)
    ensures Inv(Init(tags, regions))
  {
    var q := Init(tags, regions);
    forall m | 0 <= m < |q.regions|
      ensures m in q.pool
    {
      assert q.pool[m] == m;
    }
  }

  lemma {:induction false} RunInv(q: Queue, run: seq<Step>, r: Queue)
    requires Inv(q) && Reaches(q, run, r)
    ensures Inv(r)
    decreases |run|
  {
    hide Inv, Next;
    if run != [] {
      NextInv(q, run[0]);
      RunInv(Next(q, run[0]), run[1..], r);
    }
  }

  // In every interleaving of the completions, whatever keys the responses name: a
  // request ends at most once for each start, just once unless it is busy, not before
  // its send has completed and with the status of its answer; each region is in the
  // pool or owned by one request, not both. When it has ended, its key is invalid
  // exactly if its own response named none or some response since its start named it.
  lemma CompletionMeaning(tags: nat, regions: seq<nat>, run: seq<Step>, q: Queue, t: nat, m: nat)
    requires Reaches(Init(tags, regions), run, q) && t < |q.reqs| && m < |q.regions|
    ensures Occ(q.starts, t) == Occ(Tags(q.ends), t) + Bit(q.reqs[t].phase.Busy?)
    ensures q.reqs[t].phase.Ended? ==> !q.reqs[t].sendDue && !q.reqs[t].rspDue && !q.reqs[t].invDue && !q.reqs[t].stuck
    ensures q.reqs[t].phase.Ended? && q.reqs[t].mr == Some(m) ==>
      (!q.regions[m].valid <==> q.reqs[t].keyless || q.regions[m].named)
    ensures forall e | e in q.ends :: e in q.answers
    ensures m in q.pool <==> !Owned(q, m)
    ensures forall u | 0 <= u < |q.reqs| && u != t && q.reqs[t].mr.Some? :: q.reqs[u].mr != q.reqs[t].mr
  {
    hide EndsOk;
    InitInv(tags, regions);
    RunInv(Init(tags, regions), run, q);
    EndsAt(q, t);
    assert RequestOk(q.reqs[t], |q.regions|);
    forall u | 0 <= u < |q.reqs| && u != t && q.reqs[t].mr.Some?
      ensures q.reqs[u].mr != q.reqs[t].mr
    {
      if u < t {
        assert q.reqs[u].mr.Some? ==> q.reqs[u].mr != q.reqs[t].mr;
      }
    }
  }

  lemma EndsAt(q: Queue, t: nat)
    requires EndsOk(q) && t < |q.reqs|
    ensures Occ(q.starts, t) == Occ(Tags(q.ends), t) + Bit(q.reqs[t].phase.Busy?)
    ensures forall e | e in q.ends :: e in q.answers
  {
  }

  // ---- Peers that name the right key ----

  // Each response names no key or that of its request.
  ghost predicate RightKeys(q: Queue, run: seq<Step>)
    decreases |run|
  {
    run == [] ||
    (Enabled(q, run[0])
     && (run[0].Responds? && run[0].invalidated.Some? ==>
           run[0].invalidated.value == q.regions[q.reqs[run[0].tag].mr.value].rkey)
     && RightKeys(Next(q, run[0]), run[1..]))
  }

  // No key outlives its request: those in the pool are not valid.
  ghost predicate NoneLeft(q: Queue)
    requires Inv(q)
  {
    && (forall m | m in q.pool :: !q.regions[m].valid)
    && (forall t | 0 <= t < |q.reqs| && q.reqs[t].mr.Some? && !q.reqs[t].rspDue ::
          RequestOk(q.reqs[t], |q.regions|) && (q.reqs[t].keyless || q.regions[q.reqs[t].mr.value].named))
  }

  lemma NextNoneLeft(q: Queue, s: Step)
    requires Inv(q) && NoneLeft(q) && RightKeys(q, [s])
    ensures Inv(Next(q, s)) && NoneLeft(Next(q, s))
  {
    hide EndsOk, Placed;
    NextInv(q, s);
    var n := Next(q, s);
    SameSize(q, s);
    forall t | 0 <= t < |n.reqs| && n.reqs[t].mr.Some? && !n.reqs[t].rspDue
      ensures RequestOk(n.reqs[t], |n.regions|) && (n.reqs[t].keyless || n.regions[n.reqs[t].mr.value].named)
    {
      RequestAt(n, t);
      RequestAt(q, t);
      if t != s.tag {
        SameOther(q, s, t);
        OtherRegion(q, s, t);
      }
    }
    RequestAt(q, s.tag);
    forall m | m in n.pool
      ensures !n.regions[m].valid
    {
      PoolRegion(q, s, m);
    }
  }

  lemma PoolRegion(q: Queue, s: Step, m: nat)
    requires Inv(q) && NoneLeft(q) && Enabled(q, s) && m in Next(q, s).pool
    ensures m < |q.regions| == |Next(q, s).regions| && !Next(q, s).regions[m].valid
  {
    hide EndsOk, Placed;
    var t := s.tag;
    RequestAt(q, t);
    assert KeyOk(q.reqs[t], q.regions);
    if s.Completes? {
      if q.reqs[t].mr == Some(m) {
        assert q.reqs[t].keyless || q.regions[m].named;
      } else {
        assert m in q.pool;
      }
    } else if s.Starts? && s.fastReg {
      var i :| 0 <= i < |q.pool| - 1 && q.pool[1..][i] == m;
      assert q.pool[i + 1] == m && q.pool[0] != m;
      assert m in q.pool;
    } else {
      assert m in q.pool;
    }
  }

  lemma {:induction false} RunNoneLeft(q: Queue, run: seq<Step>, r: Queue)
    requires Inv(q) && NoneLeft(q) && Reaches(q, run, r) && RightKeys(q, run)
    ensures Inv(r) && NoneLeft(r)
    decreases |run|
  {
    hide Inv, NoneLeft, Next;
    if run != [] {
      OneRight(q, run);
      NextNoneLeft(q, run[0]);
      RunNoneLeft(Next(q, run[0]), run[1..], r);
    }
  }

  // With such a peer no region goes back to the pool with a valid key, in any run; a
  // request that has ended has an invalid one.
  lemma RightKeysMeaning(tags: nat, regions: seq<nat>, run: seq<Step>, q: Queue, m: nat, t: nat)
    requires Reaches(Init(tags, regions), run, q) && RightKeys(Init(tags, regions), run)
    requires m < |q.regions| && t < |q.reqs|
    ensures m in q.pool || (q.reqs[t].phase.Ended? && q.reqs[t].mr == Some(m)) ==> !q.regions[m].valid
  {
    hide EndsOk, Placed;
    InitInv(tags, regions);
    RunNoneLeft(Init(tags, regions), run, q);
    RequestAt(q, t);
    if q.reqs[t].phase.Ended? && q.reqs[t].mr == Some(m) {
      assert KeyOk(q.reqs[t], q.regions);
    }
  }

  lemma OneRight(q: Queue, run: seq<Step>)
    requires run != [] && RightKeys(q, run)
    ensures RightKeys(q, [run[0]])
  {
    assert [run[0]][1..] == [];
  }

  // With another it can: the request ends as if nothing had happened, and its region
  // is free for the next with the old key still valid.
  lemma WrongKeyLeft() returns (run: seq<Step>, q: Queue)
    ensures Reaches(Init(1, [0x100]), run, q) && |q.reqs| == 1 && q.reqs[0].phase.Idle? && q.ends == [End(0, 7)]
    ensures q.pool == [0] && q.regions == [Region(0x101, true, false)]
  {
    var q0 := Init(1, [0x100]);
    assert q0.regions == [Region(0x100, false, false)] && q0.pool == [0];
    var s0, s1, s2, s3 := Starts(0, true), SendCompletes(0), Responds(0, 7, Some(0x999), true), Completes(0);
    var q1 := Next(q0, s0);
    assert q1.regions == [Region(0x101, true, false)] && q1.reqs == [Fresh(Some(0))];
    var q2 := Next(q1, s1);
    var q3 := Next(q2, s2);
    assert q3.regions == [Region(0x101, true, false)];
    q := Next(q3, s3);
    run := [s0] + ([s1] + ([s2] + ([s3] + [])));
    Then(q3, s3, [], q);
    Then(q2, s2, [s3] + [], q);
    Then(q1, s1, [s2] + ([s3] + []), q);
    Then(q0, s0, [s1] + ([s2] + ([s3] + [])), q);
  }

  lemma Then(q: Queue, s: Step, run: seq<Step>, r: Queue)
    requires Enabled(q, s) && Reaches(Next(q, s), run, r)
    ensures Reaches(q, [s] + run, r)
  {
    assert ([s] + run)[1..] == run;
  }

  // A request whose local invalidate could not be posted never ends.
  lemma {:induction false} StuckForever(q: Queue, run: seq<Step>, r: Queue, t: nat)
    requires Inv(q) && Reaches(q, run, r) && t < |q.reqs| && q.reqs[t].stuck
    ensures t < |r.reqs| && r.reqs[t].stuck && r.reqs[t].phase.Busy?
    decreases |run|
  {
    hide Inv, Next;
    if run == [] {
      StuckBusy(q, t);
    } else {
      StuckStays(q, run[0], t);
      NextInv(q, run[0]);
      StuckForever(Next(q, run[0]), run[1..], r, t);
    }
  }

  lemma StuckBusy(q: Queue, t: nat)
    requires Inv(q) && t < |q.reqs| && q.reqs[t].stuck
    ensures q.reqs[t].phase.Busy?
  {
    RequestAt(q, t);
  }

  lemma StuckStays(q: Queue, s: Step, t: nat)
    requires Inv(q) && Enabled(q, s) && t < |q.reqs| && q.reqs[t].stuck
    ensures t < |Next(q, s).reqs| && Next(q, s).reqs[t].stuck
  {
    RequestAt(q, t);
  }

  lemma PoolHead(q: Queue)
    requires Inv(q) && q.pool != []
    ensures q.pool[0] < |q.regions|
  {
  }

  // The key of a region in the pool may change.
  lemma RekeyInv(q: Queue, m: nat, rkey: nat)
    requires Inv(q) && m < |q.regions|
    ensures Inv(q.(regions := q.regions[m := q.regions[m].(rkey := rkey)]))
  {
    var n := q.(regions := q.regions[m := q.regions[m].(rkey := rkey)]);
    SameOwners(q, n);
    forall t | 0 <= t < |n.reqs|
      ensures RequestOk(n.reqs[t], |n.regions|) && KeyOk(n.reqs[t], n.regions)
    {
      assert RequestOk(q.reqs[t], |q.regions|) && KeyOk(q.reqs[t], q.regions);
    }
  }

  // ---- The driver's code ----

  datatype Status = StsOk | StsResource | StsIoErr

  class RdmaQueue {
    var reqs: seq<Request>
    var regions: seq<Region>
    var pool: seq<nat>
    var recoveries: nat
    ghost var starts: seq<nat>
    ghost var answers: seq<End>
    ghost var ends: seq<End>

    ghost function Abs(): Queue
      reads this
    {
      Queue(reqs, regions, pool, starts, answers, ends)
    }

    constructor (tags: nat, rkeys: seq<nat>)
      ensures Abs() == Init(tags, rkeys) && Inv(Abs())
    {
      reqs := seq(tags, i => Request(Idle, 0, None, false, false, false, false, false, 0));
      regions := seq(|rkeys|, i requires 0 <= i < |rkeys| => Region(rkeys[i], false, false));
      pool := seq(|rkeys|, i => i);
      recoveries, starts, answers, ends := 0, [], [], [];
      new;
      InitInv(tags, rkeys);
      assert Abs() == Init(tags, rkeys);
    }

    // nvme_rdma_queue_rq: mapping, and posting the send behind the registration of
    // the region; sgErr, mrErr and postErr are the errors of mapping the segments for
    // DMA, of mapping them into the region, and of posting.
    method QueueRq(tag: nat, t: Transfer, sgErr: Option<Status>, mrErr: Option<Status>, postErr: Option<Status>)
      returns (status: Status)
      requires Inv(Abs()) && tag < |reqs| && reqs[tag].phase.Idle?
      requires sgErr != Some(StsOk) && mrErr != Some(StsOk) && postErr != Some(StsOk)
      modifies this`reqs, this`regions, this`pool, this`starts
      ensures Inv(Abs())
      ensures status.StsOk? <==> postErr.None? && (t.segments > 0 ==> sgErr.None?)
                                 && (MapKind(t).FastReg? ==> mrErr.None? && old(pool) != [])
      ensures status.StsOk? ==> Abs() == Next(old(Abs()), Starts(tag, MapKind(t).FastReg?))
      // A started request has a region unless it has no data, is a write that fits the
      // capsule, or is one segment under the global key.
      ensures status.StsOk? ==>
        (reqs[tag].mr.Some? <==>
          && t.segments > 0
          && !(t.write && t.queueIdx != 0 && t.useInlineData && t.bytes <= t.inlineDataSize && t.mapped <= t.numInlineSegments)
          && !(t.mapped == 1 && t.unsafeGlobalRkey && t.mapped <= t.numInlineSegments))
      ensures status.StsOk? && reqs[tag].mr.Some? ==>
        var m := reqs[tag].mr.value;
        && old(pool) != [] && m == old(pool)[0] && m < |regions| == |old(regions)|
        && regions[m] == Region(IncRkey(old(regions)[m].rkey), true, false)
      // A request that could not be started holds nothing: its region is back.
      ensures !status.StsOk? ==> reqs == old(reqs) && pool == old(pool) && starts == old(starts)
    {
      hide Inv, RequestsOk, RegionsOk, EndsOk, KeysOk;
      if t.segments > 0 && sgErr.Some? {
        return sgErr.value;
      }
      var fastReg, mr := MapKind(t).FastReg?, 0;
      if fastReg {
        if pool == [] {
          return StsResource;
        }
        PoolHead(Abs());
        RekeyInv(Abs(), pool[0], IncRkey(regions[pool[0]].rkey));
      }
      NextInv(Abs(), Starts(tag, fastReg));
      if fastReg {
        mr := pool[0];
        pool := pool[1..];
        if mrErr.Some? {
          pool := [mr] + pool;
          assert Abs() == old(Abs());
          return mrErr.value;
        }
        regions := regions[mr := regions[mr].(rkey := IncRkey(regions[mr].rkey))];
      }
      if postErr.Some? {
        if fastReg {
          pool := [mr] + pool;
          assert pool == old(pool);
        }
        assert Abs() == if fastReg then old(Abs()).(regions := regions) else old(Abs());
        return postErr.value;
      }
      if fastReg {
        regions := regions[mr := regions[mr].(valid := true, named := false)];
      }
      reqs := reqs[tag := Fresh(if fastReg then Some(mr) else None)];
      starts := starts + [tag];
      assert Abs() == Next(old(Abs()), Starts(tag, fastReg));
      status := StsOk;
    }

    // refcount_dec_and_test and, at zero, nvme_end_request
    method DecAndTest(tag: nat)
      requires tag < |reqs|
      modifies this`reqs, this`ends
      ensures Abs() == Dropped(old(Abs()), tag)
    {
      reqs := reqs[tag := reqs[tag].(ref := reqs[tag].ref - 1)];
      if reqs[tag].ref == 0 {
        reqs := reqs[tag := reqs[tag].(phase := Ended)];
        ends := ends + [End(tag, reqs[tag].status)];
      }
      assert Abs() == Dropped(old(Abs()), tag);
    }

    method SendDone(tag: nat)
      requires Inv(Abs()) && Enabled(Abs(), SendCompletes(tag))
      modifies this`reqs, this`ends
      ensures Abs() == Next(old(Abs()), SendCompletes(tag)) && Inv(Abs())
    {
      hide Inv, RequestsOk, RegionsOk, EndsOk, KeysOk;
      NextInv(Abs(), SendCompletes(tag));
      reqs := reqs[tag := reqs[tag].(sendDue := false)];
      DecAndTest(tag);
    }

    // nvme_rdma_process_nvme_rsp; posted says whether a local invalidate can be.
    method ProcessNvmeRsp(tag: nat, status: nat, invalidated: Option<nat>, posted: bool)
      requires Inv(Abs()) && Enabled(Abs(), Responds(tag, status, invalidated, posted))
      modifies this`reqs, this`regions, this`recoveries, this`answers, this`ends
      ensures Abs() == Next(old(Abs()), Responds(tag, status, invalidated, posted)) && Inv(Abs())
      // Error recovery is started for a key that is not the request's, and for a local
      // invalidate that could not be posted.
      ensures recoveries == old(recoveries) +
        if invalidated.Some? then (if invalidated.value != old(regions)[old(reqs)[tag].mr.value].rkey then 1 else 0)
        else if old(reqs)[tag].mr.Some? && !posted then 1 else 0
      // Until its key is invalid the request does not end, though it never be.
      ensures invalidated.None? && old(reqs)[tag].mr.Some? ==>
        && reqs == old(reqs)[tag := reqs[tag]] && reqs[tag].phase == old(reqs)[tag].phase && reqs[tag].ref == old(reqs)[tag].ref
        && reqs[tag].invDue == posted && reqs[tag].stuck == !posted
        && ends == old(ends) && regions == old(regions)
    {
      hide Inv, RequestsOk, RegionsOk, EndsOk, KeysOk, Invalidated;
      NextInv(Abs(), Responds(tag, status, invalidated, posted));
      reqs := reqs[tag := reqs[tag].(rspDue := false, keyless := invalidated.None?, status := status)];
      answers := answers + [End(tag, status)];
      if invalidated.Some? {
        if invalidated.value != regions[reqs[tag].mr.value].rkey {
          recoveries := recoveries + 1;
        }
        // what the cards have done
        regions := Invalidated(regions, invalidated.value);
      } else if reqs[tag].mr.Some? {
        reqs := reqs[tag := reqs[tag].(invDue := posted, stuck := !posted)];
        if !posted {
          recoveries := recoveries + 1;
        }
        assert Abs() == Next(old(Abs()), Responds(tag, status, invalidated, posted));
        return;
      }
      DecAndTest(tag);
      assert Abs() == Next(old(Abs()), Responds(tag, status, invalidated, posted));
    }

    method InvRkeyDone(tag: nat)
      requires Inv(Abs()) && Enabled(Abs(), InvalidateCompletes(tag))
      modifies this`reqs, this`regions, this`ends
      ensures Abs() == Next(old(Abs()), InvalidateCompletes(tag)) && Inv(Abs())
    {
      hide Inv, RequestsOk, RegionsOk, EndsOk, KeysOk;
      NextInv(Abs(), InvalidateCompletes(tag));
      var mr := reqs[tag].mr.value;
      regions := regions[mr := regions[mr].(valid := false)];
      reqs := reqs[tag := reqs[tag].(invDue := false)];
      DecAndTest(tag);
    }

    // nvme_rdma_complete_rq with nvme_rdma_unmap_data
    method CompleteRq(tag: nat)
      requires Inv(Abs()) && Enabled(Abs(), Completes(tag))
      modifies this`reqs, this`pool
      ensures Abs() == Next(old(Abs()), Completes(tag)) && Inv(Abs())
      ensures old(reqs)[tag].mr.Some? ==> old(reqs)[tag].mr.value in pool
    {
      hide Inv, RequestsOk, RegionsOk, EndsOk, KeysOk;
      NextInv(Abs(), Completes(tag));
      if reqs[tag].mr.Some? {
        pool := [reqs[tag].mr.value] + pool;
        reqs := reqs[tag := reqs[tag].(mr := None)];
      }
      reqs := reqs[tag := reqs[tag].(phase := Idle)];
      assert Abs() == Next(old(Abs()), Completes(tag));
    }
  }
}
