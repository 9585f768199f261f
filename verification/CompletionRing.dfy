// The completion queue of the PCIe driver: the device posts entries with a phase
// tag (section 4.6 of NVM Express 1.4), the driver takes them off and handles them,
// possibly in several contexts at once.
module CompletionRing {
  import opened Arith
  import opened Options
  import opened Seqs

  datatype Cqe = Cqe(command: nat, phase: nat)

  // Entries handed out to a context and not handled yet: next up to end.
  datatype Range = Range(next: nat, end: nat)

  // An entry handled: its number, the number of the posting that was read for it (-1
  // for the zeros of the allocation), and the command found there.
  datatype Handling = Handling(entry: nat, read: int, command: nat)

  // The shared ring, with the number of the posting that lies in each slot, and what
  // has happened to it: what the device has posted, how many entries the driver has
  // taken, how many of them it has handed out and given back by the doorbell, the
  // ranges under way and the entries handled.
  datatype Queue = Queue(
    depth: nat,
    cqes: seq<Cqe>,
    lies: seq<int>,
    head: nat,
    phase: nat,
    posted: seq<nat>,
    taken: nat,
    rung: nat,
    ranges: seq<Range>,
    handled: seq<Handling>)
  {
    ghost predicate Valid() {
      && 2 <= depth < 0x1_0000 && |cqes| == |lies| == depth && head < depth
      && SlotsHold(cqes, lies, posted, depth)
      && head == Slot(taken, depth) && phase == PhaseOf(taken, depth)
      && rung <= taken <= |posted| < rung + depth
      && (forall r | r in ranges :: r.next < r.end <= rung)
    }

    predicate Pending()
      requires head < |cqes|
    {
      cqes[head].phase == phase
    }
  }

  // The tag the device puts on the entry it posts as number j: 1 in the first
  // round, inverted in each following one.
  function PhaseOf(j: nat, depth: nat): nat
    requires depth > 0
  {
    if j / depth % 2 == 0 then 1 else 0
  }

  // Each slot holds the last entry posted to it, or the zeros of the allocation.
  ghost predicate SlotsHold(cqes: seq<Cqe>, lies: seq<int>, posted: seq<nat>, depth: nat)
    requires depth > 0
  {
    && |cqes| == |lies| == depth
    && (forall k | 0 <= k < depth && lies[k] >= 0 ::
          lies[k] < |posted| && Slot(lies[k], depth) == k && cqes[k] == Cqe(posted[lies[k]], PhaseOf(lies[k], depth)))
    && (forall j | 0 <= j < |posted| :: lies[Slot(j, depth)] >= j)
    && (forall j | 0 <= j < |posted| && |posted| <= j + depth :: lies[Slot(j, depth)] == j)
    && (forall k | |posted| <= k < depth :: lies[k] == -1 && cqes[k] == Cqe(0, 0))
  }

  // ---- Steps ----

  function Init(depth: nat): Queue
    requires depth > 0
  {
    Queue(depth, seq(depth, i => Cqe(0, 0)), seq(depth, i => -1), 0, 1, [], 0, 0, [], [])
  }

  // The device: it posts only while it has not posted all but one of the slots
  // since the last doorbell.
  function Post(q: Queue, command: nat): Queue
    requires q.depth > 0 && |q.cqes| == |q.lies| == q.depth
  {
    var p := |q.posted|;
    var k := Slot(p, q.depth);
    q.(cqes := q.cqes[k := Cqe(command, PhaseOf(p, q.depth))], lies := q.lies[k := p], posted := q.posted + [command])
  }

  predicate Room(q: Queue) {
    |q.posted| < q.rung + q.depth - 1
  }

  // The driver's side: nvme_update_cq_head,
  function Take(q: Queue): Queue {
    if q.head == q.depth - 1 then
      q.(head := 0, phase := if q.phase == 0 then 1 else 0, taken := q.taken + 1)
    else
      q.(head := q.head + 1, taken := q.taken + 1)
  }

  // nvme_ring_cq_doorbell, and handing out what was taken since the last time,
  function Ring(q: Queue): Queue {
    q.(rung := q.taken, ranges := q.ranges + [Range(q.rung, q.taken)])
  }

  // nvme_handle_cqe for the next entry of the i-th range under way.
  function Handle(q: Queue, i: nat): Queue
    requires i < |q.ranges| && q.depth > 0 && |q.cqes| == |q.lies| == q.depth
  {
    var r := q.ranges[i];
    var k := Slot(r.next, q.depth);
    q.(ranges := if r.next + 1 == r.end then q.ranges[..i] + q.ranges[i + 1..]
                 else q.ranges[i := r.(next := r.next + 1)],
       handled := q.handled + [Handling(r.next, q.lies[k], q.cqes[k].command)])
  }

  lemma InitValid(depth: nat)
    requires 2 <= depth < 0x1_0000
    ensures Init(depth).Valid()
  {
    assert 0 % depth == 0 && 0 / depth == 0 by { DivUnique(0, depth, 0, 0); }
  }

  lemma PostHolds(cqes: seq<Cqe>, lies: seq<int>, posted: seq<nat>, depth: nat, command: nat)
    requires depth > 0 && SlotsHold(cqes, lies, posted, depth)
    ensures
      var p := |posted|;
      var k := Slot(p, depth);
      SlotsHold(cqes[k := Cqe(command, PhaseOf(p, depth))], lies[k := p], posted + [command], depth)
  {
    var p := |posted|;
    var lies' := lies[Slot(p, depth) := p];
    forall j | 0 <= j <= p
      ensures lies'[Slot(j, depth)] >= j && (p + 1 <= j + depth ==> lies'[Slot(j, depth)] == j)
    {
      if j < p && p < j + depth {
        ModApart(j, p, depth);
      }
    }
    if p < depth {
      DivUnique(p, depth, 0, p);
    }
  }

  lemma PostValid(q: Queue, command: nat)
    requires q.Valid() && Room(q)
    ensures Post(q, command).Valid()
  {
    hide SlotsHold;
    PostHolds(q.cqes, q.lies, q.posted, q.depth, command);
  }

  lemma SlotPhase(cqes: seq<Cqe>, lies: seq<int>, posted: seq<nat>, depth: nat, k: nat)
    requires depth > 0 && SlotsHold(cqes, lies, posted, depth) && k <= |posted| <= k + depth
    ensures cqes[Slot(k, depth)].phase == PhaseOf(k, depth) <==> k < |posted|
  {
    if k == |posted| {
      if k < depth {
        DivUnique(k, depth, 0, k);
      } else {
        ModRound(k - depth, depth);
        var l := k - depth;
        assert PhaseOf(l, depth) != PhaseOf(k, depth);
        assert lies[Slot(l, depth)] == l;
      }
    } else {
      assert lies[Slot(k, depth)] == k;
    }
  }

  // The phase test accepts exactly the entries posted but not taken, in any round.
  lemma PendingExact(q: Queue)
    requires q.Valid()
    ensures q.Pending() <==> q.taken < |q.posted|
  {
    SlotPhase(q.cqes, q.lies, q.posted, q.depth, q.taken);
  }

  lemma TakeValid(q: Queue)
    requires q.Valid() && q.Pending()
    ensures Take(q).Valid()
  {
    hide SlotsHold;
    PendingExact(q);
    ModStep(q.taken, q.depth);
  }

  // What nvme_handle_cqe reads for entry j: the last entry that was posted to its
  // slot, which is entry j exactly when no more than a round has been posted since.
  lemma HandleReads(cqes: seq<Cqe>, lies: seq<int>, posted: seq<nat>, depth: nat, j: nat)
    requires depth > 0 && SlotsHold(cqes, lies, posted, depth) && j < |posted|
    ensures var k := Slot(j, depth);
      && j <= lies[k] < |posted| && Slot(lies[k], depth) == k && cqes[k].command == posted[lies[k]]
      && (lies[k] == j <==> |posted| <= j + depth)
  {
    if |posted| > j + depth {
      ModRound(j, depth);
      assert lies[Slot(j + depth, depth)] >= j + depth;
    }
  }

  lemma HandleValid(q: Queue, i: nat)
    requires q.Valid() && i < |q.ranges|
    ensures Handle(q, i).Valid()
  {
    hide SlotsHold;
    var r := q.ranges[i];
    assert r in q.ranges;
    forall s | s in Handle(q, i).ranges
      ensures s.next < s.end <= q.rung
    {
      assert s in q.ranges || s == r.(next := r.next + 1);
    }
  }

  // ---- Runs ----

  datatype Step = DevicePosts(command: nat) | HostTakes | HostRings | HostHandles(context: nat)

  // tags: the device posts only for commands that hold a tag, of which there are one
  // fewer than slots, and a tag is given up when its completion is handled. alone: a
  // context hands out a range only when no other is under way.
  datatype Rules = Rules(tags: bool, alone: bool)

  predicate Enabled(q: Queue, s: Step, rules: Rules)
    requires q.head < |q.cqes|
  {
    match s
    case DevicePosts(_) => Room(q) && (rules.tags ==> |q.posted| - |q.handled| < q.depth - 1)
    case HostTakes => q.Pending()
    case HostRings => q.rung < q.taken && (rules.alone ==> q.ranges == [])
    case HostHandles(i) => i < |q.ranges|
  }

  predicate Ready(q: Queue, s: Step) {
    q.depth > 0 && |q.cqes| == |q.lies| == q.depth && (s.HostHandles? ==> s.context < |q.ranges|)
  }

  lemma EnabledReady(q: Queue, s: Step, rules: Rules)
    requires q.Valid() && Enabled(q, s, rules)
    ensures Ready(q, s)
  {
  }

  function Next(q: Queue, s: Step): Queue
    requires Ready(q, s)
  {
    match s
    case DevicePosts(c) => Post(q, c)
    case HostTakes => Take(q)
    case HostRings => Ring(q)
    case HostHandles(i) => Handle(q, i)
  }

  ghost predicate Reaches(q: Queue, run: seq<Step>, r: Queue, rules: Rules)
    decreases |run|
  {
    if run == [] then r == q
    else q.Valid() && Enabled(q, run[0], rules) && Reaches(Next(q, run[0]), run[1..], r, rules)
  }

  lemma RingValid(q: Queue)
    requires q.Valid() && q.rung < q.taken
    ensures Ring(q).Valid()
  {
    hide SlotsHold;
  }

  lemma NextValid(q: Queue, s: Step, rules: Rules)
    requires q.Valid() && Enabled(q, s, rules)
    ensures Next(q, s).Valid()
  {
    match s
    case DevicePosts(c) => PostValid(q, c);
    case HostTakes => TakeValid(q);
    case HostRings => RingValid(q);
    case HostHandles(i) => HandleValid(q, i);
  }

  // ---- Each entry once ----

  function InRanges(ranges: seq<Range>, j: nat): nat {
    if ranges == [] then 0 else (if ranges[0].next <= j < ranges[0].end then 1 else 0) + InRanges(ranges[1..], j)
  }

  function Entries(handled: seq<Handling>): (s: seq<nat>)
    ensures |s| == |handled|
  {
    seq(|handled|, i requires 0 <= i < |handled| => handled[i].entry)
  }

  // Every entry handed out is in one context's range or was handled, once.
  ghost predicate Accounted(q: Queue) {
    forall j: nat :: InRanges(q.ranges, j) + Occ(Entries(q.handled), j) == if j < q.rung then 1 else 0
  }

  lemma {:induction false} InRangesAppend(a: seq<Range>, b: seq<Range>, j: nat)
    ensures InRanges(a + b, j) == InRanges(a, j) + InRanges(b, j)
  {
    if a == [] {
      assert a + b == b;
    } else {
      InRangesAppend(a[1..], b, j);
      assert (a + b)[1..] == a[1..] + b;
    }
  }

  lemma InRangesOne(r: Range, j: nat)
    ensures InRanges([r], j) == if r.next <= j < r.end then 1 else 0
  {
    assert [r][1..] == [];
  }

  lemma InRangesAt(ranges: seq<Range>, i: nat, j: nat)
    requires i < |ranges|
    ensures InRanges(ranges, j) ==
      InRanges(ranges[..i], j) + (if ranges[i].next <= j < ranges[i].end then 1 else 0) + InRanges(ranges[i + 1..], j)
  {
    assert ranges == ranges[..i] + ([ranges[i]] + ranges[i + 1..]);
    InRangesAppend(ranges[..i], [ranges[i]] + ranges[i + 1..], j);
    InRangesAppend([ranges[i]], ranges[i + 1..], j);
    InRangesOne(ranges[i], j);
  }

  lemma HandleAccounted(q: Queue, i: nat, j: nat)
    requires i < |q.ranges| && q.depth > 0 && |q.cqes| == |q.lies| == q.depth && q.ranges[i].next < q.ranges[i].end
    ensures var n := Handle(q, i);
      InRanges(n.ranges, j) + Occ(Entries(n.handled), j) == InRanges(q.ranges, j) + Occ(Entries(q.handled), j)
  {
    hide InRanges, Occ;
    var n, r := Handle(q, i), q.ranges[i];
    InRangesAt(q.ranges, i, j);
    if r.next + 1 == r.end {
      InRangesAppend(q.ranges[..i], q.ranges[i + 1..], j);
    } else {
      InRangesAt(n.ranges, i, j);
      assert n.ranges[..i] == q.ranges[..i] && n.ranges[i + 1..] == q.ranges[i + 1..];
    }
    assert Entries(n.handled) == Entries(q.handled) + [r.next];
    OccAppend(Entries(q.handled), [r.next], j);
    OccOne(r.next, j);
  }

  lemma NextAccounted(q: Queue, s: Step, rules: Rules)
    requires q.Valid() && Accounted(q) && Enabled(q, s, rules)
    ensures Accounted(Next(q, s))
  {
    hide SlotsHold, InRanges, Occ, Entries;
    if s.HostRings? {
      forall j: nat
        ensures InRanges(Ring(q).ranges, j) == InRanges(q.ranges, j) + if q.rung <= j < q.taken then 1 else 0
      {
        InRangesAppend(q.ranges, [Range(q.rung, q.taken)], j);
        InRangesOne(Range(q.rung, q.taken), j);
      }
    } else if s.HostHandles? {
      assert q.ranges[s.context] in q.ranges;
      forall j: nat
        ensures var n := Next(q, s);
          InRanges(n.ranges, j) + Occ(Entries(n.handled), j) == InRanges(q.ranges, j) + Occ(Entries(q.handled), j)
      {
        HandleAccounted(q, s.context, j);
      }
    }
  }

  lemma {:induction false} RunAccounted(q: Queue, run: seq<Step>, r: Queue, rules: Rules)
    requires q.Valid() && Accounted(q) && Reaches(q, run, r, rules)
    ensures r.Valid() && Accounted(r)
    decreases |run|
  {
    hide Accounted, Next, Enabled, Queue.Valid, Ready;
    if run != [] {
      EnabledReady(q, run[0], rules);
      NextValid(q, run[0], rules);
      NextAccounted(q, run[0], rules);
      RunAccounted(Next(q, run[0]), run[1..], r, rules);
    }
  }

  // However many contexts complete their ranges beside one another, no entry is
  // handled twice, and one that is in no range any more was handled.
  lemma EachEntryOnce(depth: nat, run: seq<Step>, q: Queue, rules: Rules, j: nat)
    requires 2 <= depth < 0x1_0000 && Reaches(Init(depth), run, q, rules)
    ensures InRanges(q.ranges, j) + Occ(Entries(q.handled), j) == if j < q.rung then 1 else 0
    ensures q.rung <= q.taken <= |q.posted|
  {
    hide Reaches, SlotsHold;
    InitValid(depth);
    RunAccounted(Init(depth), run, q, rules);
  }

  // ---- Each entry as posted ----

  // Each entry is handled before more than a round has been posted on top of it.
  ghost predicate InTime(q: Queue, run: seq<Step>)
    decreases |run|
  {
    run == [] ||
    (Ready(q, run[0])
     && (run[0].HostHandles? ==> |q.posted| <= q.ranges[run[0].context].next + q.depth)
     && InTime(Next(q, run[0]), run[1..]))
  }

  // Every handling read the posting of its own entry.
  predicate Right(handled: seq<Handling>) {
    forall h | h in handled :: h.read == h.entry
  }

  lemma {:induction false} RunGrows(q: Queue, run: seq<Step>, r: Queue, rules: Rules)
    requires Reaches(q, run, r, rules)
    ensures q.handled <= r.handled && q.posted <= r.posted
    decreases |run|
  {
    hide Queue.Valid, SlotsHold, Enabled;
    if run != [] {
      EnabledReady(q, run[0], rules);
      RunGrows(Next(q, run[0]), run[1..], r, rules);
    }
  }

  lemma {:induction false} RunRight(q: Queue, run: seq<Step>, r: Queue, rules: Rules)
    requires q.Valid() && Right(q.handled) && Reaches(q, run, r, rules)
    ensures Right(r.handled) <==> InTime(q, run)
    decreases |run|
  {
    hide SlotsHold, Enabled, Queue.Pending, Slot;
    if run != [] {
      EnabledReady(q, run[0], rules);
      var n := Next(q, run[0]);
      NextValid(q, run[0], rules);
      RunGrows(n, run[1..], r, rules);
      if run[0].HostHandles? {
        HandledRight(q, run[0].context);
        if !Right(n.handled) {
          var h :| h in n.handled && h.read != h.entry;
          assert h in r.handled;
        } else {
          RunRight(n, run[1..], r, rules);
        }
      } else {
        RunRight(n, run[1..], r, rules);
      }
    }
  }

  // Whatever the device posts within the doorbell, and however many contexts are at
  // work: every handling reads its own entry exactly when each comes in time.
  lemma RunExact(depth: nat, run: seq<Step>, q: Queue, rules: Rules)
    requires 2 <= depth < 0x1_0000 && Reaches(Init(depth), run, q, rules)
    ensures Right(q.handled) <==> InTime(Init(depth), run)
  {
    hide Reaches, InTime;
    InitValid(depth);
    RunRight(Init(depth), run, q, rules);
  }

  lemma HandledRight(q: Queue, i: nat)
    requires q.Valid() && Right(q.handled) && i < |q.ranges|
    ensures Right(Handle(q, i).handled) <==> |q.posted| <= q.ranges[i].next + q.depth
  {
    hide SlotsHold;
    var r := q.ranges[i];
    assert r in q.ranges;
    HandleReads(q.cqes, q.lies, q.posted, q.depth, r.next);
    var h := Handling(r.next, q.lies[Slot(r.next, q.depth)], q.cqes[Slot(r.next, q.depth)].command);
    assert h in Handle(q, i).handled;
    assert forall g | g in Handle(q, i).handled :: g == h || g in q.handled;
  }

  // ---- One context at a time, and tags ----

  // What was handled so far is what was posted first, and every entry not handled
  // yet still lies in its slot.
  ghost predicate InOrder(q: Queue) {
    && |q.handled| <= q.rung
    && |q.posted| < |q.handled| + q.depth
    && q.ranges == (if |q.handled| == q.rung then [] else [Range(|q.handled|, q.rung)])
    && |q.handled| <= |q.posted|
    && (forall j | 0 <= j < |q.handled| :: q.handled[j] == Handling(j, j, q.posted[j]))
  }

  lemma HandleInOrder(q: Queue)
    requires q.Valid() && InOrder(q) && q.ranges != []
    ensures InOrder(Handle(q, 0)) && Handle(q, 0).handled[|q.handled|].command == q.posted[|q.handled|]
  {
    hide SlotsHold;
    HandleReads(q.cqes, q.lies, q.posted, q.depth, |q.handled|);
  }

  lemma NextInOrder(q: Queue, s: Step)
    requires q.Valid() && InOrder(q) && Enabled(q, s, Rules(true, true))
    ensures InOrder(Next(q, s))
  {
    hide SlotsHold;
    if s.HostHandles? {
      HandleInOrder(q);
    }
  }

  lemma {:induction false} InOrderKept(q: Queue, run: seq<Step>, r: Queue)
    requires q.Valid() && InOrder(q) && Reaches(q, run, r, Rules(true, true))
    ensures r.Valid() && InOrder(r)
    decreases |run|
  {
    hide InOrder, Next, Enabled, Queue.Valid, Ready;
    if run != [] {
      EnabledReady(q, run[0], Rules(true, true));
      NextValid(q, run[0], Rules(true, true));
      NextInOrder(q, run[0]);
      InOrderKept(Next(q, run[0]), run[1..], r);
    }
  }

  // Over any run, of any number of rounds, each completion posted is handled once
  // and in the order of posting.
  lemma RunInOrder(depth: nat, run: seq<Step>, q: Queue)
    requires 2 <= depth < 0x1_0000 && Reaches(Init(depth), run, q, Rules(true, true))
    ensures |q.handled| <= |q.posted| < |q.handled| + depth
    ensures forall j | 0 <= j < |q.handled| :: q.handled[j] == Handling(j, j, q.posted[j])
    ensures q.ranges == [] ==> |q.handled| == q.rung
  {
    hide Reaches, SlotsHold;
    InitValid(depth);
    InOrderKept(Init(depth), run, q);
    DepthKept(Init(depth), run, q, Rules(true, true));
  }

  lemma {:induction false} DepthKept(q: Queue, run: seq<Step>, r: Queue, rules: Rules)
    requires q.Valid() && Reaches(q, run, r, rules)
    ensures r.depth == q.depth
    decreases |run|
  {
    hide Queue.Valid, SlotsHold, Enabled;
    if run != [] {
      EnabledReady(q, run[0], rules);
      NextValid(q, run[0], rules);
      DepthKept(Next(q, run[0]), run[1..], r, rules);
    }
  }

  // ---- What is not enough ----

  lemma StepThen(q: Queue, s: Step, run: seq<Step>, r: Queue, rules: Rules)
    requires q.Valid() && Enabled(q, s, rules) && Reaches(Next(q, s), run, r, rules)
    ensures Reaches(q, [s] + run, r, rules)
  {
    assert ([s] + run)[1..] == run;
  }

  // A run in the other direction: one more step at its end.
  lemma {:induction false} ThenStep(q: Queue, run: seq<Step>, r: Queue, s: Step, rules: Rules)
    requires Reaches(q, run, r, rules) && r.Valid() && Enabled(r, s, rules)
    ensures Reaches(q, run + [s], Next(r, s), rules) && Next(r, s).Valid()
    decreases |run|
  {
    hide Next, Enabled, Queue.Valid, Ready;
    EnabledReady(r, s, rules);
    NextValid(r, s, rules);
    if run == [] {
      assert [] + [s] == [s] + [];
      StepThen(q, s, [], Next(r, s), rules);
    } else {
      EnabledReady(q, run[0], rules);
      ThenStep(Next(q, run[0]), run[1..], r, s, rules);
      assert (run + [s])[1..] == run[1..] + [s];
    }
  }

  lemma ThenTakes(q: Queue, run: seq<Step>, r: Queue, rules: Rules)
    requires Reaches(q, run, r, rules) && r.Valid() && r.taken < |r.posted|
    ensures Reaches(q, run + [HostTakes], Take(r), rules) && Take(r).Valid()
  {
    hide Reaches, Queue.Valid, SlotsHold, Take, Queue.Pending;
    ValidHead(r);
    PendingExact(r);
    ThenStep(q, run, r, HostTakes, rules);
  }

  lemma ValidHead(q: Queue)
    requires q.Valid()
    ensures q.head < |q.cqes| == |q.lies| == q.depth
  {
  }

  // A context takes an entry and hands it out.
  lemma ThenTakesOut(q: Queue, run: seq<Step>, r: Queue, rules: Rules)
    requires Reaches(q, run, r, rules) && r.Valid() && r.rung == r.taken < |r.posted| && (rules.alone ==> r.ranges == [])
    ensures Reaches(q, (run + [HostTakes]) + [HostRings], Ring(Take(r)), rules) && Ring(Take(r)).Valid()
  {
    hide Reaches, Queue.Valid, SlotsHold, Queue.Pending;
    ThenTakes(q, run, r, rules);
    ValidHead(Take(r));
    ThenStep(q, run + [HostTakes], Take(r), HostRings, rules);
  }

  lemma ThenPosts(q: Queue, run: seq<Step>, r: Queue, command: nat, rules: Rules)
    requires Reaches(q, run, r, rules) && r.Valid() && Room(r)
    requires rules.tags ==> |r.posted| - |r.handled| < r.depth - 1
    ensures |r.cqes| == |r.lies| == r.depth > 0
    ensures Reaches(q, run + [DevicePosts(command)], Post(r, command), rules) && Post(r, command).Valid()
  {
    hide Reaches, SlotsHold;
    ThenStep(q, run, r, DevicePosts(command), rules);
  }

  lemma ThenHandles(q: Queue, run: seq<Step>, r: Queue, i: nat, rules: Rules)
    requires Reaches(q, run, r, rules) && r.Valid() && i < |r.ranges|
    ensures |r.cqes| == |r.lies| == r.depth > 0
    ensures Reaches(q, run + [HostHandles(i)], Handle(r, i), rules) && Handle(r, i).Valid()
  {
    hide Reaches, SlotsHold;
    ThenStep(q, run, r, HostHandles(i), rules);
  }

  // Entry 0 of a queue of three is read after posting 3 came to lie on it.
  lemma ReadsPosting3(q: Queue, i: nat)
    requires q.Valid() && q.depth == 3 && |q.posted| == 4 && i < |q.ranges| && q.ranges[i].next == 0
    ensures Handle(q, i).handled == q.handled + [Handling(0, 3, q.posted[3])]
  {
    HandleReads(q.cqes, q.lies, q.posted, 3, 0);
  }

  // The doorbell alone does not protect an entry: it is rung before the entries are
  // handled. A device that keeps to Room but not to the tags overwrites one, and the
  // driver ends command 1 in place of command 0.
  lemma DoorbellNotEnough() returns (run: seq<Step>, r: Queue)
    ensures Reaches(Init(3), run, r, Rules(false, true)) && r.Valid() && r.posted == [0, 1, 2, 1]
    ensures r.handled == [Handling(0, 3, 1)]
  {
    hide Reaches, Queue.Valid, SlotsHold, Slot, PhaseOf;
    var rules, q0 := Rules(false, true), Init(3);
    InitValid(3);
    NoSteps(q0, rules);
    run := [];
    ThenPosts(q0, run, q0, 0, rules);
    var q1 := Post(q0, 0);
    run := run + [DevicePosts(0)];
    ThenPosts(q0, run, q1, 1, rules);
    var q2 := Post(q1, 1);
    run := run + [DevicePosts(1)];
    ThenTakes(q0, run, q2, rules);
    run := run + [HostTakes];
    ThenTakes(q0, run, Take(q2), rules);
    var q4 := Take(Take(q2));
    run := run + [HostTakes];
    ValidHead(q4);
    ThenStep(q0, run, q4, HostRings, rules);
    var q5 := Ring(q4);
    run := run + [HostRings];
    ThenPosts(q0, run, q5, 2, rules);
    var q6 := Post(q5, 2);
    run := run + [DevicePosts(2)];
    ThenPosts(q0, run, q6, 1, rules);
    var q7 := Post(q6, 1);
    run := run + [DevicePosts(1)];
    ThenHandles(q0, run, q7, 0, rules);
    ReadsPosting3(q7, 0);
    run, r := run + [HostHandles(0)], Handle(q7, 0);
  }

  lemma NoSteps(q: Queue, rules: Rules)
    ensures Reaches(q, [], q, rules)
  {
  }

  // Nor do the tags, when a second context overtakes the one that holds entry 0:
  // nvme_poll_irqdisable handles its range beside the interrupt.
  lemma TagsNotEnoughForTwo() returns (run: seq<Step>, r: Queue)
    ensures Reaches(Init(3), run, r, Rules(true, false)) && r.Valid() && r.posted == [0, 1, 1, 1]
    ensures r.handled == [Handling(1, 1, 1), Handling(2, 2, 1), Handling(0, 3, 1)]
  {
    hide Reaches, Queue.Valid, SlotsHold, Slot, PhaseOf;
    var rules, q0, q := Rules(true, false), Init(3), Init(3);
    run, q := Overtaken();
    ThenPosts(q0, run, q, 1, rules);
    var p := Post(q, 1);
    run := run + [DevicePosts(1)];
    ThenHandles(q0, run, p, 0, rules);
    ReadsPosting3(p, 0);
    run, r := run + [HostHandles(0)], Handle(p, 0);
  }

  // The second context handles entries 1 and 2 while the first still holds entry 0.
  lemma Overtaken() returns (run: seq<Step>, q: Queue)
    ensures Reaches(Init(3), run, q, Rules(true, false)) && q.Valid() && q.depth == 3 && q.posted == [0, 1, 1]
    ensures q.taken == q.rung == 3 && q.ranges == [Range(0, 1)]
    ensures q.handled == [Handling(1, 1, 1), Handling(2, 2, 1)]
  {
    hide Reaches, Queue.Valid, SlotsHold, Slot, PhaseOf;
    var rules, q0 := Rules(true, false), Init(3);
    run, q := TwoContexts();
    ThenHandles(q0, run, q, 1, rules);
    ReadsOwn(q, 1);
    q := Handle(q, 1);
    run := run + [HostHandles(1)];
    ThenPosts(q0, run, q, 1, rules);
    q := Post(q, 1);
    run := run + [DevicePosts(1)];
    ThenTakesOut(q0, run, q, rules);
    q := Ring(Take(q));
    run := (run + [HostTakes]) + [HostRings];
    assert q.ranges == [Range(0, 1), Range(2, 3)];
    ThenHandles(q0, run, q, 1, rules);
    ReadsOwn(q, 1);
    q := Handle(q, 1);
    run := run + [HostHandles(1)];
  }

  lemma ReadsOwn(q: Queue, i: nat)
    requires q.Valid() && i < |q.ranges| && q.ranges[i] in q.ranges && |q.posted| <= q.ranges[i].next + q.depth
    ensures var j := q.ranges[i].next; j < |q.posted| && Handle(q, i).handled == q.handled + [Handling(j, j, q.posted[j])]
  {
    HandleReads(q.cqes, q.lies, q.posted, q.depth, q.ranges[i].next);
  }

  lemma TwoContexts() returns (run: seq<Step>, q: Queue)
    ensures Reaches(Init(3), run, q, Rules(true, false)) && q.Valid() && q.depth == 3 && q.posted == [0, 1]
    ensures q.taken == q.rung == 2 && q.ranges == [Range(0, 1), Range(1, 2)] && q.handled == []
  {
    hide Reaches, Queue.Valid, SlotsHold, Slot, PhaseOf;
    var rules, q0 := Rules(true, false), Init(3);
    InitValid(3);
    NoSteps(q0, rules);
    run := [];
    ThenPosts(q0, run, q0, 0, rules);
    var q1 := Post(q0, 0);
    run := run + [DevicePosts(0)];
    ThenTakesOut(q0, run, q1, rules);
    var q3 := Ring(Take(q1));
    run := (run + [HostTakes]) + [HostRings];
    ThenPosts(q0, run, q3, 1, rules);
    var q4 := Post(q3, 1);
    run := run + [DevicePosts(1)];
    ThenTakesOut(q0, run, q4, rules);
    q := Ring(Take(q4));
    run := (run + [HostTakes]) + [HostRings];
  }

  // ---- The driver's code ----

  function Count(commands: seq<nat>, tag: Option<nat>): nat {
    if commands == [] then 0
    else Count(commands[..|commands| - 1], tag) + if tag.None? || commands[|commands| - 1] == tag.value then 1 else 0
  }

  datatype Outcome = Dropped(command: nat) | AsyncEvent(command: nat) | Ended(command: nat)

  function Dispatch(qid: nat, depth: nat, aqBlkMqDepth: nat, command: nat): Outcome {
    if command >= depth then Dropped(command)
    else if qid == 0 && command >= aqBlkMqDepth then AsyncEvent(command)
    else Ended(command)
  }

  // The commands of a list from lo up to hi, in order.
  function Picks(commands: seq<nat>, lo: nat, hi: nat): seq<nat> {
    if commands == [] then []
    else
      var last := commands[|commands| - 1];
      Picks(commands[..|commands| - 1], lo, hi) + if lo <= last < hi then [last] else []
  }

  // The commands ended, and those passed on as asynchronous events, in order.
  function EndedOf(outcomes: seq<Outcome>): seq<nat> {
    if outcomes == [] then []
    else
      var last := outcomes[|outcomes| - 1];
      EndedOf(outcomes[..|outcomes| - 1]) + if last.Ended? then [last.command] else []
  }

  function AsyncOf(outcomes: seq<Outcome>): seq<nat> {
    if outcomes == [] then []
    else
      var last := outcomes[|outcomes| - 1];
      AsyncOf(outcomes[..|outcomes| - 1]) + if last.AsyncEvent? then [last.command] else []
  }

  // What that comes to: on an I/O queue the commands below the depth are ended; on the
  // admin queue those below the request tags too, and the others are events.
  lemma {:induction false} DispatchMeaning(qid: nat, depth: nat, aqBlkMqDepth: nat, commands: seq<nat>, outcomes: seq<Outcome>)
    requires |outcomes| == |commands|
    requires forall k | 0 <= k < |commands| :: outcomes[k] == Dispatch(qid, depth, aqBlkMqDepth, commands[k])
    ensures EndedOf(outcomes) == Picks(commands, 0, if qid == 0 then Min(depth, aqBlkMqDepth) else depth)
    ensures AsyncOf(outcomes) == if qid == 0 then Picks(commands, aqBlkMqDepth, depth) else []
    decreases |commands|
  {
    if commands != [] {
      DispatchMeaning(qid, depth, aqBlkMqDepth, commands[..|commands| - 1], outcomes[..|commands| - 1]);
    }
  }

  // Entries found for a poller: those of its tag, or all.
  lemma {:induction false} CountMeaning(commands: seq<nat>, tag: Option<nat>)
    ensures Count(commands, tag) == if tag.None? then |commands| else Occ(commands, tag.value)
    decreases |commands|
  {
    if commands != [] {
      var n := |commands| - 1;
      CountMeaning(commands[..n], tag);
      if tag.Some? {
        assert commands == commands[..n] + [commands[n]];
        OccAppend(commands[..n], [commands[n]], tag.value);
        OccOne(commands[n], tag.value);
      }
    }
  }

  lemma CountNone(tag: Option<nat>)
    ensures Count([], tag) == 0
  {
  }

  lemma PrefixSlice(s: seq<nat>, t: seq<nat>, a: nat, b: nat)
    requires s <= t && a <= b <= |s|
    ensures s[a..b] == t[a..b]
  {
  }

  lemma CountNext(posted: seq<nat>, a: nat, b: nat, tag: Option<nat>)
    requires a <= b < |posted|
    ensures Count(posted[a..b + 1], tag) == Count(posted[a..b], tag) + if tag.None? || posted[b] == tag.value then 1 else 0
  {
    assert posted[a..b + 1][..b - a] == posted[a..b];
  }

  function Commands(handled: seq<Handling>): (s: seq<nat>)
    ensures |s| == |handled|
  {
    seq(|handled|, i requires 0 <= i < |handled| => handled[i].command)
  }

  lemma RingInOrder(q: Queue)
    requires q.Valid() && InOrder(q) && q.ranges == [] && q.rung < q.taken
    ensures InOrder(Ring(q))
  {
  }

  lemma NoRange(q: Queue)
    requires InOrder(q) && |q.handled| == q.rung
    ensures q.ranges == []
  {
  }

  lemma CommandsInOrder(q: Queue)
    requires InOrder(q)
    ensures Commands(q.handled) == q.posted[..|q.handled|]
  {
  }

  class CompletionQueue {
    const qDepth: nat
    const qid: nat
    const aqBlkMqDepth: nat
    const cqes: array<Cqe>
    var cqHead: nat
    var lastCqHead: nat
    var cqPhase: nat
    // The device's side: what it has posted, and the entries the doorbell told it
    // it may use again.
    var posted: seq<nat>
    var rung: nat
    var taken: nat
    var handled: seq<Handling>
    // Which posting lies in which slot, and the range handed out.
    var lies: seq<int>
    ghost var ranges: seq<Range>
    // What became of the handled commands.
    var outcomes: seq<Outcome>

    ghost function Abs(): Queue
      reads this, cqes
    {
      Queue(qDepth, cqes[..], lies, cqHead, cqPhase, posted, taken, rung, ranges, handled)
    }

    // nvme_alloc_queue and nvme_init_queue
    constructor (qid: nat, depth: nat, aqBlkMqDepth: nat)
      requires 2 <= depth < 0x1_0000
      ensures Abs() == Init(depth) && Abs().Valid() && InOrder(Abs()) && outcomes == [] && fresh(cqes)
    {
      this.qid, qDepth, this.aqBlkMqDepth, outcomes := qid, depth, aqBlkMqDepth, [];
      cqes := new Cqe[depth](i => Cqe(0, 0));
      cqHead, lastCqHead, cqPhase := 0, 0, 1;
      posted, taken, rung, handled := [], 0, 0, [];
      lies, ranges := seq(depth, i => -1), [];
      new;
      assert Abs() == Init(depth);
      InitValid(depth);
    }

    lemma Basics()
      requires Abs().Valid()
      ensures 2 <= qDepth == cqes.Length == |lies| && cqHead < qDepth && cqHead == Slot(taken, qDepth)
      ensures rung <= taken <= |posted| < rung + qDepth
    {
    }

    // The environment: the device posts a completion.
    method DevicePosts(command: nat)
      requires Abs().Valid() && Room(Abs())
      modifies this`posted, this`lies, cqes
      ensures Abs() == Post(old(Abs()), command) && Abs().Valid()
    {
      hide SlotsHold, Slot, PhaseOf, Queue.Valid;
      Basics();
      PostValid(Abs(), command);
      var slot := Slot(|posted|, qDepth);
      cqes[slot] := Cqe(command, PhaseOf(|posted|, qDepth));
      lies := lies[slot := |posted|];
      posted := posted + [command];
      assert Abs() == Post(old(Abs()), command);
    }

    predicate CqePending()
      requires cqHead < cqes.Length
      reads this, cqes
    {
      cqes[cqHead].phase == cqPhase
    }

    method UpdateCqHead()
      requires Abs().Valid() && Abs().Pending()
      modifies this`cqHead, this`cqPhase, this`taken
      ensures Abs() == Take(old(Abs())) && Abs().Valid()
      ensures old(InOrder(Abs())) ==> InOrder(Abs())
    {
      hide SlotsHold;
      TakeValid(Abs());
      if cqHead == qDepth - 1 {
        cqHead := 0;
        cqPhase := if cqPhase == 0 then 1 else 0;
      } else {
        cqHead := cqHead + 1;
      }
      taken := taken + 1;
      assert Abs() == Take(old(Abs()));
    }

    // arrivals[k] is what the device posts before the k-th look at the ring.
    method ProcessCq(tag: Option<nat>, arrivals: seq<Option<nat>>) returns (start: nat, end: nat, found: nat)
      requires Abs().Valid() && InOrder(Abs()) && |handled| == rung == taken
      modifies this`cqHead, this`cqPhase, this`taken, this`posted, this`lies, this`rung, this`ranges, cqes
      ensures Abs().Valid() && InOrder(Abs())
      ensures old(posted) <= posted && taken == |posted|
      ensures rung == if taken == old(taken) then old(rung) else taken
      ensures start == Slot(old(taken), qDepth) && end == Slot(taken, qDepth)
      ensures old(taken) <= taken < old(taken) + qDepth && (start == end <==> taken == old(taken))
      ensures found == if tag.None? then taken - old(taken) else Occ(posted[old(taken)..], tag.value)
    {
      hide SlotsHold, Slot, PhaseOf, Count, Queue.Valid, Queue.Pending, InOrder;
      Basics();
      start := cqHead;
      found := TakePending(tag, arrivals);
      CountMeaning(posted[old(taken)..], tag);
      end := cqHead;
      Basics();
      SlotsApart(old(taken), taken, qDepth);
      if start != end {
        NoRange(Abs());
        RingValid(Abs());
        RingInOrder(Abs());
        ghost var before := Abs();
        ranges := ranges + [Range(rung, taken)];
        rung := taken;
        assert Abs() == Ring(before);
      }
    }

    // The loop of nvme_process_cq; it ends because the device stops posting when it
    // has not heard of free slots.
    method TakePending(tag: Option<nat>, arrivals: seq<Option<nat>>) returns (found: nat)
      requires Abs().Valid() && InOrder(Abs())
      modifies this`cqHead, this`cqPhase, this`taken, this`posted, this`lies, cqes
      ensures Abs().Valid() && InOrder(Abs())
      ensures old(posted) <= posted && old(taken) <= taken == |posted|
      ensures found == Count(posted[old(taken)..], tag)
    {
      hide SlotsHold, Slot, PhaseOf, Count, Queue.Valid, Queue.Pending, Room, InOrder;
      ghost var from := taken;
      found := 0;
      Basics();
      var looks := Arrive(arrivals, 0);
      assert posted[from..taken] == [];
      CountNone(tag);
      while CqePending()
        invariant Abs().Valid() && InOrder(Abs()) && cqHead < cqes.Length
        invariant old(posted) <= posted && from <= taken <= |posted|
        invariant CqePending() <==> taken < |posted|
        invariant found == Count(posted[from..taken], tag)
        decreases rung + qDepth - taken
      {
        Basics();
        CountNext(posted, from, taken, tag);
        var hit := TakeOne(tag);
        if hit {
          found := found + 1;
        }
        ghost var before := posted;
        looks := Arrive(arrivals, looks);
        PrefixSlice(before, posted, from, taken);
        Basics();
      }
      assert posted[from..taken] == posted[from..];
    }

    // One turn of it.
    method TakeOne(tag: Option<nat>) returns (hit: bool)
      requires Abs().Valid() && InOrder(Abs()) && CqePending()
      modifies this`cqHead, this`cqPhase, this`taken
      ensures Abs().Valid() && InOrder(Abs()) && taken == old(taken) + 1 <= |posted|
      ensures hit <==> tag.None? || posted[old(taken)] == tag.value
    {
      hide SlotsHold, Slot, PhaseOf, Queue.Valid, Queue.Pending, InOrder;
      Basics();
      HeadReads();
      hit := tag.None? || cqes[cqHead].command == tag.value;
      UpdateCqHead();
    }

    lemma HeadReads()
      requires Abs().Valid() && CqePending()
      ensures taken < |posted| && cqes[cqHead].command == posted[taken] && Abs().Pending()
    {
      hide SlotsHold;
      PendingExact(Abs());
      HandleReads(cqes[..], lies, posted, qDepth, taken);
    }

    // The device completes only commands that hold a tag; nvme_dev_add allows one
    // fewer than the queue has slots.
    predicate TagLeft()
      reads this
    {
      |posted| - |handled| < qDepth - 1
    }

    // The environment between two looks: one more completion may have come in.
    method Arrive(arrivals: seq<Option<nat>>, looks: nat) returns (next: nat)
      requires Abs().Valid() && InOrder(Abs())
      modifies this`posted, this`lies, cqes
      ensures Abs().Valid() && InOrder(Abs()) && old(posted) <= posted && next == looks + 1
      ensures CqePending() <==> taken < |posted|
    {
      hide SlotsHold;
      if looks < |arrivals| && arrivals[looks].Some? && |posted| < rung + qDepth - 1 && TagLeft() {
        DevicePosts(arrivals[looks].value);
      }
      next := looks + 1;
      PendingExact(Abs());
    }

    method HandleCqe(idx: nat)
      requires Abs().Valid() && InOrder(Abs()) && |handled| < rung && idx == Slot(|handled|, qDepth)
      modifies this`handled, this`ranges, this`outcomes
      ensures old(ranges) != [] && |cqes[..]| == |lies| == qDepth > 0 && Abs() == Handle(old(Abs()), 0)
      ensures Abs().Valid() && InOrder(Abs())
      ensures handled == old(handled) + [Handling(|old(handled)|, |old(handled)|, posted[|old(handled)|])]
      ensures outcomes == old(outcomes) + [Dispatch(qid, qDepth, aqBlkMqDepth, posted[|old(handled)|])]
      // Ended if it is a request's; an event if it is the admin queue's and no request's.
      ensures var command := posted[|old(handled)|];
        && outcomes[|old(outcomes)|].command == command
        && (outcomes[|old(outcomes)|].Ended? <==> command < qDepth && (qid != 0 || command < aqBlkMqDepth))
        && (outcomes[|old(outcomes)|].AsyncEvent? <==> qid == 0 && aqBlkMqDepth <= command < qDepth)
    {
      hide SlotsHold;
      HandleInOrder(Abs());
      HandleValid(Abs(), 0);
      var command := cqes[idx].command;
      ghost var after := Handle(Abs(), 0);
      handled, ranges := handled + [Handling(|handled|, lies[idx], command)], after.ranges;
      assert Abs() == after;
      if command >= qDepth {
        outcomes := outcomes + [Dropped(command)];
        return;
      }
      if qid == 0 && command >= aqBlkMqDepth {
        outcomes := outcomes + [AsyncEvent(command)];
        return;
      }
      outcomes := outcomes + [Ended(command)];
    }

    // Each outcome is the dispatch of the completion handled at that place.
    ghost predicate Dispatched()
      reads this`outcomes, this`handled
    {
      && |outcomes| == |handled|
      && (forall k | 0 <= k < |handled| :: outcomes[k] == Dispatch(qid, qDepth, aqBlkMqDepth, handled[k].command))
    }

    // The device may post between any two entries.
    method CompleteCqes(start0: nat, end: nat, arrivals: seq<Option<nat>>)
      requires Abs().Valid() && InOrder(Abs()) && Dispatched()
      requires |handled| <= taken < |handled| + qDepth && start0 == Slot(|handled|, qDepth) && end == Slot(taken, qDepth)
      requires rung == taken
      modifies this`handled, this`ranges, this`outcomes, this`posted, this`lies, cqes
      ensures Abs().Valid() && InOrder(Abs()) && Dispatched() && |handled| == taken
      ensures old(posted) <= posted
    {
      hide SlotsHold, Slot, PhaseOf, Queue.Valid, InOrder;
      var start := start0;
      var looks := 0;
      Basics();
      SlotsApart(|handled|, taken, qDepth);
      while start != end
        invariant Abs().Valid() && InOrder(Abs()) && Dispatched() && old(posted) <= posted
        invariant |handled| <= taken < |handled| + qDepth && start == Slot(|handled|, qDepth)
        invariant start == end <==> |handled| == taken
        decreases taken - |handled|
      {
        Basics();
        NextSlot(|handled|, qDepth);
        HandleCqe(start);
        start := start + 1;
        if start == qDepth {
          start := 0;
        }
        looks := Arrive(arrivals, looks);
        SlotsApart(|handled|, taken, qDepth);
      }
    }

    // Every completion posted before the interrupt has been handled when it returns,
    // each once and in order, whatever comes in meanwhile.
    method Irq(during: seq<Option<nat>>, after: seq<Option<nat>>) returns (ret: bool)
      requires Abs().Valid() && InOrder(Abs()) && Dispatched() && |handled| == taken == rung
      modifies this, cqes
      ensures Abs().Valid() && InOrder(Abs()) && Dispatched() && |handled| == taken == rung
      ensures old(posted) <= posted && old(posted) <= Commands(handled) <= posted
      // The requests ended are those whose commands were posted, in order.
      ensures EndedOf(outcomes) == Picks(Commands(handled), 0, if qid == 0 then Min(qDepth, aqBlkMqDepth) else qDepth)
      ensures AsyncOf(outcomes) == if qid == 0 then Picks(Commands(handled), aqBlkMqDepth, qDepth) else []
      ensures ret <==> old(cqHead != lastCqHead) || |old(handled)| < |handled|
      ensures lastCqHead == cqHead
    {
      hide SlotsHold, Slot, PhaseOf, Queue.Valid, Dispatched;
      ret := cqHead != lastCqHead;
      var start, end, _ := ProcessCq(None, during);
      lastCqHead := cqHead;
      if start != end {
        CompleteCqes(start, end, after);
        ret := true;
      }
      CommandsInOrder(Abs());
      DispatchedMeaning();
    }

    lemma DispatchedMeaning()
      requires Dispatched()
      ensures EndedOf(outcomes) == Picks(Commands(handled), 0, if qid == 0 then Min(qDepth, aqBlkMqDepth) else qDepth)
      ensures AsyncOf(outcomes) == if qid == 0 then Picks(Commands(handled), aqBlkMqDepth, qDepth) else []
    {
      DispatchMeaning(qid, qDepth, aqBlkMqDepth, Commands(handled), outcomes);
    }
  }
}
