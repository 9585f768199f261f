// The submission queue of the PCIe driver with its batched tail doorbell.
module SubmissionRing {
  import opened Arith

  // The ring, the driver's indices, the doorbell, and what has happened: the
  // commands submitted, how many of them the doorbell has announced, those the
  // device has fetched, and how many it has completed.
  datatype Queue = Queue(
    depth: nat,
    cmds: seq<nat>,
    tail: nat,
    lastTail: nat,
    doorbell: nat,
    submitted: seq<nat>,
    announced: nat,
    fetched: seq<nat>,
    completed: nat)
  {
    ghost predicate Valid() {
      Filled() && |submitted| - announced <= depth - 2
    }

    // Between the copying of a command and the decision about the doorbell.
    ghost predicate Filled() {
      && 2 <= depth < 0x1_0000 && |cmds| == depth
      && tail == Slot(|submitted|, depth)
      && lastTail == doorbell == Slot(announced, depth)
      && completed <= |fetched| <= announced <= |submitted|
      && |submitted| - completed <= depth - 1
      && fetched == submitted[..|fetched|]
      && Waiting(cmds, submitted, |fetched|, depth)
    }
  }

  // No command is overwritten before the device has fetched it.
  ghost predicate Waiting(cmds: seq<nat>, submitted: seq<nat>, fetched: nat, depth: nat)
    requires depth > 0
  {
    |cmds| == depth && forall j | fetched <= j < |submitted| :: cmds[Slot(j, depth)] == submitted[j]
  }

  // ---- Steps ----

  function Init(depth: nat, cmds: seq<nat>): Queue {
    Queue(depth, cmds, 0, 0, 0, [], 0, [], 0)
  }

  // nvme_write_sq_db
  function WriteDb(q: Queue, writeSq: bool): Queue {
    var next := if q.tail + 1 == q.depth then 0 else q.tail + 1;
    if !writeSq && next != q.lastTail then q
    else q.(doorbell := q.tail, lastTail := q.tail, announced := |q.submitted|)
  }

  // nvme_submit_cmd
  function Submit(q: Queue, cmd: nat, writeSq: bool): Queue
    requires q.tail < |q.cmds|
  {
    var tail := if q.tail + 1 == q.depth then 0 else q.tail + 1;
    WriteDb(q.(cmds := q.cmds[q.tail := cmd], tail := tail, submitted := q.submitted + [cmd]), writeSq)
  }

  // nvme_commit_rqs
  function Commit(q: Queue): Queue {
    if q.tail != q.lastTail then WriteDb(q, true) else q
  }

  // The device sees work as long as its head has not reached the doorbell.
  predicate SeesWork(q: Queue)
    requires q.depth > 0
  {
    Slot(|q.fetched|, q.depth) != q.doorbell
  }

  function Fetch(q: Queue): Queue
    requires q.depth > 0 && |q.cmds| == q.depth
  {
    q.(fetched := q.fetched + [q.cmds[Slot(|q.fetched|, q.depth)]])
  }

  function Complete(q: Queue): Queue {
    q.(completed := q.completed + 1)
  }

  // Commands hold tags until they complete; nvme_dev_add has one tag less than the
  // queue has slots.
  predicate TagLeft(q: Queue) {
    |q.submitted| - q.completed < q.depth - 1
  }

  // ---- What the steps keep ----

  lemma InitValid(depth: nat, cmds: seq<nat>)
    requires 2 <= depth < 0x1_0000 && |cmds| == depth
    ensures Init(depth, cmds).Valid()
  {
    DivUnique(0, depth, 0, 0);
  }

  lemma PutWaiting(cmds: seq<nat>, submitted: seq<nat>, fetched: nat, depth: nat, cmd: nat)
    requires depth > 0 && Waiting(cmds, submitted, fetched, depth)
    requires fetched <= |submitted| < fetched + depth
    ensures Waiting(cmds[Slot(|submitted|, depth) := cmd], submitted + [cmd], fetched, depth)
  {
    var n := |submitted|;
    forall j | fetched <= j < n + 1
      ensures cmds[Slot(n, depth) := cmd][Slot(j, depth)] == (submitted + [cmd])[j]
    {
      if j < n {
        ModApart(j, n, depth);
      }
    }
  }

  // Whether the tail has caught up with the announced entries once more.
  lemma WrapExact(depth: nat, submitted: nat, announced: nat)
    requires depth >= 2 && announced <= submitted < announced + depth
    ensures Slot(submitted + 1, depth) == Slot(announced, depth) <==> submitted == announced + depth - 1
    ensures Slot(submitted, depth) == Slot(announced, depth) <==> submitted == announced
  {
    if announced < submitted {
      ModApart(announced, submitted, depth);
    }
    if submitted + 1 == announced + depth {
      ModRound(announced, depth);
    } else {
      ModApart(announced, submitted + 1, depth);
    }
  }

  lemma SubmitValid(q: Queue, cmd: nat, writeSq: bool)
    requires q.Valid() && TagLeft(q)
    ensures var r := Submit(q, cmd, writeSq);
      && r.Valid() && r.submitted == q.submitted + [cmd] && r.fetched == q.fetched
      && (r.announced == |r.submitted| <==> writeSq || |q.submitted| - q.announced == q.depth - 2)
      && (r.announced == |r.submitted| || r.announced == q.announced)
  {
    hide Slot, Waiting;
    var n, k := |q.submitted|, |q.fetched|;
    NextSlot(n, q.depth);
    PutWaiting(q.cmds, q.submitted, k, q.depth, cmd);
    assert (q.submitted + [cmd])[..k] == q.submitted[..k];
    var s := q.(cmds := q.cmds[q.tail := cmd], tail := Slot(n + 1, q.depth), submitted := q.submitted + [cmd]);
    assert s.Filled();
    WriteDbValid(s, writeSq);
  }

  lemma WriteDbValid(q: Queue, writeSq: bool)
    requires q.Filled()
    ensures var r := WriteDb(q, writeSq);
      && r.Valid() && r.submitted == q.submitted && r.fetched == q.fetched
      && (r.announced == |r.submitted| <==> writeSq || |q.submitted| - q.announced == q.depth - 1 || q.announced == |q.submitted|)
      && (r.announced == |r.submitted| || r.announced == q.announced)
  {
    hide Slot, Waiting;
    NextSlot(|q.submitted|, q.depth);
    WrapExact(q.depth, |q.submitted|, q.announced);
  }

  // After a commit nothing is left unannounced, and the test of nvme_commit_rqs
  // skips the doorbell exactly when there is nothing to announce.
  lemma CommitValid(q: Queue)
    requires q.Valid()
    ensures var r := Commit(q); r.Valid() && r.announced == |r.submitted| && r.submitted == q.submitted
    ensures q.tail == q.lastTail <==> q.announced == |q.submitted|
  {
    WrapExact(q.depth, |q.submitted|, q.announced);
  }

  // The device sees work exactly while announced commands are unfetched.
  lemma SeesWorkExact(q: Queue)
    requires q.Valid()
    ensures SeesWork(q) <==> |q.fetched| < q.announced
  {
    WrapExact(q.depth, q.announced, |q.fetched|);
  }

  lemma FetchValid(q: Queue)
    requires q.Valid() && SeesWork(q)
    ensures Fetch(q).Valid() && Fetch(q).submitted == q.submitted
  {
    SeesWorkExact(q);
    var k := |q.fetched|;
    assert q.submitted[..k + 1] == q.submitted[..k] + [q.submitted[k]];
  }

  // With one command more outstanding than tags allow, a device that has fetched
  // none of a full round could not tell it from no command at all.
  lemma FullLooksEmpty(depth: nat, announced: nat, fetched: nat)
    requires depth >= 2 && fetched <= announced <= fetched + depth
    ensures (Slot(fetched, depth) != Slot(announced, depth) <==> fetched < announced) <==> announced < fetched + depth
  {
    if announced == fetched + depth {
      ModRound(fetched, depth);
    } else {
      WrapExact(depth, announced, fetched);
    }
  }

  // ---- Runs ----

  datatype Step = HostSubmits(cmd: nat, last: bool) | HostCommits | DeviceFetches | DeviceCompletes

  predicate Enabled(q: Queue, s: Step)
    requires q.depth > 0
  {
    match s
    case HostSubmits(_, _) => TagLeft(q)
    case HostCommits => true
    case DeviceFetches => SeesWork(q)
    case DeviceCompletes => q.completed < |q.fetched|
  }

  function Next(q: Queue, s: Step): Queue
    requires q.depth > 0 && q.tail < q.depth == |q.cmds|
  {
    match s
    case HostSubmits(cmd, last) => Submit(q, cmd, last)
    case HostCommits => Commit(q)
    case DeviceFetches => Fetch(q)
    case DeviceCompletes => Complete(q)
  }

  lemma NextValid(q: Queue, s: Step)
    requires q.Valid() && Enabled(q, s)
    ensures var n := Next(q, s);
      && n.Valid() && n.submitted == q.submitted + Submitted([s])
      && (s.HostCommits? || (s.HostSubmits? && s.last) ==> n.announced == |n.submitted|)
  {
    hide Slot, Waiting, Fetch, Submit, Commit;
    assert [s][1..] == [] && q.submitted + [] == q.submitted;
    match s
    case HostSubmits(cmd, last) => SubmitValid(q, cmd, last);
    case HostCommits => CommitValid(q);
    case DeviceFetches => FetchValid(q);
    case DeviceCompletes =>
  }

  ghost predicate Reaches(q: Queue, run: seq<Step>, r: Queue)
    decreases |run|
  {
    if run == [] then r == q
    else q.Valid() && Enabled(q, run[0]) && Reaches(Next(q, run[0]), run[1..], r)
  }

  function Submitted(run: seq<Step>): seq<nat> {
    if run == [] then []
    else (if run[0].HostSubmits? then [run[0].cmd] else []) + Submitted(run[1..])
  }

  // Over any run of any number of rounds, what the device fetched is a prefix of
  // what was submitted; nothing submitted is lost, and all of it is announced when
  // the run ends in a last request or a commit.
  lemma {:induction false} RunMeaning(q: Queue, run: seq<Step>, r: Queue)
    requires q.Valid() && Reaches(q, run, r)
    ensures r.Valid() && r.submitted == q.submitted + Submitted(run) && r.fetched <= r.submitted
    ensures run != [] && (run[|run| - 1].HostCommits? || (run[|run| - 1].HostSubmits? && run[|run| - 1].last)) ==>
      r.announced == |r.submitted|
    decreases |run|
  {
    hide Slot, Waiting, Next, Enabled, Queue.Valid;
    ValidBounds(q);
    if run == [] {
      assert q.submitted + [] == q.submitted;
    } else {
      NextValid(q, run[0]);
      RunMeaning(Next(q, run[0]), run[1..], r);
      SubmittedHead(run);
      assert q.submitted + (Submitted(run[..1]) + Submitted(run[1..]))
          == (q.submitted + Submitted(run[..1])) + Submitted(run[1..]);
      assert run[..1] == [run[0]];
    }
  }

  lemma ValidBounds(q: Queue)
    requires q.Valid()
    ensures q.depth > 0 && q.tail < q.depth == |q.cmds| && q.fetched <= q.submitted
  {
  }

  lemma SubmittedHead(run: seq<Step>)
    requires run != []
    ensures Submitted(run) == Submitted(run[..1]) + Submitted(run[1..])
  {
    assert run[..1][1..] == [];
  }

  // A device left alone fetches just what was announced.
  lemma {:induction false} Drains(q: Queue) returns (r: Queue)
    requires q.Valid()
    ensures r.Valid() && !SeesWork(r) && r.fetched == q.submitted[..q.announced]
    ensures exists run :: Reaches(q, run, r) && (forall s: Step | s in run :: s.DeviceFetches?)
    decreases q.announced - |q.fetched|
  {
    hide Slot, Waiting;
    SeesWorkExact(q);
    if SeesWork(q) {
      FetchValid(q);
      r := Drains(Fetch(q));
      var run :| Reaches(Fetch(q), run, r) && (forall s: Step | s in run :: s.DeviceFetches?);
      var all := [DeviceFetches] + run;
      assert all[1..] == run;
      assert Reaches(q, all, r);
    } else {
      r := q;
      assert Reaches(q, [], r);
    }
  }

  // ---- The driver's code ----

  class SubmissionQueue {
    const qDepth: nat
    const sqCmds: array<nat>
    var sqTail: nat
    var lastSqTail: nat
    // The device's tail doorbell, written directly or through the shadow doorbell.
    var doorbell: nat
    ghost var submitted: seq<nat>
    ghost var announced: nat
    ghost var fetched: seq<nat>
    ghost var completed: nat

    ghost function Abs(): Queue
      reads this, sqCmds
    {
      Queue(qDepth, sqCmds[..], sqTail, lastSqTail, doorbell, submitted, announced, fetched, completed)
    }

    constructor (depth: nat)
      requires 2 <= depth < 0x1_0000
      ensures Abs().Valid() && submitted == [] && fresh(sqCmds)
    {
      qDepth := depth;
      sqCmds := new nat[depth];
      sqTail, lastSqTail, doorbell := 0, 0, 0;
      submitted, announced, fetched, completed := [], 0, [], 0;
      new;
      InitValid(depth, sqCmds[..]);
      assert Abs() == Init(depth, sqCmds[..]);
    }

    method WriteSqDb(writeSq: bool)
      requires sqTail < qDepth < 0x1_0000
      modifies this`lastSqTail, this`doorbell, this`announced
      ensures Abs() == WriteDb(old(Abs()), writeSq)
    {
      if !writeSq {
        var nextTail := (sqTail + 1) % 0x1_0000;
        if nextTail == qDepth {
          nextTail := 0;
        }
        if nextTail != lastSqTail {
          return;
        }
      }
      doorbell := sqTail;
      lastSqTail := sqTail;
      announced := |submitted|;
    }

    method SubmitCmd(cmd: nat, writeSq: bool)
      requires Abs().Valid() && TagLeft(Abs())
      modifies this`sqTail, this`lastSqTail, this`doorbell, this`submitted, this`announced, sqCmds
      ensures Abs() == Submit(old(Abs()), cmd, writeSq)
      ensures Abs().Valid() && submitted == old(submitted) + [cmd] && (writeSq ==> announced == |submitted|)
    {
      hide Slot, Waiting;
      SubmitValid(Abs(), cmd, writeSq);
      Bounds();
      sqCmds[sqTail] := cmd;
      submitted := submitted + [cmd];
      sqTail := sqTail + 1;
      if sqTail == qDepth {
        sqTail := 0;
      }
      WriteSqDb(writeSq);
      assert Abs() == Submit(old(Abs()), cmd, writeSq);
    }

    lemma Bounds()
      requires Abs().Valid()
      ensures sqTail < qDepth == sqCmds.Length < 0x1_0000
    {
    }

    method CommitRqs()
      requires Abs().Valid()
      modifies this`lastSqTail, this`doorbell, this`announced
      ensures Abs() == Commit(old(Abs()))
      ensures Abs().Valid() && announced == |submitted|
    {
      CommitValid(Abs());
      Bounds();
      if sqTail != lastSqTail {
        WriteSqDb(true);
      }
    }
  }
}
