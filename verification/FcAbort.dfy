// FC teardown: aborting the outstanding exchanges races with their completion, and
// iocnt counts those still to come back.
module FcAbort {
  datatype OpState = Uninit | Idle | Active | Aborted | Complete

  // Where an operation's exchange is: with the LLDD; returned, its handler having
  // exchanged the op state for Complete but not done the teardown check yet; past
  // the check, before the op is set idle again; nowhere.
  datatype Exchange = NoExchange | WithLldd | Returned(saw: OpState, failedStart: bool) | Ending

  datatype Op = Op(state: OpState, exchange: Exchange)

  // The aborting thread holds the lock from its exchange of the op state on.
  datatype Aborter = LockFree | Holding(op: nat, saw: OpState)

  // FCCTRL_TERMIO is set while the window is not closed.
  datatype Window = Closed | Aborting | Asleep

  datatype Ctrl = Ctrl(ops: seq<Op>, iocnt: int, window: Window, aborter: Aborter)

  // Taken from Active to Aborted, and not yet through the teardown check.
  predicate Counts(o: Op) {
    (o.exchange.WithLldd? && o.state.Aborted?) || (o.exchange.Returned? && o.exchange.saw.Aborted?)
  }

  function Outstanding(ops: seq<Op>): set<nat> {
    set i | 0 <= i < |ops| && Counts(ops[i])
  }

  // ---- Steps ----

  datatype Step =
    | Start(op: nat)
    | DoneExchanges(op: nat)
    | StartFails(op: nat)
    | ChecksTeardown(op: nat)
    | SetsIdle(op: nat)
    | OpensWindow
    | AbortExchanges(op: nat)
    | AbortFinishes
    | Waits

  predicate Enabled(c: Ctrl, t: Step) {
    match t
    // An op is not started while it is being aborted: its queue is quiesced.
    case Start(i) => i < |c.ops| && c.ops[i].exchange.NoExchange? && !(c.aborter.Holding? && c.aborter.op == i)
    case DoneExchanges(i) => i < |c.ops| && c.ops[i].exchange.WithLldd?
    case StartFails(i) => i < |c.ops| && c.ops[i].exchange.WithLldd?
    // It takes the lock only if the op was aborted.
    case ChecksTeardown(i) =>
      i < |c.ops| && c.ops[i].exchange.Returned? && (c.ops[i].exchange.saw.Aborted? ==> c.aborter.LockFree?)
    case SetsIdle(i) => i < |c.ops| && c.ops[i].exchange.Ending?
    case OpensWindow => c.window.Closed? && c.aborter.LockFree?
    case AbortExchanges(i) => i < |c.ops| && c.window.Aborting? && c.aborter.LockFree?
    case AbortFinishes => c.aborter.Holding? && c.aborter.op < |c.ops|
    case Waits => c.window.Aborting? && c.aborter.LockFree?
  }

  function Next(c: Ctrl, t: Step): Ctrl
    requires Enabled(c, t)
  {
    match t
    case Start(i) => c.(ops := c.ops[i := Op(Active, WithLldd)])
    case DoneExchanges(i) => c.(ops := c.ops[i := Op(Complete, Returned(c.ops[i].state, false))])
    case StartFails(i) => c.(ops := c.ops[i := Op(Complete, Returned(c.ops[i].state, true))])
    case ChecksTeardown(i) =>
      var o := c.ops[i];
      var past := c.(ops := c.ops[i := o.(exchange := if o.exchange.failedStart then NoExchange else Ending)]);
      if !o.exchange.saw.Aborted? || c.window.Closed? then past
      else past.(iocnt := c.iocnt - 1, window := if c.iocnt - 1 == 0 then Aborting else c.window)
    case SetsIdle(i) => c.(ops := c.ops[i := Op(Idle, NoExchange)])
    case OpensWindow => c.(window := Aborting, iocnt := 0)
    case AbortExchanges(i) => c.(ops := c.ops[i := c.ops[i].(state := Aborted)], aborter := Holding(i, c.ops[i].state))
    case AbortFinishes =>
      var i := c.aborter.op;
      if !c.aborter.saw.Active? then c.(ops := c.ops[i := c.ops[i].(state := c.aborter.saw)], aborter := LockFree)
      else if !c.window.Closed? then c.(iocnt := c.iocnt + 1, aborter := LockFree)
      else c.(aborter := LockFree)
    case Waits => c.(window := if c.iocnt == 0 then Closed else Asleep)
  }

  // ---- What the steps keep ----

  predicate OpOk(o: Op) {
    && (o.state.Active? ==> o.exchange.WithLldd?)
    && (o.exchange.WithLldd? ==> o.state.Active? || o.state.Aborted?)
  }

  function Uncounted(c: Ctrl): nat {
    if c.aborter.Holding? && c.aborter.saw.Active? then 1 else 0
  }

  ghost predicate Inv(c: Ctrl) {
    && (forall i | 0 <= i < |c.ops| :: OpOk(c.ops[i]))
    && (c.window.Closed? ==> c.aborter.LockFree? && Outstanding(c.ops) == {})
    && (!c.window.Closed? ==> c.iocnt == |Outstanding(c.ops)| - Uncounted(c))
    && (c.window.Asleep? ==> c.aborter.LockFree? && c.iocnt != 0)
    && (c.aborter.Holding? ==> HoldingOk(c))
  }

  ghost predicate HoldingOk(c: Ctrl)
    requires c.aborter.Holding?
  {
    && c.aborter.op < |c.ops| && !c.ops[c.aborter.op].state.Active?
    && (c.aborter.saw.Active? ==> Counts(c.ops[c.aborter.op]))
    && (!c.aborter.saw.Active? && !c.aborter.saw.Aborted? ==> !c.ops[c.aborter.op].exchange.WithLldd?)
  }

  lemma OutstandingUpdate(ops: seq<Op>, i: nat, o: Op)
    requires i < |ops|
    ensures |Outstanding(ops[i := o])| + (if Counts(ops[i]) then 1 else 0)
            == |Outstanding(ops)| + (if Counts(o) then 1 else 0)
    ensures Outstanding(ops) == {} && !Counts(o) ==> Outstanding(ops[i := o]) == {}
  {
    var before, after := Outstanding(ops), Outstanding(ops[i := o]);
    assert i in before <==> Counts(ops[i]);
    assert i in after <==> Counts(o);
    assert before - {i} == after - {i};
    assert |before - {i}| == |before| - (if i in before then 1 else 0);
    assert |after - {i}| == |after| - (if i in after then 1 else 0);
  }

  lemma OutstandingNone(ops: seq<Op>, i: nat)
    requires i < |ops|
    ensures Counts(ops[i]) ==> i in Outstanding(ops) && |Outstanding(ops)| > 0
  {
    if Counts(ops[i]) {
      assert i in Outstanding(ops);
    }
  }

  lemma NextInv(c: Ctrl, t: Step)
    requires Inv(c) && Enabled(c, t)
    ensures Inv(Next(c, t))
  {
    hide Outstanding;
    var n := Next(c, t);
    match t
    case Start(i) => Updated(c, i, n);
    case DoneExchanges(i) => Updated(c, i, n);
    case StartFails(i) => Updated(c, i, n);
    case ChecksTeardown(i) => Updated(c, i, n);
    case SetsIdle(i) => Updated(c, i, n);
    case AbortExchanges(i) => Updated(c, i, n);
    case AbortFinishes => Updated(c, c.aborter.op, n);
    case OpensWindow =>
    case Waits =>
      if c.iocnt == 0 {
        assert Outstanding(c.ops) == {};
      }
  }

  lemma Updated(c: Ctrl, i: nat, n: Ctrl)
    requires i < |c.ops| && |n.ops| == |c.ops| && n.ops == c.ops[i := n.ops[i]]
    ensures |Outstanding(n.ops)| + (if Counts(c.ops[i]) then 1 else 0)
            == |Outstanding(c.ops)| + (if Counts(n.ops[i]) then 1 else 0)
    ensures Outstanding(c.ops) == {} && !Counts(n.ops[i]) ==> Outstanding(n.ops) == {}
    ensures Counts(c.ops[i]) ==> Outstanding(c.ops) != {}
  {
    OutstandingUpdate(c.ops, i, n.ops[i]);
    OutstandingNone(c.ops, i);
  }

  ghost predicate Reaches(c: Ctrl, run: seq<Step>, d: Ctrl)
    decreases |run|
  {
    if run == [] then d == c
    else Enabled(c, run[0]) && Reaches(Next(c, run[0]), run[1..], d)
  }

  lemma {:induction false} RunInv(c: Ctrl, run: seq<Step>, d: Ctrl)
    requires Inv(c) && Reaches(c, run, d)
    ensures Inv(d)
    decreases |run|
  {
    if run != [] {
      NextInv(c, run[0]);
      RunInv(Next(c, run[0]), run[1..], d);
    }
  }

  function Init(n: nat): Ctrl {
    Ctrl(seq(n, i => Op(Idle, NoExchange)), 0, Closed, LockFree)
  }

  lemma InitInv(n: nat)
    ensures Inv(Init(n))
  {
    assert Outstanding(Init(n).ops) == {};
  }

  // In every interleaving: whenever the lock is free in a window, iocnt is the number
  // of exchanges aborted and not yet through the check, and no check takes it below
  // zero.
  lemma AbortAccounting(n: nat, run: seq<Step>, c: Ctrl, op: nat)
    requires Reaches(Init(n), run, c)
    ensures !c.window.Closed? && c.aborter.LockFree? ==> c.iocnt == |Outstanding(c.ops)|
    ensures Enabled(c, ChecksTeardown(op)) && c.ops[op].exchange.saw.Aborted? ==>
      !c.window.Closed? && c.iocnt > 0 && Next(c, ChecksTeardown(op)).iocnt >= 0
  {
    InitInv(n);
    RunInv(Init(n), run, c);
    if Enabled(c, ChecksTeardown(op)) {
      OutstandingNone(c.ops, op);
    }
  }

  // The wait ends only when every aborted exchange has come back; and while it lasts
  // some exchange is still to come back, the last of which wakes the waiter.
  lemma WaitMeaning(n: nat, run: seq<Step>, c: Ctrl)
    requires Reaches(Init(n), run, c)
    ensures Enabled(c, Waits) ==> (Next(c, Waits).window.Closed? <==> forall o | o in c.ops :: !Counts(o))
    ensures c.window.Closed? ==> forall o | o in c.ops :: !Counts(o)
    ensures c.window.Asleep? ==> exists o :: o in c.ops && Counts(o)
    ensures c.window.Asleep? ==>
      forall op: nat | Enabled(c, ChecksTeardown(op)) && c.ops[op].exchange.saw.Aborted? ::
        Next(c, ChecksTeardown(op)).window.Asleep? <==> Outstanding(Next(c, ChecksTeardown(op)).ops) != {}
  {
    InitInv(n);
    RunInv(Init(n), run, c);
    forall i | 0 <= i < |c.ops|
      ensures Counts(c.ops[i]) ==> i in Outstanding(c.ops)
    {
    }
    if forall o | o in c.ops :: !Counts(o) {
      assert Outstanding(c.ops) == {};
    }
    if c.window.Asleep? {
      assert Outstanding(c.ops) != {};
      var i :| i in Outstanding(c.ops);
      assert c.ops[i] in c.ops && Counts(c.ops[i]);
      forall op: nat | Enabled(c, ChecksTeardown(op)) && c.ops[op].exchange.saw.Aborted?
        ensures Next(c, ChecksTeardown(op)).window.Asleep? <==> Outstanding(Next(c, ChecksTeardown(op)).ops) != {}
      {
        Updated(c, op, Next(c, ChecksTeardown(op)));
      }
    }
  }

  lemma NotBelowZero(c: Ctrl, i: nat)
    requires Inv(c) && Enabled(c, ChecksTeardown(i))
    ensures c.ops[i].exchange.saw.Aborted? ==> !c.window.Closed? && c.iocnt > 0
  {
    OutstandingNone(c.ops, i);
  }

  // ---- A whole teardown ----

  lemma {:induction false} NotActiveAgain(c: Ctrl, run: seq<Step>, d: Ctrl, i: nat)
    requires Inv(c) && Reaches(c, run, d) && i < |c.ops| && !c.ops[i].state.Active?
    requires forall op :: Start(op) !in run
    ensures i < |d.ops| && !d.ops[i].state.Active?
    decreases |run|
  {
    hide Inv;
    if run != [] {
      assert run[0] in run;
      NextInv(c, run[0]);
      KeepsInactive(c, run[0], i);
      forall op
        ensures Start(op) !in run[1..]
      {
        assert Start(op) !in run;
      }
      NotActiveAgain(Next(c, run[0]), run[1..], d, i);
    }
  }

  lemma KeepsInactive(c: Ctrl, t: Step, i: nat)
    requires Inv(c) && Enabled(c, t) && !t.Start? && i < |c.ops| && !c.ops[i].state.Active?
    ensures i < |Next(c, t).ops| && !Next(c, t).ops[i].state.Active?
  {
  }

  lemma {:induction false} AbortedNotActive(c: Ctrl, run: seq<Step>, d: Ctrl, i: nat)
    requires Inv(c) && Reaches(c, run, d) && i < |c.ops| && AbortExchanges(i) in run
    requires forall op :: Start(op) !in run
    ensures i < |d.ops| && !d.ops[i].state.Active?
    decreases |run|
  {
    hide Inv;
    var n := Next(c, run[0]);
    NextInv(c, run[0]);
    forall op
      ensures Start(op) !in run[1..]
    {
      assert Start(op) !in run;
    }
    if run[0] == AbortExchanges(i) {
      NotActiveAgain(n, run[1..], d, i);
    } else {
      assert run == [run[0]] + run[1..] && AbortExchanges(i) in run[1..];
      assert |n.ops| == |c.ops|;
      AbortedNotActive(n, run[1..], d, i);
    }
  }

  // With the queues quiesced and every active op aborted, no exchange at all is left
  // with the LLDD when the wait is over.
  lemma TeardownMeaning(c: Ctrl, run: seq<Step>, d: Ctrl)
    requires Inv(c) && Reaches(c, run, d) && d.window.Closed?
    requires forall op :: Start(op) !in run
    requires forall i: nat | i < |c.ops| && c.ops[i].state.Active? :: AbortExchanges(i) in run
    ensures |d.ops| == |c.ops| && forall o | o in d.ops :: !o.exchange.WithLldd?
  {
    RunInv(c, run, d);
    SameOps(c, run, d);
    forall i | 0 <= i < |d.ops|
      ensures !d.ops[i].exchange.WithLldd?
    {
      if c.ops[i].state.Active? {
        AbortedNotActive(c, run, d, i);
      } else {
        NotActiveAgain(c, run, d, i);
      }
      OutstandingNone(d.ops, i);
    }
  }

  lemma {:induction false} SameOps(c: Ctrl, run: seq<Step>, d: Ctrl)
    requires Reaches(c, run, d)
    ensures |d.ops| == |c.ops|
    decreases |run|
  {
    if run != [] {
      SameOps(Next(c, run[0]), run[1..], d);
    }
  }

  // ---- The driver's code, cut where another thread can come in between ----

  class FcCtrl {
    var ops: seq<Op>
    var iocnt: int
    var window: Window
    var aborter: Aborter

    ghost function Abs(): Ctrl
      reads this
    {
      Ctrl(ops, iocnt, window, aborter)
    }

    constructor (n: nat)
      ensures Abs() == Init(n) && Inv(Abs())
    {
      ops, iocnt, window, aborter := seq(n, i => Op(Idle, NoExchange)), 0, Closed, LockFree;
      new;
      InitInv(n);
    }

    method AtomicXchg(i: nat, state: OpState) returns (saw: OpState)
      requires i < |ops|
      modifies this`ops
      ensures saw == old(ops)[i].state && ops == old(ops)[i := old(ops)[i].(state := state)]
    {
      saw := ops[i].state;
      ops := ops[i := ops[i].(state := state)];
    }

    // nvme_fc_start_fcp_op up to the LLDD's taking the command
    method StartFcpOp(i: nat)
      requires Inv(Abs()) && Enabled(Abs(), Start(i))
      modifies this`ops
      ensures Abs() == Next(old(Abs()), Start(i)) && Inv(Abs())
      ensures ops == old(ops)[i := Op(Active, WithLldd)]
    {
      NextInv(Abs(), Start(i));
      ops := ops[i := Op(Active, WithLldd)];
    }

    // The exchange of nvme_fc_fcpio_done, or of nvme_fc_start_fcp_op when the LLDD
    // refuses.
    method Returns(i: nat, failedStart: bool)
      requires Inv(Abs()) && Enabled(Abs(), DoneExchanges(i))
      modifies this`ops
      ensures Abs() == Next(old(Abs()), if failedStart then StartFails(i) else DoneExchanges(i)) && Inv(Abs())
      ensures ops == old(ops)[i := Op(Complete, Returned(old(ops)[i].state, failedStart))]
    {
      NextInv(Abs(), if failedStart then StartFails(i) else DoneExchanges(i));
      var opstate := AtomicXchg(i, Complete);
      ops := ops[i := ops[i].(exchange := Returned(opstate, failedStart))];
    }

    // __nvme_fc_fcpop_chk_teardowns
    method ChkTeardowns(i: nat) returns (wake: bool)
      requires Inv(Abs()) && Enabled(Abs(), ChecksTeardown(i))
      modifies this`ops, this`iocnt, this`window
      ensures Abs() == Next(old(Abs()), ChecksTeardown(i)) && Inv(Abs())
      ensures iocnt == (if old(ops)[i].exchange.saw.Aborted? then old(iocnt) - 1 else old(iocnt))
      ensures iocnt != old(iocnt) ==> iocnt >= 0 && (wake <==> iocnt == 0)
      ensures window == if wake then Aborting else old(window)
      ensures ops == old(ops)[i := old(ops)[i].(exchange := if old(ops)[i].exchange.failedStart then NoExchange else Ending)]
    {
      NextInv(Abs(), ChecksTeardown(i));
      NotBelowZero(Abs(), i);
      var opstate, failedStart := ops[i].exchange.saw, ops[i].exchange.failedStart;
      wake := false;
      if opstate.Aborted? {
        if !window.Closed? {
          iocnt := iocnt - 1;
          if iocnt == 0 {
            wake := true;
            window := Aborting;
          }
        }
      }
      ops := ops[i := ops[i].(exchange := if failedStart then NoExchange else Ending)];
    }

    // nvme_fc_complete_rq; for AENs the end of nvme_fc_fcpio_done
    method SetIdle(i: nat)
      requires Inv(Abs()) && Enabled(Abs(), SetsIdle(i))
      modifies this`ops
      ensures Abs() == Next(old(Abs()), SetsIdle(i)) && Inv(Abs())
      ensures ops == old(ops)[i := Op(Idle, NoExchange)]
    {
      NextInv(Abs(), SetsIdle(i));
      ops := ops[i := Op(Idle, NoExchange)];
    }

    // The start of nvme_fc_delete_association
    method OpenWindow()
      requires Inv(Abs()) && Enabled(Abs(), OpensWindow)
      modifies this`iocnt, this`window
      ensures Abs() == Next(old(Abs()), OpensWindow) && Inv(Abs())
      ensures window.Aborting? && iocnt == 0
    {
      NextInv(Abs(), OpensWindow);
      window, iocnt := Aborting, 0;
    }

    // __nvme_fc_abort_op: taking the lock and the exchange,
    method AbortOpExchange(i: nat)
      requires Inv(Abs()) && Enabled(Abs(), AbortExchanges(i))
      modifies this`ops, this`aborter
      ensures Abs() == Next(old(Abs()), AbortExchanges(i)) && Inv(Abs())
      ensures aborter == Holding(i, old(ops)[i].state) && ops == old(ops)[i := old(ops)[i].(state := Aborted)]
    {
      NextInv(Abs(), AbortExchanges(i));
      var opstate := AtomicXchg(i, Aborted);
      aborter := Holding(i, opstate);
    }

    // and the rest; whether the LLDD is to abort the exchange.
    method AbortOpFinish() returns (abort: bool)
      requires Inv(Abs()) && Enabled(Abs(), AbortFinishes)
      modifies this`ops, this`iocnt, this`aborter
      ensures Abs() == Next(old(Abs()), AbortFinishes) && Inv(Abs())
      ensures abort <==> old(aborter).saw.Active?
      ensures aborter.LockFree? && iocnt == old(iocnt) + (if abort then 1 else 0)
      ensures var i := old(aborter).op;
        ops == if abort then old(ops) else old(ops)[i := old(ops)[i].(state := old(aborter).saw)]
    {
      NextInv(Abs(), AbortFinishes);
      var i, opstate := aborter.op, aborter.saw;
      if !opstate.Active? {
        ops := ops[i := ops[i].(state := opstate)];
      } else if !window.Closed? {
        iocnt := iocnt + 1;
      }
      aborter := LockFree;
      abort := opstate.Active?;
    }

    // One look of wait_event_lock_irq at iocnt
    method Wait() returns (over: bool)
      requires Inv(Abs()) && Enabled(Abs(), Waits)
      modifies this`window
      ensures Abs() == Next(old(Abs()), Waits) && Inv(Abs())
      ensures over <==> Outstanding(ops) == {}
      ensures window == if over then Closed else Asleep
    {
      NextInv(Abs(), Waits);
      over := iocnt == 0;
      window := if over then Closed else Asleep;
    }
  }
}
