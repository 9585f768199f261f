// The bounded reconnect loop of the TCP transport.
module Reconnect {
  import opened Arith
  import opened Controller

  const U32: nat := 0x1_0000_0000

  // The value of an int assigned from an unsigned expression.
  function ToInt(u: nat): int
    requires u < U32
  {
    if u < 0x8000_0000 then u else u - U32
  }

  // max_reconnects as nvmf_parse_options computes it: the division is unsigned,
  // since reconnect_delay is.
  function MaxReconnects(ctrlLossTmo: int, reconnectDelay: nat): int
    requires 0 < reconnectDelay
  {
    if ctrlLossTmo < 0 then -1 else ToInt((ctrlLossTmo + reconnectDelay - 1) % U32 / reconnectDelay)
  }

  // Both options are parsed as int; a delay of zero or less is refused.
  predicate OptionsOk(ctrlLossTmo: int, reconnectDelay: nat) {
    -0x8000_0000 <= ctrlLossTmo < 0x8000_0000 && 0 < reconnectDelay < 0x8000_0000
  }

  lemma MaxReconnectsIs(ctrlLossTmo: int, reconnectDelay: nat)
    requires OptionsOk(ctrlLossTmo, reconnectDelay)
    ensures var m := MaxReconnects(ctrlLossTmo, reconnectDelay);
      && (m == -1 <==> ctrlLossTmo < 0)
      && (ctrlLossTmo >= 0 ==> m == CeilDiv(ctrlLossTmo, reconnectDelay)
                               && ctrlLossTmo <= m * reconnectDelay < ctrlLossTmo + reconnectDelay)
  {
    if ctrlLossTmo >= 0 {
      var n, d := ctrlLossTmo + reconnectDelay - 1, reconnectDelay;
      assert n % U32 == n;
      var q := n / d;
      assert n == q * d + n % d;
      if q > ctrlLossTmo {
        MulMonotone(ctrlLossTmo + 1, q, d);
        Distribute(ctrlLossTmo, d);
        assert false;
      }
    }
  }

  lemma Distribute(a: nat, d: nat)
    requires d > 0
    ensures d * (a + 1) > a + d - 1
  {
    MulMonotone(1, d, a);
    assert d * (a + 1) == a * d + d;
  }

  // The delay handed to the work queue, in ticks; the product is of 32 bits.
  function Wait(reconnectDelay: nat, hz: nat): nat {
    reconnectDelay * hz % U32
  }

  // ---- The loop ----

  // attempts and waited count since the connection was lost; scheduled is the
  // delayed work.
  datatype Ctrl = Ctrl(
    state: CtrlState, nrReconnects: int, maxReconnects: int, wait: nat,
    scheduled: bool, attempts: nat, waited: nat)

  // nvmf_should_reconnect
  predicate ShouldReconnect(c: Ctrl) {
    c.maxReconnects == -1 || c.nrReconnects < c.maxReconnects
  }

  // nvme_tcp_reconnect_or_remove
  function ReconnectOrRemove(c: Ctrl): Ctrl {
    if !c.state.Connecting? then c
    else if ShouldReconnect(c) then c.(scheduled := true, waited := c.waited + c.wait)
    else c.(state := Change(c.state, Deleting))
  }

  // nvme_tcp_error_recovery_work
  function Recover(c: Ctrl): Ctrl {
    if !Admits(c.state, Connecting) then c
    else ReconnectOrRemove(c.(state := Connecting, attempts := 0, waited := 0))
  }

  // What setting the queues up meets: an error with the admin queue or with the I/O
  // queues, a controller that asks for an offset of in-capsule data, or nothing.
  datatype Setup = AdminFails | Icdoff | IoFails | Ready

  // nvme_tcp_reconnect_ctrl_work with nvme_tcp_setup_ctrl, which tears the admin
  // queue down for the offset, but without an error.
  function Attempt(c: Ctrl, s: Setup): Ctrl {
    var a := c.(scheduled := false, nrReconnects := c.nrReconnects + 1, attempts := c.attempts + 1);
    match s
    case Icdoff => a.(nrReconnects := 0)
    case Ready => if Admits(a.state, Live) then a.(state := Live, nrReconnects := 0) else ReconnectOrRemove(a)
    case _ => ReconnectOrRemove(a)
  }

  predicate Bounded(c: Ctrl) {
    0 <= c.nrReconnects <= c.maxReconnects && (c.scheduled ==> c.nrReconnects < c.maxReconnects)
  }

  // The attempts made as long as one is scheduled; number k meets setups(k).
  function Loop(c: Ctrl, setups: nat -> Setup): Ctrl
    requires Bounded(c)
    decreases if c.scheduled then 1 + c.maxReconnects - c.nrReconnects else 0
  {
    if !c.scheduled then c else Loop(Attempt(c, setups(c.attempts)), setups)
  }

  // The first attempt from number k on that meets no error, limit if there is none before it.
  function FirstNotFailing(setups: nat -> Setup, k: nat, limit: nat): (f: nat)
    requires k <= limit
    ensures k <= f <= limit
    ensures forall n | k <= n < f :: setups(n).AdminFails? || setups(n).IoFails?
    ensures f < limit ==> setups(f).Icdoff? || setups(f).Ready?
    decreases limit - k
  {
    if k == limit || setups(k).Icdoff? || setups(k).Ready? then k else FirstNotFailing(setups, k + 1, limit)
  }

  lemma {:induction false} LoopIs(c: Ctrl, setups: nat -> Setup)
    requires Bounded(c) && c.state.Connecting? && c.scheduled && c.attempts == c.nrReconnects
    ensures var d, f := Loop(c, setups), FirstNotFailing(setups, c.attempts, c.maxReconnects);
      && !d.scheduled && d.attempts == Min(f + 1, c.maxReconnects)
      && d.state == (if f == c.maxReconnects then Deleting else if setups(f).Icdoff? then Connecting else Live)
      && d.waited == c.waited + (d.attempts - c.attempts - 1) * c.wait
    decreases c.maxReconnects - c.nrReconnects
  {
    hide Attempt;
    AttemptIs(c, setups(c.attempts));
    var n := Attempt(c, setups(c.attempts));
    if n.scheduled {
      LoopIs(n, setups);
      var k := Loop(n, setups).attempts - n.attempts - 1;
      assert k * c.wait + c.wait == (k + 1) * c.wait;
    }
  }

  lemma AttemptIs(c: Ctrl, s: Setup)
    requires Bounded(c) && c.state.Connecting? && c.scheduled && c.attempts == c.nrReconnects
    ensures var n, k := Attempt(c, s), c.attempts + 1;
      && n.attempts == k && n.maxReconnects == c.maxReconnects && n.wait == c.wait
      && (n.scheduled <==> (s.AdminFails? || s.IoFails?) && k < c.maxReconnects)
      && n.nrReconnects == (if s.AdminFails? || s.IoFails? then k else 0)
      && n.waited == c.waited + (if n.scheduled then c.wait else 0)
      && n.state == if s.Icdoff? || n.scheduled then Connecting else if s.Ready? then Live else Deleting
  {
  }

  // With a loss timeout, whatever the attempts meet: the controller is given up if and
  // only if max_reconnects of them meet an error, and then after just that many. It is
  // live if and only if the first that meets no error is ready; otherwise it is left
  // connecting, with no attempt to come.
  lemma {:induction false} AttemptsExact(c: Ctrl, ctrlLossTmo: nat, reconnectDelay: nat, setups: nat -> Setup)
    requires OptionsOk(ctrlLossTmo, reconnectDelay) && c.maxReconnects == MaxReconnects(ctrlLossTmo, reconnectDelay)
    requires Admits(c.state, Connecting) && c.nrReconnects == 0 && !c.scheduled
    ensures Bounded(Recover(c))
    ensures var d, f := Loop(Recover(c), setups), FirstNotFailing(setups, 0, c.maxReconnects);
      && !d.scheduled && d.attempts == Min(f + 1, c.maxReconnects) && d.waited == d.attempts * c.wait
      && (d.state.Deleting? <==> f == c.maxReconnects)
      && (d.state.Live? <==> f < c.maxReconnects && setups(f).Ready?)
      && (d.state.Connecting? <==> f < c.maxReconnects && setups(f).Icdoff?)
  {
    hide Attempt, MaxReconnects;
    MaxReconnectsIs(ctrlLossTmo, reconnectDelay);
    var r := Recover(c);
    if r.scheduled {
      LoopIs(r, setups);
      var k := Loop(r, setups).attempts - 1;
      assert k * c.wait + c.wait == (k + 1) * c.wait;
    }
  }

  // The time waited for a controller given up is at least the loss timeout, and less
  // than one delay longer.
  predicate InTime(ctrlLossTmo: nat, reconnectDelay: nat, hz: nat)
    requires reconnectDelay > 0
  {
    ctrlLossTmo * hz <= MaxReconnects(ctrlLossTmo, reconnectDelay) * Wait(reconnectDelay, hz)
      < (ctrlLossTmo + reconnectDelay) * hz
  }

  // It holds for every loss timeout exactly when one delay, in ticks, fits 32 bits.
  lemma InTimeExact(reconnectDelay: nat, hz: nat)
    requires 0 < reconnectDelay < 0x8000_0000 && 0 < hz
    ensures (forall tmo: nat | tmo < 0x8000_0000 :: InTime(tmo, reconnectDelay, hz)) <==> reconnectDelay * hz < U32
  {
    if reconnectDelay * hz < U32 {
      forall tmo: nat | tmo < 0x8000_0000
        ensures InTime(tmo, reconnectDelay, hz)
      {
        MaxReconnectsIs(tmo, reconnectDelay);
        InTicks(tmo, reconnectDelay, hz, MaxReconnects(tmo, reconnectDelay));
      }
    } else {
      var tmo := reconnectDelay;
      MaxReconnectsIs(tmo, reconnectDelay);
      CeilDivOne(tmo, reconnectDelay);
      assert Wait(reconnectDelay, hz) < U32 <= tmo * hz;
      assert !InTime(tmo, reconnectDelay, hz);
    }
  }

  lemma InTicks(tmo: nat, d: nat, hz: nat, m: nat)
    requires tmo <= m * d < tmo + d && hz > 0 && d * hz < U32
    ensures tmo * hz <= m * (d * hz) < (tmo + d) * hz && Wait(d, hz) == d * hz
  {
    assert m * (d * hz) == (m * d) * hz;
    MulMonotone(tmo, m * d, hz);
    MulMonotone(m * d + 1, tmo + d, hz);
  }

  // ---- Any run ----

  datatype Step = ErrorRecovers | AttemptRuns(setup: Setup) | Requested(to: CtrlState)

  function Next(c: Ctrl, t: Step): Ctrl {
    match t
    case ErrorRecovers => Recover(c)
    case AttemptRuns(setup) => Attempt(c, setup)
    case Requested(to) => c.(state := Change(c.state, to))
  }

  function Run(c: Ctrl, steps: seq<Step>): Ctrl
    decreases |steps|
  {
    if steps == [] then c else Run(Next(c, steps[0]), steps[1..])
  }

  // Whatever attempt was still scheduled and whatever happens, a controller being
  // deleted does not become live, nor is another attempt scheduled.
  lemma {:induction false} DeletedForGood(c: Ctrl, steps: seq<Step>)
    requires Terminal(c.state)
    ensures Terminal(Run(c, steps).state) && (!c.scheduled ==> !Run(c, steps).scheduled)
    ensures Run(c, steps).waited == c.waited
    decreases |steps|
  {
    if steps != [] {
      DeletedForGood(Next(c, steps[0]), steps[1..]);
    }
  }

  // With a limit, no more attempts than it follow one another without success.
  lemma {:induction false} NeverTooMany(c: Ctrl, steps: seq<Step>)
    requires c.maxReconnects >= 0 && 0 <= c.nrReconnects
    requires c.nrReconnects + (if c.scheduled then 1 else 0) <= c.maxReconnects
    requires Scheduled(c, steps)
    ensures 0 <= Run(c, steps).nrReconnects <= c.maxReconnects
    decreases |steps|
  {
    if steps != [] {
      NeverTooMany(Next(c, steps[0]), steps[1..]);
    }
  }

  // Attempts run only when one is scheduled; a lost connection has none scheduled.
  predicate Scheduled(c: Ctrl, steps: seq<Step>)
    decreases |steps|
  {
    steps == [] ||
    ((steps[0].AttemptRuns? ==> c.scheduled) && Scheduled(Next(c, steps[0]), steps[1..]))
  }

  // Without a limit a controller is never given up, and while it is connecting another
  // attempt is always scheduled, unless one met the offset.
  lemma {:induction false} NeverGivenUp(c: Ctrl, steps: seq<Step>)
    requires c.maxReconnects == -1 && !Terminal(c.state) && forall s | s in steps :: !s.Requested?
    ensures !Terminal(Run(c, steps).state)
    ensures (c.state.Connecting? ==> c.scheduled) && AttemptRuns(Icdoff) !in steps ==>
      (Run(c, steps).state.Connecting? ==> Run(c, steps).scheduled)
    decreases |steps|
  {
    if steps != [] {
      assert steps[0] in steps && forall s | s in steps[1..] :: s in steps;
      NeverGivenUp(Next(c, steps[0]), steps[1..]);
    }
  }

  // A controller left connecting stays so, neither live nor given up, unless another
  // party asks for a change of its state.
  lemma {:induction false} LeftConnecting(c: Ctrl, steps: seq<Step>)
    requires c.state.Connecting? && !c.scheduled && Scheduled(c, steps)
    requires forall s | s in steps :: !s.Requested?
    ensures Run(c, steps) == c
    decreases |steps|
  {
    if steps != [] {
      assert Next(c, steps[0]) == c by { assert steps[0] in steps; }
      LeftConnecting(c, steps[1..]);
    }
  }

  // Such a run: a timeout that allows for two attempts, and the first, though it got
  // no further than the admin queue, ends them as a success would.
  lemma GivenUpNever(c: Ctrl, steps: seq<Step>)
    requires c == Ctrl(Resetting, 0, MaxReconnects(20, 10), 10, false, 0, 0)
    requires Scheduled(c, [ErrorRecovers, AttemptRuns(Icdoff)] + steps) && forall s | s in steps :: !s.Requested?
    ensures Run(c, [ErrorRecovers, AttemptRuns(Icdoff)] + steps) == Ctrl(Connecting, 0, 2, 10, false, 1, 10)
  {
    var d := Recover(c);
    var e := Attempt(d, Icdoff);
    assert ([ErrorRecovers, AttemptRuns(Icdoff)] + steps)[1..] == [AttemptRuns(Icdoff)] + steps;
    assert ([AttemptRuns(Icdoff)] + steps)[1..] == steps;
    LeftConnecting(e, steps);
  }

  // ---- The driver's code ----

  class TcpCtrl {
    const maxReconnects: int
    const reconnectDelay: nat
    const hz: nat
    var state: CtrlState
    var nrReconnects: int
    var connectWork: bool
    var deleteWork: bool
    ghost var attempts: nat
    ghost var waited: nat

    ghost function Abs(): Ctrl
      reads this
    {
      Ctrl(state, nrReconnects, maxReconnects, Wait(reconnectDelay, hz), connectWork, attempts, waited)
    }

    constructor (ctrlLossTmo: int, reconnectDelay: nat, hz: nat)
      requires OptionsOk(ctrlLossTmo, reconnectDelay)
      ensures Abs() == Ctrl(New, 0, MaxReconnects(ctrlLossTmo, reconnectDelay), Wait(reconnectDelay, hz), false, 0, 0)
      ensures !deleteWork
    {
      if ctrlLossTmo < 0 {
        maxReconnects := -1;
      } else {
        maxReconnects := ToInt(((ctrlLossTmo + reconnectDelay - 1) % U32) / reconnectDelay);
      }
      this.reconnectDelay, this.hz := reconnectDelay, hz;
      state, nrReconnects, connectWork, deleteWork, attempts, waited := New, 0, false, false, 0, 0;
    }

    method ChangeCtrlState(newState: CtrlState) returns (changed: bool)
      modifies this`state
      ensures state == Change(old(state), newState) && (changed <==> Admits(old(state), newState))
      ensures changed <==> (old(state), newState) in TRANSITIONS
      ensures state == if changed then newState else old(state)
    {
      AdmitsExact(state, newState);
      changed := false;
      match newState {
        case Live => {
          match state
          case New | Resetting | Connecting => changed := true;
          case _ =>
        }
        case Resetting => {
          match state
          case New | Live => changed := true;
          case _ =>
        }
        case Connecting => {
          match state
          case New | Resetting => changed := true;
          case _ =>
        }
        case Deleting => {
          match state
          case Live | Resetting | Connecting => changed := true;
          case _ =>
        }
        case Dead => {
          match state
          case Deleting => changed := true;
          case _ =>
        }
        case New =>
      }
      if changed {
        state := newState;
      }
    }

    method DeleteCtrl() returns (busy: bool)
      modifies this`state, this`deleteWork
      ensures state == Change(old(state), Deleting)
      ensures busy <==> !Admits(old(state), Deleting) || old(deleteWork)
      ensures deleteWork == (old(deleteWork) || Admits(old(state), Deleting))
    {
      var changed := ChangeCtrlState(Deleting);
      if !changed {
        return true;
      }
      busy := deleteWork;
      deleteWork := true;
    }

    method ReconnectOrRemoveCtrl()
      modifies this`state, this`connectWork, this`deleteWork, this`waited
      ensures Abs() == ReconnectOrRemove(old(Abs()))
      ensures state.Deleting? && !old(state).Deleting? ==> deleteWork
    {
      if !state.Connecting? {
        return;
      }
      if maxReconnects == -1 || nrReconnects < maxReconnects {
        connectWork := true;
        waited := waited + Wait(reconnectDelay, hz);
      } else {
        var _ := DeleteCtrl();
      }
    }

    // nvme_tcp_setup_ctrl
    method SetupCtrl(s: Setup) returns (ret: int)
      modifies this`state
      ensures state == if s.Ready? then Change(old(state), Live) else old(state)
      ensures ret == 0 <==> s.Icdoff? || (s.Ready? && Admits(old(state), Live))
    {
      ret := if s.AdminFails? then -1 else 0;
      if ret != 0 || s.Icdoff? {
        return;
      }
      ret := if s.IoFails? then -1 else 0;
      if ret != 0 {
        return;
      }
      var changed := ChangeCtrlState(Live);
      if !changed {
        ret := -22;
      }
    }

    method ReconnectCtrlWork(s: Setup)
      modifies this
      ensures Abs() == Attempt(old(Abs()), s)
    {
      connectWork := false;
      attempts := attempts + 1;
      nrReconnects := nrReconnects + 1;
      var ret := SetupCtrl(s);
      if ret != 0 {
        ReconnectOrRemoveCtrl();
        return;
      }
      nrReconnects := 0;
    }

    method ErrorRecoveryWork()
      modifies this
      ensures Abs() == Recover(old(Abs()))
    {
      var changed := ChangeCtrlState(Connecting);
      if !changed {
        return;
      }
      attempts, waited := 0, 0;
      ReconnectOrRemoveCtrl();
    }
  }
}
