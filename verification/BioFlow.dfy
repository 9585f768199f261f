// What becomes of the bios sent to a multipath node: path requests, failover, the
// requeue list and its work item, completion.
module BioFlow {
  import opened Options
  import opened PathChoice
  import opened Seqs

  // A request on the path at that position of the head's list.
  datatype Request = Request(ns: nat, bios: seq<nat>, retries: nat)

  datatype End = End(bio: nat, ok: bool)

  // The bios a head is answerable for, by where they are.
  datatype Flow = Flow(
    inflight: seq<Request>,
    requeue: seq<nat>,
    taken: seq<nat>,
    ended: seq<End>)

  // How often bio b occurs in the requests, among the ended.
  function OccInflight(inflight: seq<Request>, b: nat): nat {
    if inflight == [] then 0 else Occ(inflight[0].bios, b) + OccInflight(inflight[1..], b)
  }

  function OccEnded(ended: seq<End>, b: nat): nat {
    if ended == [] then 0 else (if ended[0].bio == b then 1 else 0) + OccEnded(ended[1..], b)
  }

  function Places(f: Flow, b: nat): nat {
    OccInflight(f.inflight, b) + Occ(f.requeue, b) + Occ(f.taken, b) + OccEnded(f.ended, b)
  }

  // Each bio sent to the node is in exactly one place, once; no other bio is.
  ghost predicate Conserved(f: Flow, sent: set<nat>) {
    forall b :: Places(f, b) == if b in sent then 1 else 0
  }

  // ---- Steps ----

  // Where nvme_ns_head_make_request puts a bio: onto a path, merging it into a
  // request there or not, onto the requeue list, or back as failed.
  datatype Route = OnPath(ns: nat, merge: Option<nat>) | Requeued | Failed

  predicate RouteOk(f: Flow, r: Route) {
    r.OnPath? && r.merge.Some? ==> r.merge.value < |f.inflight| && f.inflight[r.merge.value].ns == r.ns
  }

  function Routed(f: Flow, bio: nat, r: Route): Flow
    requires RouteOk(f, r)
  {
    match r
    case OnPath(ns, None) => f.(inflight := f.inflight + [Request(ns, [bio], 0)])
    case OnPath(ns, Some(k)) => f.(inflight := f.inflight[k := f.inflight[k].(bios := f.inflight[k].bios + [bio])])
    case Requeued => f.(requeue := f.requeue + [bio])
    case Failed => f.(ended := f.ended + [End(bio, false)])
  }

  function Ends(bios: seq<nat>, ok: bool): (e: seq<End>)
    ensures |e| == |bios|
  {
    seq(|bios|, i requires 0 <= i < |bios| => End(bios[i], ok))
  }

  // nvme_failover_req: the bios are stolen before the request is ended.
  function FailedOver(f: Flow, k: nat): Flow
    requires k < |f.inflight|
  {
    f.(inflight := f.inflight[..k] + f.inflight[k + 1..], requeue := f.requeue + f.inflight[k].bios)
  }

  function Without(requests: seq<Request>, k: nat): seq<Request>
    requires k < |requests|
  {
    requests[..k] + requests[k + 1..]
  }

  function Retried(f: Flow, k: nat): Flow
    requires k < |f.inflight|
  {
    f.(inflight := f.inflight[k := f.inflight[k].(retries := f.inflight[k].retries + 1)])
  }

  function Finished(f: Flow, k: nat, ok: bool): Flow
    requires k < |f.inflight|
  {
    f.(inflight := f.inflight[..k] + f.inflight[k + 1..], ended := f.ended + Ends(f.inflight[k].bios, ok))
  }

  function WorkTakes(f: Flow): Flow {
    f.(taken := f.requeue, requeue := [])
  }

  function WorkNext(f: Flow, r: Route): Flow
    requires f.taken != [] && RouteOk(f, r)
  {
    Routed(f.(taken := f.taken[1..]), f.taken[0], r)
  }

  // ---- Conservation ----

  lemma {:induction false} InflightAppend(s: seq<Request>, t: seq<Request>, b: nat)
    ensures OccInflight(s + t, b) == OccInflight(s, b) + OccInflight(t, b)
  {
    if s == [] {
      assert s + t == t;
    } else {
      InflightAppend(s[1..], t, b);
      assert (s + t)[1..] == s[1..] + t;
    }
  }

  lemma {:induction false} EndedAppend(s: seq<End>, t: seq<End>, b: nat)
    ensures OccEnded(s + t, b) == OccEnded(s, b) + OccEnded(t, b)
  {
    if s == [] {
      assert s + t == t;
    } else {
      EndedAppend(s[1..], t, b);
      assert (s + t)[1..] == s[1..] + t;
    }
  }

  lemma {:induction false} EndsOcc(bios: seq<nat>, ok: bool, b: nat)
    ensures OccEnded(Ends(bios, ok), b) == Occ(bios, b)
  {
    if bios != [] {
      EndsOcc(bios[1..], ok, b);
      assert Ends(bios, ok)[1..] == Ends(bios[1..], ok);
    }
  }

  lemma InflightOne(r: Request, b: nat)
    ensures OccInflight([r], b) == Occ(r.bios, b)
  {
    assert [r][1..] == [];
  }

  lemma InflightAt(s: seq<Request>, k: nat, b: nat)
    requires k < |s|
    ensures OccInflight(s, b) == OccInflight(s[..k] + s[k + 1..], b) + Occ(s[k].bios, b)
  {
    hide OccInflight;
    assert s == s[..k] + ([s[k]] + s[k + 1..]);
    InflightAppend(s[..k], [s[k]] + s[k + 1..], b);
    InflightAppend([s[k]], s[k + 1..], b);
    InflightAppend(s[..k], s[k + 1..], b);
    InflightOne(s[k], b);
  }

  lemma InflightUpdate(s: seq<Request>, k: nat, r: Request, b: nat)
    requires k < |s|
    ensures OccInflight(s[k := r], b) + Occ(s[k].bios, b) == OccInflight(s, b) + Occ(r.bios, b)
  {
    hide OccInflight;
    InflightAt(s, k, b);
    InflightAt(s[k := r], k, b);
    assert s[k := r][..k] + s[k := r][k + 1..] == s[..k] + s[k + 1..];
  }

  lemma RoutedPlaces(f: Flow, bio: nat, r: Route, b: nat)
    requires RouteOk(f, r)
    ensures Places(Routed(f, bio, r), b) == Places(f, b) + if b == bio then 1 else 0
  {
    hide OccInflight, Occ, OccEnded;
    OccOne(bio, b);
    match r
    case OnPath(ns, None) =>
      InflightAppend(f.inflight, [Request(ns, [bio], 0)], b);
      InflightOne(Request(ns, [bio], 0), b);
    case OnPath(ns, Some(k)) =>
      var q := f.inflight[k];
      InflightUpdate(f.inflight, k, q.(bios := q.bios + [bio]), b);
      OccAppend(q.bios, [bio], b);
    case Requeued =>
      OccAppend(f.requeue, [bio], b);
    case Failed =>
      EndedAppend(f.ended, Ends([bio], false), b);
      assert Ends([bio], false) == [End(bio, false)];
      EndsOcc([bio], false, b);
  }

  lemma CompletedPlaces(f: Flow, k: nat, ok: bool, b: nat)
    requires k < |f.inflight|
    ensures Places(FailedOver(f, k), b) == Places(Retried(f, k), b) == Places(Finished(f, k, ok), b) == Places(f, b)
  {
    hide OccInflight, Occ, OccEnded;
    var q := f.inflight[k];
    InflightAt(f.inflight, k, b);
    OccAppend(f.requeue, q.bios, b);
    InflightUpdate(f.inflight, k, q.(retries := q.retries + 1), b);
    EndedAppend(f.ended, Ends(q.bios, ok), b);
    EndsOcc(q.bios, ok, b);
  }

  lemma OnPathOnly(f: Flow, bio: nat, r: Route)
    requires RouteOk(f, r) && r.OnPath?
    ensures var g := Routed(f, bio, r); g.requeue == f.requeue && g.ended == f.ended
  {
  }

  lemma WorkTakesPlaces(f: Flow, b: nat)
    requires f.taken == []
    ensures Places(WorkTakes(f), b) == Places(f, b)
  {
  }

  lemma WorkNextPlaces(f: Flow, r: Route, b: nat)
    requires f.taken != [] && RouteOk(f, r)
    ensures Places(WorkNext(f, r), b) == Places(f, b)
  {
    hide Routed;
    RoutedPlaces(f.(taken := f.taken[1..]), f.taken[0], r, b);
  }

  // ---- Runs ----

  // What nvme_complete_rq looks at, besides the request's own retry count.
  datatype Completion = Completion(ok: bool, noRetry: bool, dnr: bool, pathError: bool, dying: bool)

  datatype Verdict = FailOver | Retry | Finish

  // nvme_complete_rq for a request that came through a multipath node
  function Decide(c: Completion, retries: nat, maxRetries: nat): Verdict {
    if !c.ok && !c.noRetry && !c.dnr && retries < maxRetries then
      if c.pathError then FailOver else if !c.dying then Retry else Finish
    else Finish
  }

  datatype Step =
    | Send(bio: nat, route: Route)
    | Complete(k: nat, c: Completion)
    | WorkStarts
    | WorkResubmits(route: Route)

  predicate Enabled(f: Flow, sent: set<nat>, t: Step) {
    match t
    case Send(bio, r) => bio !in sent && RouteOk(f, r)
    case Complete(k, _) => k < |f.inflight|
    // The work item does not run beside itself.
    case WorkStarts => f.taken == []
    case WorkResubmits(r) => f.taken != [] && RouteOk(f, r)
  }

  function Next(f: Flow, maxRetries: nat, t: Step): Flow
    requires match t
             case Send(_, r) => RouteOk(f, r)
             case Complete(k, _) => k < |f.inflight|
             case WorkStarts => true
             case WorkResubmits(r) => f.taken != [] && RouteOk(f, r)
  {
    match t
    case Send(bio, r) => Routed(f, bio, r)
    case Complete(k, c) =>
      (match Decide(c, f.inflight[k].retries, maxRetries)
       case FailOver => FailedOver(f, k)
       case Retry => Retried(f, k)
       case Finish => Finished(f, k, c.ok))
    case WorkStarts => WorkTakes(f)
    case WorkResubmits(r) => WorkNext(f, r)
  }

  function Sent(sent: set<nat>, t: Step): set<nat> {
    if t.Send? then sent + {t.bio} else sent
  }

  lemma NextConserved(f: Flow, sent: set<nat>, maxRetries: nat, t: Step)
    requires Conserved(f, sent) && Enabled(f, sent, t)
    ensures Conserved(Next(f, maxRetries, t), Sent(sent, t))
  {
    hide Places, Routed, FailedOver, Retried, Finished, WorkNext, WorkTakes;
    forall b
      ensures Places(Next(f, maxRetries, t), b) == if b in Sent(sent, t) then 1 else 0
    {
      match t
      case Send(bio, r) => RoutedPlaces(f, bio, r, b);
      case Complete(k, c) => CompletedPlaces(f, k, c.ok, b);
      case WorkStarts => WorkTakesPlaces(f, b);
      case WorkResubmits(r) => WorkNextPlaces(f, r, b);
    }
  }

  // An end is final.
  lemma NextEnded(f: Flow, sent: set<nat>, maxRetries: nat, t: Step)
    requires Enabled(f, sent, t)
    ensures f.ended <= Next(f, maxRetries, t).ended
  {
  }

  ghost predicate Reaches(f: Flow, sent: set<nat>, maxRetries: nat, run: seq<Step>, g: Flow, all: set<nat>)
    decreases |run|
  {
    if run == [] then g == f && all == sent
    else Enabled(f, sent, run[0]) && Reaches(Next(f, maxRetries, run[0]), Sent(sent, run[0]), maxRetries, run[1..], g, all)
  }

  lemma {:induction false} RunConserved(f: Flow, sent: set<nat>, maxRetries: nat, run: seq<Step>, g: Flow, all: set<nat>)
    requires Conserved(f, sent) && Reaches(f, sent, maxRetries, run, g, all)
    ensures Conserved(g, all) && f.ended <= g.ended && sent <= all
    decreases |run|
  {
    hide Conserved, Next;
    if run != [] {
      NextConserved(f, sent, maxRetries, run[0]);
      NextEnded(f, sent, maxRetries, run[0]);
      RunConserved(Next(f, maxRetries, run[0]), Sent(sent, run[0]), maxRetries, run[1..], g, all);
    }
  }

  // At any point of any run a bio sent to the node is in exactly one place, so it is
  // ended at most once, and once nothing is under way every bio has been ended.
  lemma EachBioOnce(maxRetries: nat, run: seq<Step>, g: Flow, all: set<nat>, bio: nat)
    requires Reaches(Flow([], [], [], []), {}, maxRetries, run, g, all)
    ensures OccInflight(g.inflight, bio) + Occ(g.requeue, bio) + Occ(g.taken, bio) + OccEnded(g.ended, bio)
            == if bio in all then 1 else 0
    ensures g.inflight == [] && g.requeue == [] && g.taken == [] && bio in all ==> OccEnded(g.ended, bio) == 1
  {
    hide Reaches, Conserved, Next, OccInflight, Occ, OccEnded;
    var f := Flow([], [], [], []);
    EmptyConserved();
    RunConserved(f, {}, maxRetries, run, g, all);
    ConservedAt(g, all, bio);
    NoneThere(bio);
  }

  lemma EmptyConserved()
    ensures Conserved(Flow([], [], [], []), {})
  {
  }

  lemma ConservedAt(f: Flow, sent: set<nat>, b: nat)
    requires Conserved(f, sent)
    ensures Places(f, b) == if b in sent then 1 else 0
  {
  }

  lemma NoneThere(b: nat)
    ensures OccInflight([], b) == 0 && Occ([], b) == 0 && OccEnded([], b) == 0
  {
  }

  // ---- The driver's code ----

  // The status codes nvme_failover_req tells apart.
  datatype Failure = AnaError | PathError | OtherError

  class MpathNode {
    const head: NsHead
    const maxRetries: nat
    var inflight: seq<Request>
    var requeueList: seq<nat>
    // requeue_work's own list while it runs
    var taken: seq<nat>
    var ended: seq<End>
    var workScheduled: bool
    // Paths whose controller is to be reset.
    var resets: seq<nat>
    ghost var sent: set<nat>

    ghost function Abs(): Flow
      reads this
    {
      Flow(inflight, requeueList, taken, ended)
    }

    ghost predicate Valid()
      reads this, head
    {
      && Conserved(Abs(), sent)
      && (forall r | r in inflight :: r.ns < |head.paths| && r.retries <= maxRetries)
      && (forall node | node in head.currentPath :: head.currentPath[node] < |head.paths|)
    }

    constructor (head: NsHead, maxRetries: nat)
      requires forall node | node in head.currentPath :: head.currentPath[node] < |head.paths|
      ensures Valid() && this.head == head && sent == {} && !workScheduled
      ensures Abs() == Flow([], [], [], [])
    {
      this.head, this.maxRetries := head, maxRetries;
      inflight, requeueList, taken, ended, workScheduled, resets, sent := [], [], [], [], false, [], {};
      new;
      EmptyConserved();
    }

    // nvme_ns_head_make_request; merge is the request the block layer merges the bio
    // into, if it is for the chosen path.
    method MakeRequest(bio: nat, node: nat, merge: Option<nat>) returns (route: Route)
      requires forall i | 0 <= i < |head.paths| :: head.Distance(node, head.paths[i]) < INT_MAX
      requires forall n | n in head.currentPath :: head.currentPath[n] < |head.paths|
      requires forall r | r in inflight :: r.ns < |head.paths| && r.retries <= maxRetries
      modifies this`inflight, this`requeueList, this`ended, head`currentPath
      ensures RouteOk(old(Abs()), route) && Abs() == Routed(old(Abs()), bio, route)
      ensures forall n | n in head.currentPath :: head.currentPath[n] < |head.paths|
      ensures forall r | r in inflight :: r.ns < |head.paths| && r.retries <= maxRetries
      // Held back or failed, it is the last of its kind.
      ensures route.Requeued? ==> requeueList == old(requeueList) + [bio] && inflight == old(inflight) && ended == old(ended)
      ensures route.Failed? ==>
        ended == old(ended) + [End(bio, false)] && inflight == old(inflight) && requeueList == old(requeueList)
      ensures route.OnPath? ==> requeueList == old(requeueList) && ended == old(ended)
      // On a path, as a request of its own or the last bio of the one it is merged into.
      ensures route.OnPath? && route.merge.None? ==> inflight == old(inflight) + [Request(route.ns, [bio], 0)]
      ensures route.OnPath? && route.merge.Some? ==>
        var k := route.merge.value;
        merge == Some(k) && inflight == old(inflight)[k := old(inflight)[k].(bios := old(inflight)[k].bios + [bio])]
      // On a live path, else held back while some controller may come back, else failed.
      ensures route.OnPath? ==> route.ns < |head.paths| && head.paths[route.ns].ctrl.Live?
      ensures !route.OnPath? ==>
        forall i | 0 <= i < |head.paths| :: !Usable(head.paths[i], Optimized) && !Usable(head.paths[i], NonOptimized)
      ensures route.Failed? ==>
        forall p | p in head.paths :: !p.ctrl.Live? && !p.ctrl.Resetting? && !p.ctrl.Connecting?
      ensures route.Requeued? ==>
        exists p :: p in head.paths && (p.ctrl.Live? || p.ctrl.Resetting? || p.ctrl.Connecting?)
    {
      var ns := head.FindPath(node);
      if ns.Some? {
        var into := if merge.Some? && merge.value < |inflight| && inflight[merge.value].ns == ns.value then merge else None;
        route := OnPath(ns.value, into);
        if into.None? {
          inflight := inflight + [Request(ns.value, [bio], 0)];
        } else {
          inflight := inflight[into.value := inflight[into.value].(bios := inflight[into.value].bios + [bio])];
        }
      } else {
        var available := head.AvailablePath();
        if available {
          route := Requeued;
          requeueList := requeueList + [bio];
        } else {
          route := Failed;
          ended := ended + [End(bio, false)];
        }
      }
    }

    // A bio enters the node.
    method SendBio(bio: nat, node: nat, merge: Option<nat>) returns (route: Route)
      requires Valid() && bio !in sent
      requires forall i | 0 <= i < |head.paths| :: head.Distance(node, head.paths[i]) < INT_MAX
      modifies this`inflight, this`requeueList, this`ended, this`sent, head`currentPath
      ensures Valid() && sent == old(sent) + {bio} && RouteOk(old(Abs()), route)
      ensures Abs() == Next(old(Abs()), maxRetries, Send(bio, route))
    {
      hide Conserved, Routed;
      route := MakeRequest(bio, node, merge);
      NextConserved(old(Abs()), sent, maxRetries, Send(bio, route));
      sent := sent + {bio};
    }

    // nvme_complete_rq
    method CompleteRq(k: nat, c: Completion, failure: Failure, anaLog: bool)
      requires Valid() && k < |inflight|
      modifies this`inflight, this`requeueList, this`ended, this`workScheduled, this`resets
      modifies head`currentPath, head`paths
      ensures Valid() && sent == old(sent)
      ensures Abs() == Next(old(Abs()), maxRetries, Complete(k, c))
      // A success ends its bios as ok,
      ensures c.ok ==> Ending(k, old(inflight), old(ended), old(requeueList), true)
      // a failure that may be retried is failed over for a path error,
      ensures !c.ok && MayRetry(c, old(inflight)[k]) ==>
        requeueList == (if c.pathError then old(requeueList) + old(inflight)[k].bios else old(requeueList))
      ensures !c.ok && MayRetry(c, old(inflight)[k]) && c.pathError ==>
        inflight == Without(old(inflight), k) && ended == old(ended) && workScheduled
      // else tried again on its path, unless the queue is dying;
      ensures !c.ok && MayRetry(c, old(inflight)[k]) && !c.pathError ==>
        (!c.dying <==> inflight == old(inflight)[k := old(inflight)[k].(retries := old(inflight)[k].retries + 1)])
      ensures !c.ok && MayRetry(c, old(inflight)[k]) && !c.pathError && !c.dying ==>
        ended == old(ended)
      // every other failure ends its bios as failed.
      ensures !c.ok && (!MayRetry(c, old(inflight)[k]) || (!c.pathError && c.dying)) ==>
        Ending(k, old(inflight), old(ended), old(requeueList), false)
    {
      hide Conserved;
      NextConserved(Abs(), sent, maxRetries, Complete(k, c));
      var rq := inflight[k];
      if !c.ok && NeedsRetry(c, rq) {
        if c.pathError {
          FailoverReq(k, failure, anaLog);
          return;
        }
        if !c.dying {
          RetryReq(k);
          return;
        }
      }
      inflight := inflight[..k] + inflight[k + 1..];
      ended := ended + Ends(rq.bios, c.ok);
      assert Abs() == Next(old(Abs()), maxRetries, Complete(k, c));
    }

    predicate MayRetry(c: Completion, rq: Request) {
      !c.noRetry && !c.dnr && rq.retries < maxRetries
    }

    // The request is gone and its bios ended.
    ghost predicate Ending(k: nat, requests: seq<Request>, ends: seq<End>, list: seq<nat>, ok: bool)
      requires k < |requests|
      reads this`inflight, this`ended, this`requeueList
    {
      && inflight == Without(requests, k) && requeueList == list
      && |ended| == |ends| + |requests[k].bios| && ends <= ended
      && forall i | 0 <= i < |requests[k].bios| :: ended[|ends| + i] == End(requests[k].bios[i], ok)
    }

    predicate NeedsRetry(c: Completion, rq: Request)
    {
      if c.noRetry then false
      else if c.dnr then false
      else if rq.retries >= maxRetries then false
      else true
    }

    method RetryReq(k: nat)
      requires k < |inflight| && inflight[k].retries < maxRetries
      modifies this`inflight
      ensures inflight == old(inflight)[k := old(inflight)[k].(retries := old(inflight)[k].retries + 1)]
    {
      inflight := inflight[k := inflight[k].(retries := inflight[k].retries + 1)];
    }

    method FailoverReq(k: nat, failure: Failure, anaLog: bool)
      requires k < |inflight| && inflight[k].ns < |head.paths|
      modifies this`inflight, this`requeueList, this`workScheduled, this`resets, head`currentPath, head`paths
      ensures Abs() == FailedOver(old(Abs()), k) && workScheduled
      ensures |head.paths| == |old(head.paths)|
      // The failed path is no node's cached path any more; after an ANA error it is
      // disabled until the log page has been read again.
      ensures var ns := old(inflight)[k].ns;
        && resets == (if failure.OtherError? then old(resets) + [ns] else old(resets))
        && head.paths == (if failure.AnaError? && anaLog then old(head.paths)[ns := old(head.paths)[ns].(anaPending := true)]
                          else old(head.paths))
        && (failure.OtherError? ==> head.currentPath == old(head.currentPath))
        && (!failure.OtherError? ==>
              head.currentPath ==
                map n | n in old(head.currentPath) && old(head.currentPath)[n] != ns :: old(head.currentPath)[n])
    {
      var ns := inflight[k].ns;
      requeueList := requeueList + inflight[k].bios;
      inflight := inflight[..k] + inflight[k + 1..];
      match failure {
        case AnaError =>
          var _ := head.ClearCurrentPath(ns);
          if anaLog {
            head.SetAnaPending(ns);
          }
        case PathError =>
          var _ := head.ClearCurrentPath(ns);
        case OtherError =>
          resets := resets + [ns];
      }
      workScheduled := true;
    }

    ghost predicate UsablePath()
      reads head`paths
    {
      exists i :: 0 <= i < |head.paths| && (Usable(head.paths[i], Optimized) || Usable(head.paths[i], NonOptimized))
    }

    // nvme_requeue_work; merges[i] is for the i-th bio resubmitted.
    method RequeueWork(node: nat, merges: seq<Option<nat>>)
      requires Valid() && taken == []
      requires forall i | 0 <= i < |head.paths| :: head.Distance(node, head.paths[i]) < INT_MAX
      modifies this`inflight, this`requeueList, this`taken, this`ended, this`workScheduled, head`currentPath
      ensures Valid() && taken == [] && sent == old(sent)
      ensures old(ended) <= ended
      // With a usable path, every bio of the list is on a path afterwards.
      ensures UsablePath() ==> requeueList == [] && ended == old(ended)
    {
      hide Conserved, Routed;
      workScheduled := false;
      NextConserved(Abs(), sent, maxRetries, WorkStarts);
      taken, requeueList := requeueList, [];
      assert Abs() == WorkTakes(old(Abs()));
      var i := 0;
      while taken != []
        invariant Valid() && sent == old(sent) && old(ended) <= ended
        invariant head.paths == old(head.paths)
        invariant UsablePath() ==> requeueList == [] && ended == old(ended)
        decreases |taken|
      {
        ghost var before := Abs();
        var bio := taken[0];
        taken := taken[1..];
        var route := MakeRequest(bio, node, if i < |merges| then merges[i] else None);
        assert Abs() == WorkNext(before, route);
        if route.OnPath? {
          OnPathOnly(before.(taken := before.taken[1..]), bio, route);
        }
        NextConserved(before, sent, maxRetries, WorkResubmits(route));
        NextEnded(before, sent, maxRetries, WorkResubmits(route));
        i := i + 1;
      }
    }
  }
}
