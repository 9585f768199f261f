// Choice of a path for a multipath namespace: the nearest path under the NUMA
// policy, the next one under round-robin.
module PathChoice {
  import opened Options
  import opened Controller

  const INT_MAX: nat := 0x7fff_ffff
  const LOCAL_DISTANCE: nat := 10

  datatype AnaState = Optimized | NonOptimized | Inaccessible | PersistentLoss | Change

  datatype IoPolicy = Numa | RoundRobin

  // A namespace as one of the head's paths: its controller's state and node, the
  // flags, and its ANA state.
  datatype Path = Path(ctrl: CtrlState, anaPending: bool, removing: bool, ana: AnaState, numaNode: nat)

  // nvme_path_is_disabled
  predicate Disabled(p: Path) {
    !p.ctrl.Live? || p.anaPending || p.removing
  }

  // nvme_path_is_optimized, which looks at neither flag
  predicate IsOptimized(p: Path) {
    p.ctrl.Live? && p.ana.Optimized?
  }

  predicate Usable(p: Path, ana: AnaState) {
    !Disabled(p) && p.ana == ana
  }

  predicate Good(p: Path) {
    Usable(p, Optimized)
  }

  // ---- The walk around the list ----

  // nvme_next_ns
  function NextNs(n: nat, i: nat): (j: nat)
    requires i < n
    ensures j < n
  {
    if i + 1 < n then i + 1 else 0
  }

  // The first good path met on left steps of the walk from j.
  function Seek(paths: seq<Path>, j: nat, left: nat): (r: Option<nat>)
    requires left > 0 ==> j < |paths|
    ensures r.Some? ==> r.value < |paths| && Good(paths[r.value])
    decreases left
  {
    if left == 0 then None
    else if Good(paths[j]) then Some(j)
    else Seek(paths, NextNs(|paths|, j), left - 1)
  }

  // The last non-optimized one.
  function SeekFallback(paths: seq<Path>, j: nat, left: nat): (r: Option<nat>)
    requires left > 0 ==> j < |paths|
    ensures r.Some? ==> r.value < |paths| && Usable(paths[r.value], NonOptimized)
    decreases left
  {
    if left == 0 then None
    else
      var later := SeekFallback(paths, NextNs(|paths|, j), left - 1);
      if later.Some? then later else if Usable(paths[j], NonOptimized) then Some(j) else None
  }

  // The next good path after i, round the whole list and back to i itself.
  function After(paths: seq<Path>, i: nat): Option<nat>
    requires i < |paths|
  {
    Seek(paths, NextNs(|paths|, i), |paths|)
  }

  // The positions of the good paths from j on.
  function Goods(paths: seq<Path>, j: nat): (g: seq<nat>)
    requires j <= |paths|
    ensures forall k | 0 <= k < |g| :: j <= g[k] < |paths|
    decreases |paths| - j
  {
    if j == |paths| then []
    else if Good(paths[j]) then [j] + Goods(paths, j + 1)
    else Goods(paths, j + 1)
  }

  // In ascending order, good ones only, and all of them.
  ghost predicate AreGoods(paths: seq<Path>, j: nat, g: seq<nat>) {
    && (forall k | 0 <= k < |g| :: j <= g[k] < |paths| && Good(paths[g[k]]))
    && (forall k, l | 0 <= k < l < |g| :: g[k] < g[l])
    && (forall i | j <= i < |paths| && Good(paths[i]) :: i in g)
  }

  lemma {:induction false} GoodsAre(paths: seq<Path>, j: nat)
    requires j <= |paths|
    ensures AreGoods(paths, j, Goods(paths, j))
    decreases |paths| - j
  {
    hide Good, AreGoods;
    NoGoods(paths);
    if j < |paths| {
      GoodsAre(paths, j + 1);
      if Good(paths[j]) {
        AreGoodsPut(paths, j, Goods(paths, j + 1));
      } else {
        AreGoodsSkip(paths, j, Goods(paths, j + 1));
      }
    }
  }

  lemma NoGoods(paths: seq<Path>)
    ensures AreGoods(paths, |paths|, [])
  {
  }

  lemma AreGoodsPut(paths: seq<Path>, j: nat, g: seq<nat>)
    requires j < |paths| && Good(paths[j]) && AreGoods(paths, j + 1, g)
    ensures AreGoods(paths, j, [j] + g)
  {
    hide Good;
    forall i | j <= i < |paths| && Good(paths[i])
      ensures i in [j] + g
    {
      assert i == j || i in g;
    }
  }

  lemma AreGoodsSkip(paths: seq<Path>, j: nat, g: seq<nat>)
    requires j < |paths| && !Good(paths[j]) && AreGoods(paths, j + 1, g)
    ensures AreGoods(paths, j, g)
  {
    hide Good;
  }

  // Walking on from j meets the good paths behind j first, then those from the head
  // of the list.
  lemma {:induction false} SeekGoods(paths: seq<Path>, j: nat, left: nat)
    requires j < |paths| && |paths| - j <= left
    ensures Seek(paths, j, left) ==
      if Goods(paths, j) != [] then Some(Goods(paths, j)[0]) else Seek(paths, 0, left - (|paths| - j))
    decreases left
  {
    if !Good(paths[j]) && j + 1 < |paths| {
      SeekGoods(paths, j + 1, left - 1);
    }
  }

  lemma {:induction false} SeekStops(paths: seq<Path>, j: nat, left: nat)
    requires j < |paths| && Goods(paths, j) != [] && Goods(paths, j)[0] < j + left
    ensures Seek(paths, j, left) == Some(Goods(paths, j)[0])
    decreases left
  {
    if !Good(paths[j]) {
      SeekStops(paths, j + 1, left - 1);
    }
  }

  lemma {:induction false} GoodsBehind(paths: seq<Path>, j: nat, p: nat)
    requires j <= |paths| && p < |Goods(paths, j)|
    ensures Goods(paths, Goods(paths, j)[p] + 1) == Goods(paths, j)[p + 1..]
    decreases |paths| - j
  {
    hide Good;
    if !Good(paths[j]) {
      GoodsBehind(paths, j + 1, p);
    } else if p > 0 {
      GoodsBehind(paths, j + 1, p - 1);
      var tail := Goods(paths, j + 1);
      assert Goods(paths, j) == [j] + tail;
      assert ([j] + tail)[p + 1..] == tail[p..];
    }
  }

  // From the p-th good path the walk leads to the next one, from the last to the
  // first.
  lemma AfterGood(paths: seq<Path>, p: nat)
    requires p < |Goods(paths, 0)|
    ensures var g := Goods(paths, 0); After(paths, g[p]) == Some(g[NextNs(|g|, p)])
  {
    hide Goods, Seek, Good;
    var g, n := Goods(paths, 0), |paths|;
    GoodsAre(paths, 0);
    var i := g[p];
    GoodsBehind(paths, 0, p);
    if i + 1 < n {
      SeekGoods(paths, i + 1, n);
      if p + 1 < |g| {
        assert g[p + 1..][0] == g[p + 1];
      } else {
        assert g[p + 1..] == [];
        SeekStops(paths, 0, i + 1);
      }
    } else {
      assert p == |g| - 1 by { LastGood(g, p, n); }
      SeekStops(paths, 0, n);
    }
  }

  lemma LastGood(g: seq<nat>, p: nat, n: nat)
    requires p < |g| && g[p] == n - 1
    requires (forall k | 0 <= k < |g| :: g[k] < n) && (forall k, l | 0 <= k < l < |g| :: g[k] < g[l])
    ensures p == |g| - 1
  {
    var last := |g| - 1;
    assert g[last] < n;
  }

  // From any path the walk finds a good one if there is any.
  lemma AfterFinds(paths: seq<Path>, i: nat)
    requires i < |paths|
    ensures After(paths, i).Some? <==> Goods(paths, 0) != []
    ensures After(paths, i).Some? ==> After(paths, i).value in Goods(paths, 0)
  {
    hide Goods, Seek, Good;
    var n, g := |paths|, Goods(paths, 0);
    var j := NextNs(n, i);
    GoodsAre(paths, 0);
    GoodsAre(paths, j);
    SeekGoods(paths, j, n);
    if Goods(paths, j) != [] {
      assert Good(paths[Goods(paths, j)[0]]);
    } else if g != [] {
      assert g[0] !in Goods(paths, j);
      SeekStops(paths, 0, j);
    } else {
      SeekNone(paths, 0, j);
    }
  }

  lemma {:induction false} SeekNone(paths: seq<Path>, j: nat, left: nat)
    requires Goods(paths, 0) == [] && (left > 0 ==> j < |paths|)
    ensures Seek(paths, j, left) == None
    decreases left
  {
    if left > 0 {
      GoodsAre(paths, 0);
      assert !Good(paths[j]);
      SeekNone(paths, NextNs(|paths|, j), left - 1);
    }
  }

  // t steps of the walk from j, less than a round.
  function Walked(n: nat, j: nat, t: nat): nat
    requires j < n && t < n
  {
    if j + t < n then j + t else j + t - n
  }

  lemma {:induction false} SeekLast(paths: seq<Path>, j: nat, left: nat)
    requires j < |paths| && left < |paths|
    ensures var e := Walked(|paths|, j, left);
      Seek(paths, j, left + 1) ==
      if Seek(paths, j, left).Some? then Seek(paths, j, left) else if Good(paths[e]) then Some(e) else None
    decreases left
  {
    if left > 0 && !Good(paths[j]) {
      SeekLast(paths, NextNs(|paths|, j), left - 1);
    }
  }

  lemma {:induction false} SeekMisses(paths: seq<Path>, j: nat, left: nat, t: nat)
    requires j < |paths| && t < left <= |paths| && Seek(paths, j, left).None?
    ensures !Good(paths[Walked(|paths|, j, t)])
    decreases left
  {
    if t > 0 {
      SeekMisses(paths, NextNs(|paths|, j), left - 1, t - 1);
    }
  }

  // The round-robin walk stops short of the cached path; that one is left to the
  // search that follows.
  lemma WalkMeaning(paths: seq<Path>, i: nat)
    requires i < |paths|
    ensures var s := Seek(paths, NextNs(|paths|, i), |paths| - 1);
      && (s.Some? ==> After(paths, i) == s)
      && (s.None? ==> After(paths, i) == (if Good(paths[i]) then Some(i) else None))
      && (s.None? ==> forall j | 0 <= j < |paths| && Good(paths[j]) :: j == i)
  {
    hide Seek, Good;
    var n := |paths|;
    var start := NextNs(n, i);
    SeekLast(paths, start, n - 1);
    assert Walked(n, start, n - 1) == i;
    if Seek(paths, start, n - 1).None? {
      forall j | 0 <= j < n && j != i
        ensures !Good(paths[j])
      {
        var t := if j >= start then j - start else j + n - start;
        assert Walked(n, start, t) == j;
        SeekMisses(paths, start, n - 1, t);
      }
    }
  }

  // What the walk comes to: the first good path it meets, and the last non-optimized one.
  lemma {:induction false} SeekMeets(paths: seq<Path>, j: nat, left: nat)
    requires j < |paths| && left <= |paths|
    ensures var r := Seek(paths, j, left);
      if r.Some? then
        exists t | 0 <= t < left ::
          && r.value == Walked(|paths|, j, t) && Good(paths[r.value])
          && forall u | 0 <= u < t :: !Good(paths[Walked(|paths|, j, u)])
      else forall t | 0 <= t < left :: !Good(paths[Walked(|paths|, j, t)])
    decreases left
  {
    hide Good;
    if left > 0 {
      var n, k := |paths|, NextNs(|paths|, j);
      if Good(paths[j]) {
        assert Walked(n, j, 0) == j;
      } else {
        SeekMeets(paths, k, left - 1);
        WalkedNext(n, j, left);
        if Seek(paths, j, left).Some? {
          var t :| 0 <= t < left - 1 && Seek(paths, j, left).value == Walked(n, k, t)
            && forall u | 0 <= u < t :: !Good(paths[Walked(n, k, u)]);
          assert Walked(n, j, t + 1) == Walked(n, k, t);
          forall u | 0 <= u < t + 1
            ensures !Good(paths[Walked(n, j, u)])
          {
            assert u > 0 ==> Walked(n, j, u) == Walked(n, k, u - 1);
          }
        } else {
          forall t | 0 <= t < left
            ensures !Good(paths[Walked(n, j, t)])
          {
            assert t > 0 ==> Walked(n, j, t) == Walked(n, k, t - 1);
          }
        }
      }
    }
  }

  lemma WalkedNext(n: nat, j: nat, left: nat)
    requires j < n && left <= n
    ensures Walked(n, j, 0) == j && forall t | 0 < t < left :: Walked(n, j, t) == Walked(n, NextNs(n, j), t - 1)
  {
  }

  lemma {:induction false} FallbackMeets(paths: seq<Path>, j: nat, left: nat)
    requires j < |paths| && left <= |paths|
    ensures var r := SeekFallback(paths, j, left);
      if r.Some? then
        exists t | 0 <= t < left ::
          && r.value == Walked(|paths|, j, t) && Usable(paths[r.value], NonOptimized)
          && forall u | t < u < left :: !Usable(paths[Walked(|paths|, j, u)], NonOptimized)
      else forall t | 0 <= t < left :: !Usable(paths[Walked(|paths|, j, t)], NonOptimized)
    decreases left
  {
    hide Usable;
    if left > 0 {
      var n, k := |paths|, NextNs(|paths|, j);
      FallbackMeets(paths, k, left - 1);
      WalkedNext(n, j, left);
      var later := SeekFallback(paths, k, left - 1);
      if later.Some? {
        var t :| 0 <= t < left - 1 && later.value == Walked(n, k, t)
          && forall u | t < u < left - 1 :: !Usable(paths[Walked(n, k, u)], NonOptimized);
        assert Walked(n, j, t + 1) == Walked(n, k, t);
        forall u | t + 1 < u < left
          ensures !Usable(paths[Walked(n, j, u)], NonOptimized)
        {
          assert Walked(n, j, u) == Walked(n, k, u - 1);
        }
      } else {
        forall u | 0 < u < left
          ensures !Usable(paths[Walked(n, j, u)], NonOptimized)
        {
          assert Walked(n, j, u) == Walked(n, k, u - 1);
        }
      }
    }
  }

  // ---- Successive choices ----

  // What successive round-robin calls return, starting from cached path i.
  function Visits(paths: seq<Path>, i: nat, calls: nat): seq<nat>
    requires i < |paths| && Goods(paths, 0) != []
    decreases calls
  {
    if calls == 0 then []
    else
      AfterFinds(paths, i);
      var next := After(paths, i).value;
      [next] + Visits(paths, next, calls - 1)
  }

  // k steps round a ring of m places.
  function Turn(m: nat, p: nat, k: nat): (q: nat)
    requires p < m
    ensures q < m
    decreases k
  {
    if k == 0 then p else Turn(m, NextNs(m, p), k - 1)
  }

  lemma {:induction false} TurnIs(m: nat, p: nat, k: nat)
    requires p < m && k <= m
    ensures Turn(m, p, k) == if p + k < m then p + k else p + k - m
    decreases k
  {
    if k > 0 {
      TurnIs(m, NextNs(m, p), k - 1);
    }
  }

  // While the states stay as they are, the calls go round the good paths in list
  // order.
  lemma {:induction false} VisitsCycle(paths: seq<Path>, p: nat, calls: nat, k: nat)
    requires p < |Goods(paths, 0)| && k < calls
    ensures var g, v := Goods(paths, 0), Visits(paths, Goods(paths, 0)[p], calls);
      |v| == calls && v[k] == g[Turn(|g|, p, k + 1)]
    decreases calls
  {
    hide Goods, After;
    var g := Goods(paths, 0);
    GoodsAre(paths, 0);
    AfterGood(paths, p);
    var next := NextNs(|g|, p);
    if calls > 1 {
      VisitsCycle(paths, next, calls - 1, if k > 0 then k - 1 else 0);
    }
  }

  // As many calls as there are good paths visit each once.
  lemma RoundVisitsEach(paths: seq<Path>, p: nat, i: nat)
    requires p < |Goods(paths, 0)| && i < |paths| && Good(paths[i])
    ensures var g := Goods(paths, 0);
      var v := Visits(paths, g[p], |g|);
      |v| == |g| && exists k | 0 <= k < |v| :: v[k] == i && forall l | 0 <= l < |v| && l != k :: v[l] != i
  {
    hide Goods, Visits;
    var g := Goods(paths, 0);
    GoodsAre(paths, 0);
    var m := |g|;
    var v := Visits(paths, g[p], m);
    assert i in g;
    var q :| 0 <= q < m && g[q] == i;
    var k := if q > p then q - (p + 1) else q + m - (p + 1);
    forall l | 0 <= l < m
      ensures |v| == m && (v[l] == i <==> l == k)
    {
      VisitsCycle(paths, p, m, l);
      TurnIs(m, p, l + 1);
      OneGood(g, q, Turn(m, p, l + 1));
    }
    VisitsCycle(paths, p, m, k);
    assert v[k] == i;
  }

  lemma OneGood(g: seq<nat>, q: nat, r: nat)
    requires q < |g| && r < |g| && forall k, l | 0 <= k < l < |g| :: g[k] < g[l]
    ensures g[q] == g[r] <==> q == r
  {
    if q < r {
      assert g[q] < g[r];
    } else if r < q {
      assert g[r] < g[q];
    }
  }

  // ---- The driver's code ----

  class NsHead {
    // The paths in list order; the paths themselves are changed elsewhere.
    var paths: seq<Path>
    var iopolicy: IoPolicy
    // The position of the path cached for each node.
    var currentPath: map<nat, nat>
    const nodeDistance: (nat, nat) -> nat

    constructor (paths: seq<Path>, iopolicy: IoPolicy, nodeDistance: (nat, nat) -> nat)
      ensures this.paths == paths && this.iopolicy == iopolicy && currentPath == map[] && this.nodeDistance == nodeDistance
    {
      this.paths, this.iopolicy, this.nodeDistance := paths, iopolicy, nodeDistance;
      currentPath := map[];
    }

    function Distance(node: nat, p: Path): nat
      reads this`iopolicy
    {
      if iopolicy.Numa? then nodeDistance(node, p.numaNode) else LOCAL_DISTANCE
    }

    // A path of that state that __nvme_find_path can choose for the node.
    predicate Candidate(node: nat, i: nat, ana: AnaState)
      reads this`iopolicy, this`paths
    {
      i < |paths| && Usable(paths[i], ana) && Distance(node, paths[i]) < INT_MAX
    }

    // The nearest candidate among the first n paths, of several the first.
    ghost predicate Nearest(node: nat, r: Option<nat>, ana: AnaState, n: nat)
      requires n <= |paths|
      reads this`iopolicy, this`paths
    {
      match r
      case None => forall j | 0 <= j < n :: !Candidate(node, j, ana)
      case Some(i) =>
        && i < n && Candidate(node, i, ana)
        && (forall j | 0 <= j < n && Candidate(node, j, ana) :: Distance(node, paths[i]) <= Distance(node, paths[j]))
        && (forall j | 0 <= j < i && Candidate(node, j, ana) :: Distance(node, paths[i]) < Distance(node, paths[j]))
    }

    // An optimized candidate, or a non-optimized one for want of it.
    ghost predicate Chosen(node: nat, r: Option<nat>)
      reads this`iopolicy, this`paths
    {
      || (r.Some? && Nearest(node, r, Optimized, |paths|))
      || (Nearest(node, None, Optimized, |paths|) && Nearest(node, r, NonOptimized, |paths|))
    }

    // __nvme_find_path
    method SlowFindPath(node: nat) returns (r: Option<nat>)
      modifies this`currentPath
      ensures Chosen(node, r)
      // The nearest of its state; if distances do not matter, the first.
      ensures r.Some? ==> r.value < |paths| && Usable(paths[r.value], paths[r.value].ana)
      ensures r.Some? && iopolicy.Numa? ==>
        forall j | 0 <= j < |paths| && Usable(paths[j], paths[r.value].ana) ::
          nodeDistance(node, paths[r.value].numaNode) <= nodeDistance(node, paths[j].numaNode)
      ensures r.Some? && iopolicy.RoundRobin? ==> forall j | 0 <= j < r.value :: !Usable(paths[j], paths[r.value].ana)
      ensures currentPath == if r.Some? then old(currentPath)[node := r.value] else old(currentPath)
    {
      var foundDistance, fallbackDistance := INT_MAX, INT_MAX;
      var found: Option<nat>, fallback: Option<nat> := None, None;
      for i := 0 to |paths|
        invariant Nearest(node, found, Optimized, i) && Nearest(node, fallback, NonOptimized, i)
        invariant foundDistance == if found.Some? then Distance(node, paths[found.value]) else INT_MAX
        invariant fallbackDistance == if fallback.Some? then Distance(node, paths[fallback.value]) else INT_MAX
      {
        var ns := paths[i];
        if Disabled(ns) {
          continue;
        }
        var distance := Distance(node, ns);
        match ns.ana
        case Optimized =>
          if distance < foundDistance {
            foundDistance, found := distance, Some(i);
          }
        case NonOptimized =>
          if distance < fallbackDistance {
            fallbackDistance, fallback := distance, Some(i);
          }
        case _ =>
      }
      r := if found.Some? then found else fallback;
      if r.Some? {
        currentPath := currentPath[node := r.value];
      }
    }

    // nvme_round_robin_path; oldNs is the cached path.
    method RoundRobinPath(node: nat, oldNs: nat) returns (r: Option<nat>)
      requires oldNs < |paths|
      modifies this`currentPath
      ensures |paths| == 1 ==> r == if Disabled(paths[oldNs]) then None else Some(oldNs)
      ensures |paths| > 1 ==>
        var start, left := NextNs(|paths|, oldNs), |paths| - 1;
        r == if Seek(paths, start, left).Some? then Seek(paths, start, left) else SeekFallback(paths, start, left)
      ensures currentPath == if r.Some? && |paths| > 1 then old(currentPath)[node := r.value] else old(currentPath)
    {
      if |paths| == 1 {
        return if Disabled(paths[oldNs]) then None else Some(oldNs);
      }
      var n := |paths|;
      var fallback: Option<nat> := None;
      var ns := NextNs(n, oldNs);
      ghost var left := n - 1;
      while ns != oldNs
        invariant ns < n && 0 <= left < n
        invariant ns == if oldNs + n - left < n then oldNs + n - left else oldNs - left
        invariant Seek(paths, NextNs(n, oldNs), n - 1) == Seek(paths, ns, left)
        invariant SeekFallback(paths, NextNs(n, oldNs), n - 1) ==
          var later := SeekFallback(paths, ns, left); if later.Some? then later else fallback
        decreases left
      {
        if !Disabled(paths[ns]) {
          if paths[ns].ana.Optimized? {
            r := Some(ns);
            currentPath := currentPath[node := ns];
            return;
          }
          if paths[ns].ana.NonOptimized? {
            fallback := Some(ns);
          }
        }
        ns := NextNs(n, ns);
        left := left - 1;
      }
      if fallback.None? {
        return None;
      }
      r := fallback;
      currentPath := currentPath[node := r.value];
    }

    // nvme_find_path
    method FindPath(node: nat) returns (r: Option<nat>)
      requires node in currentPath ==> currentPath[node] < |paths|
      requires forall i | 0 <= i < |paths| :: Distance(node, paths[i]) < INT_MAX
      modifies this`currentPath
      // Never a path that is not there, nor one that is not live.
      ensures r.Some? ==> r.value < |paths| && paths[r.value].ctrl.Live?
      ensures currentPath == if r.Some? then old(currentPath)[node := r.value] else old(currentPath)
      // The cached path is taken on trust as long as it is live and optimized.
      ensures iopolicy.Numa? && node in old(currentPath) ==>
        var p := paths[old(currentPath)[node]];
        p.ctrl.Live? && p.ana.Optimized? ==> r == Some(old(currentPath)[node])
      // A disabled path only where the cached one is taken on trust.
      ensures r.Some? && Disabled(paths[r.value]) ==>
        iopolicy.Numa? && node in old(currentPath) && r == Some(old(currentPath)[node])
      // An optimized path if an enabled one exists, else the nearest non-optimized.
      ensures Goods(paths, 0) != [] ==> r.Some? && IsOptimized(paths[r.value])
      ensures r.Some? && !IsOptimized(paths[r.value]) ==> Nearest(node, r, NonOptimized, |paths|)
      // No path exactly when none is usable and none cached is trusted unseen.
      ensures r.None? <==>
        && (forall i | 0 <= i < |paths| :: !Usable(paths[i], Optimized) && !Usable(paths[i], NonOptimized))
        && !(iopolicy.Numa? && node in old(currentPath) && IsOptimized(paths[old(currentPath)[node]]))
      // No other path returned is being removed or waits for its ANA state.
      ensures r.Some? && !(iopolicy.Numa? && node in old(currentPath) && r == Some(old(currentPath)[node])) ==>
        !paths[r.value].anaPending && !paths[r.value].removing
        && (paths[r.value].ana.Optimized? || paths[r.value].ana.NonOptimized?)
      // With an enabled path of either state, one is returned, an optimized one if there is.
      ensures forall p | p in paths && p.ctrl.Live? && !p.anaPending && !p.removing ::
        && (p.ana.Optimized? || p.ana.NonOptimized? ==> r.Some?)
        && (p.ana.Optimized? ==> r.Some? && paths[r.value].ana.Optimized?)
      // Round-robin moves on to the next good path.
      ensures iopolicy.RoundRobin? && node in old(currentPath) && Goods(paths, 0) != [] ==>
        r == After(paths, old(currentPath)[node])
    {
      hide Seek, SeekFallback, Goods, After, AreGoods, NsHead.Nearest, NsHead.Chosen, NsHead.Candidate;
      GoodsAre(paths, 0);
      var ns: Option<nat> := if node in currentPath then Some(currentPath[node]) else None;
      if iopolicy.RoundRobin? && ns.Some? {
        WalkMeaning(paths, ns.value);
        ns := RoundRobinPath(node, ns.value);
      }
      if ns.None? || !IsOptimized(paths[ns.value]) {
        ns := SlowFindPath(node);
        ChosenMeaning(node, ns);
      }
      r := ns;
      forall p | p in paths && p.ctrl.Live? && !p.anaPending && !p.removing
        ensures p.ana.Optimized? ==> Goods(paths, 0) != []
        ensures p.ana.Optimized? || p.ana.NonOptimized? ==> r.Some?
      {
        EnabledPath(p);
      }
    }

    lemma EnabledPath(p: Path)
      requires p in paths && p.ctrl.Live? && !p.anaPending && !p.removing
      ensures exists i :: 0 <= i < |paths| && paths[i] == p && Usable(paths[i], p.ana)
      ensures p.ana.Optimized? ==> Goods(paths, 0) != []
    {
      GoodsAre(paths, 0);
      var i :| 0 <= i < |paths| && paths[i] == p;
      assert Usable(paths[i], p.ana);
      assert p.ana.Optimized? ==> i in Goods(paths, 0);
    }

    lemma ChosenMeaning(node: nat, r: Option<nat>)
      requires forall i | 0 <= i < |paths| :: Distance(node, paths[i]) < INT_MAX
      requires Chosen(node, r)
      ensures r.Some? ==> r.value < |paths| && !Disabled(paths[r.value])
                          && (paths[r.value].ana.Optimized? || paths[r.value].ana.NonOptimized?)
      ensures Goods(paths, 0) != [] ==> r.Some? && Good(paths[r.value])
      ensures r.Some? && !IsOptimized(paths[r.value]) ==> Nearest(node, r, NonOptimized, |paths|)
      ensures r.None? <==> forall i | 0 <= i < |paths| :: !Usable(paths[i], Optimized) && !Usable(paths[i], NonOptimized)
    {
      GoodsAre(paths, 0);
      if Goods(paths, 0) != [] {
        assert Candidate(node, Goods(paths, 0)[0], Optimized);
      }
      if r.None? {
        forall i | 0 <= i < |paths|
          ensures !Usable(paths[i], Optimized) && !Usable(paths[i], NonOptimized)
        {
          assert !Candidate(node, i, Optimized) && !Candidate(node, i, NonOptimized);
        }
      }
    }

    // nvme_available_path
    method AvailablePath() returns (available: bool)
      ensures available <==> exists p :: p in paths && (p.ctrl.Live? || p.ctrl.Resetting? || p.ctrl.Connecting?)
    {
      for i := 0 to |paths|
        invariant forall k | 0 <= k < i :: !paths[k].ctrl.Live? && !paths[k].ctrl.Resetting? && !paths[k].ctrl.Connecting?
      {
        match paths[i].ctrl
        case Live | Resetting | Connecting =>
          assert paths[i] in paths;
          return true;
        case _ =>
      }
      available := false;
    }

    // nvme_mpath_clear_current_path
    method ClearCurrentPath(ns: nat) returns (changed: bool)
      modifies this`currentPath
      ensures currentPath == map node | node in old(currentPath) && old(currentPath)[node] != ns :: old(currentPath)[node]
      ensures changed <==> ns in old(currentPath).Values
    {
      changed := ns in currentPath.Values;
      currentPath := map node | node in currentPath && currentPath[node] != ns :: currentPath[node];
    }

    method SetAnaPending(ns: nat)
      requires ns < |paths|
      modifies this`paths
      ensures paths == old(paths)[ns := old(paths)[ns].(anaPending := true)]
    {
      paths := paths[ns := paths[ns].(anaPending := true)];
    }
  }
}
