/**
  The deterministic dependency order of datatype providers (computeProviderOrder in
  src/datatype_registry.cpp). The graph maps each provider to its dependencies. The counting
  loop is proved to refine a simple schedule that always takes the least available provider,
  and the schedule is proved to be the least of all dependency orders.
 */
module ProviderOrder {
  import opened Wrappers
  import opened Ordering

  type Graph = map<Bytes, seq<Bytes>>

  datatype OrderError =
    | MissingDependency(provider: Bytes, dependency: Bytes)
    | CyclicDependency(names: seq<Bytes>)

  // ------------------------------------------------------------ least elements

  ghost predicate IsLeast(x: Bytes, s: set<Bytes>)
  {
    x in s && forall y :: y in s ==> x == y || Less(x, y)
  }

  lemma {:induction false} LeastExists(s: set<Bytes>)
    requires s != {}
    ensures exists x :: IsLeast(x, s)
  {
    var x :| x in s;
    if s - {x} == {} {
      assert forall y :: y in s ==> y == x || y in s - {x};
      assert IsLeast(x, s);
    } else {
      LeastExists(s - {x});
      var y :| IsLeast(y, s - {x});
      LessConnected(x, y);
      if Less(x, y) {
        forall z | z in s ensures x == z || Less(x, z) {
          if z != x && z != y { LessTransitive(x, y, z); }
        }
        assert IsLeast(x, s);
      } else {
        assert IsLeast(y, s);
      }
    }
  }

  lemma LeastIsUnique(x: Bytes, y: Bytes, s: set<Bytes>)
    requires IsLeast(x, s) && IsLeast(y, s)
    ensures x == y
  {
    if x != y {
      LessTransitive(x, y, x);
      LessIrreflexive(x);
    }
  }

  ghost function Least(s: set<Bytes>): (x: Bytes)
    requires s != {}
    ensures IsLeast(x, s)
  {
    LeastExists(s);
    var x :| IsLeast(x, s);
    x
  }

  /** The keys of a std::map in iteration order. */
  method SortedNames(s: set<Bytes>) returns (r: seq<Bytes>)
    ensures StrictlySorted(Less, r) && Elements(r) == s
  {
    LessIsStrictTotalOrder();
    r := [];
    var rest := s;
    while rest != {}
      invariant rest <= s
      invariant StrictlySorted(Less, r) && Elements(r) == s - rest
      decreases rest
    {
      var x :| x in rest;
      InsertSorts(Less, r, x);
      r := Insert(Less, r, x);
      rest := rest - {x};
    }
  }

  // --------------------------------------------------------- dependency orders

  ghost predicate AllPresent(g: Graph)
  {
    forall n, d :: n in g && d in g[n] ==> d in g
  }

  /** A walk along dependencies that comes back to where it started. */
  ghost predicate Cycle(g: Graph, c: seq<Bytes>)
  {
    && |c| > 1
    && c[0] == c[|c| - 1]
    && forall i :: 0 <= i < |c| - 1 ==> c[i] in g && c[i + 1] in g[c[i]]
  }

  ghost predicate Acyclic(g: Graph)
  {
    !exists c :: Cycle(g, c)
  }

  /** Every provider exactly once, each after all of its dependencies. */
  ghost predicate DependencyOrder(g: Graph, order: seq<Bytes>)
  {
    && Elements(order) == g.Keys
    && NoDuplicates(order)
    && forall i, d :: 0 <= i < |order| && d in g[order[i]] ==> d in order[..i]
  }

  /** The order of std::vector<std::string>: decided at the first difference. */
  ghost predicate Before(a: seq<Bytes>, b: seq<Bytes>)
  {
    exists i :: 0 <= i < |a| && i < |b| && a[..i] == b[..i] && Less(a[i], b[i])
  }

  ghost function Waiting(g: Graph, n: Bytes, done: set<Bytes>): set<Bytes>
    requires n in g
  {
    set d | d in g[n] && d !in done
  }

  /** Providers not yet ordered whose dependencies all are. */
  ghost function Available(g: Graph, done: set<Bytes>): set<Bytes>
  {
    set n | n in g && n !in done && Waiting(g, n, done) == {}
  }

  /** The simple schedule: extend the order by the least available provider until none is left. */
  ghost function ScheduleFrom(g: Graph, order: seq<Bytes>): seq<Bytes>
    decreases g.Keys - Elements(order)
  {
    var ready := Available(g, Elements(order));
    if ready == {} then order
    else
      var next := Least(ready);
      assert Elements(order + [next]) == Elements(order) + {next};
      ScheduleFrom(g, order + [next])
  }

  ghost function Schedule(g: Graph): seq<Bytes>
  {
    ScheduleFrom(g, [])
  }

  /** A prefix built greedily: distinct providers, each the least one available at its turn. */
  ghost predicate Greedy(g: Graph, order: seq<Bytes>)
  {
    forall i :: 0 <= i < |order| ==> IsLeast(order[i], Available(g, Elements(order[..i])))
  }

  lemma GreedyExtends(g: Graph, order: seq<Bytes>, next: Bytes)
    requires Greedy(g, order) && IsLeast(next, Available(g, Elements(order)))
    ensures Greedy(g, order + [next])
    ensures Elements(order + [next]) == Elements(order) + {next}
  {
    var longer := order + [next];
    forall i | 0 <= i < |longer| ensures IsLeast(longer[i], Available(g, Elements(longer[..i]))) {
      if i < |order| {
        assert longer[..i] == order[..i];
      } else {
        assert longer[..i] == order;
      }
    }
  }

  lemma {:induction false} ScheduleIsGreedy(g: Graph, order: seq<Bytes>)
    requires Greedy(g, order)
    ensures Greedy(g, ScheduleFrom(g, order))
    ensures Available(g, Elements(ScheduleFrom(g, order))) == {}
    decreases g.Keys - Elements(order)
  {
    var ready := Available(g, Elements(order));
    if ready != {} {
      GreedyExtends(g, order, Least(ready));
      ScheduleIsGreedy(g, order + [Least(ready)]);
    }
  }

  lemma GreedyFacts(g: Graph, order: seq<Bytes>)
    requires Greedy(g, order)
    ensures Elements(order) <= g.Keys && NoDuplicates(order)
    ensures forall i, d :: 0 <= i < |order| && d in g[order[i]] ==> d in order[..i]
  {
    forall x | x in Elements(order) ensures x in g {
      var i :| 0 <= i < |order| && order[i] == x;
      assert IsLeast(order[i], Available(g, Elements(order[..i])));
    }
    forall i, j | 0 <= i < j < |order| ensures order[i] != order[j] {
      assert IsLeast(order[j], Available(g, Elements(order[..j])));
      assert order[..j][i] == order[i];
    }
    forall i, d | 0 <= i < |order| && d in g[order[i]] ensures d in order[..i] {
      assert IsLeast(order[i], Available(g, Elements(order[..i])));
      assert d !in Waiting(g, order[i], Elements(order[..i]));
    }
  }

  ghost predicate HasDependencyIn(g: Graph, s: set<Bytes>, n: Bytes)
  {
    n in g && exists d :: d in g[n] && d in s
  }

  ghost predicate EachHasDependencyIn(g: Graph, s: set<Bytes>)
  {
    forall n {:trigger HasDependencyIn(g, s, n)} :: n in s ==> HasDependencyIn(g, s, n)
  }

  /** When nothing more is available, the unordered providers are those that still wait on one another. */
  lemma StuckProviders(g: Graph, order: seq<Bytes>)
    requires AllPresent(g) && Greedy(g, order) && Available(g, Elements(order)) == {}
    ensures forall n :: n in g ==> (n !in order <==> Waiting(g, n, Elements(order)) != {})
    ensures EachHasDependencyIn(g, g.Keys - Elements(order))
  {
    GreedyFacts(g, order);
    forall n | n in g ensures n !in order <==> Waiting(g, n, Elements(order)) != {} {
      if n in order {
        var i :| 0 <= i < |order| && order[i] == n;
        forall d | d in g[n] ensures d in Elements(order) {
          assert d in order[..i];
        }
      } else {
        assert n !in Available(g, Elements(order));
      }
    }
    var stuck := g.Keys - Elements(order);
    forall n | n in stuck ensures HasDependencyIn(g, stuck, n) {
      assert n !in order;
      var d :| d in Waiting(g, n, Elements(order));
      assert d in g[n] && d in stuck;
    }
  }

  ghost predicate IsWalk(g: Graph, stuck: set<Bytes>, walk: seq<Bytes>)
  {
    && walk != []
    && Elements(walk) <= stuck
    && forall i :: 0 <= i < |walk| - 1 ==> walk[i] in g && walk[i + 1] in g[walk[i]]
  }

  /** Providers that all wait on one another contain a cycle. */
  lemma {:induction false} WalkFindsCycle(g: Graph, stuck: set<Bytes>, walk: seq<Bytes>) returns (c: seq<Bytes>)
    requires stuck <= g.Keys && EachHasDependencyIn(g, stuck)
    requires IsWalk(g, stuck, walk) && NoDuplicates(walk)
    ensures Cycle(g, c) && Elements(c) <= stuck
    decreases |stuck| - |walk|
  {
    DistinctFit(walk, stuck);
    assert walk[|walk| - 1] in Elements(walk);
    assert HasDependencyIn(g, stuck, walk[|walk| - 1]);
    var d :| d in g[walk[|walk| - 1]] && d in stuck;
    if d in walk {
      c := CloseWalk(g, stuck, walk, d);
    } else {
      assert Elements(walk + [d]) == Elements(walk) + {d};
      DistinctFit(walk + [d], stuck);
      c := WalkFindsCycle(g, stuck, walk + [d]);
    }
  }

  lemma CloseWalk(g: Graph, stuck: set<Bytes>, walk: seq<Bytes>, d: Bytes) returns (c: seq<Bytes>)
    requires stuck <= g.Keys && IsWalk(g, stuck, walk) && walk[|walk| - 1] in Elements(walk)
    requires d in g[walk[|walk| - 1]] && d in walk
    ensures Cycle(g, c) && Elements(c) <= stuck
  {
    var i :| 0 <= i < |walk| && walk[i] == d;
    c := walk[i..] + [d];
    forall j | 0 <= j < |c| - 1 ensures c[j] in g && c[j + 1] in g[c[j]] {
      assert c[j] == walk[i + j];
      assert walk[i + j] in Elements(walk);
    }
    forall x | x in Elements(c) ensures x in stuck {
      var k :| 0 <= k < |c| && c[k] == x;
      assert x in Elements(walk) by { assert k == |c| - 1 || x == walk[i + k]; }
    }
  }

  lemma {:induction false} DistinctFit<T>(s: seq<T>, all: set<T>)
    requires NoDuplicates(s) && Elements(s) <= all
    ensures |s| <= |all|
  {
    if s != [] {
      var last := s[|s| - 1];
      assert s == s[..|s| - 1] + [last];
      assert last in all;
      DistinctFit(s[..|s| - 1], all - {last});
    }
  }

  lemma {:induction false} OrderedBefore(g: Graph, order: seq<Bytes>, c: seq<Bytes>, k: nat) returns (p: nat)
    requires DependencyOrder(g, order) && Cycle(g, c) && k < |c|
    ensures p < |order| && order[p] == c[k]
    ensures k > 0 ==> exists q :: p < q < |order| && order[q] == c[0]
  {
    if k == 0 {
      assert c[0] in g && c[0] in Elements(order);
      p :| 0 <= p < |order| && order[p] == c[0];
    } else {
      var q := OrderedBefore(g, order, c, k - 1);
      assert c[k] in g[order[q]];
      assert c[k] in order[..q];
      p :| 0 <= p < q && order[p] == c[k];
      if k == 1 {
        assert order[q] == c[0];
      }
    }
  }

  lemma OrderExcludesCycles(g: Graph, order: seq<Bytes>)
    requires DependencyOrder(g, order)
    ensures Acyclic(g) && AllPresent(g)
  {
    forall c ensures !Cycle(g, c) {
      if Cycle(g, c) {
        var p := OrderedBefore(g, order, c, |c| - 1);
      }
    }
    forall n, d | n in g && d in g[n] ensures d in g {
      assert n in Elements(order);
      var i :| 0 <= i < |order| && order[i] == n;
      assert d in order[..i];
      assert d in Elements(order);
    }
  }

  /** The greedy schedule orders everything exactly when the graph is closed and acyclic. */
  lemma ScheduleCompletes(g: Graph)
    requires AllPresent(g)
    ensures DependencyOrder(g, Schedule(g)) <==> Acyclic(g)
    ensures DependencyOrder(g, Schedule(g)) <==> |Schedule(g)| == |g|
    ensures !Acyclic(g) ==> exists c :: Cycle(g, c) && Elements(c) <= g.Keys - Elements(Schedule(g))
  {
    ScheduleIsGreedy(g, []);
    var order := Schedule(g);
    GreedyFacts(g, order);
    CountElements(order);
    assert |g| == |g.Keys|;
    if Elements(order) == g.Keys {
      OrderExcludesCycles(g, order);
    } else {
      var c := StuckProvidersHaveCycle(g, order);
      FewerElements(Elements(order), g.Keys);
    }
  }

  lemma FewerElements<T>(part: set<T>, all: set<T>)
    requires part < all
    ensures |part| < |all|
  {
    assert all == part + (all - part);
    assert all - part != {};
  }

  lemma StuckProvidersHaveCycle(g: Graph, order: seq<Bytes>) returns (c: seq<Bytes>)
    requires AllPresent(g) && Greedy(g, order) && Available(g, Elements(order)) == {}
    requires Elements(order) != g.Keys
    ensures Cycle(g, c) && Elements(c) <= g.Keys - Elements(order)
  {
    GreedyFacts(g, order);
    StuckProviders(g, order);
    var stuck := g.Keys - Elements(order);
    assert g.Keys <= Elements(order) + stuck;
    var n :| n in stuck;
    c := WalkFindsCycle(g, stuck, [n]);
  }

  lemma {:induction false} CountElements<T>(s: seq<T>)
    requires NoDuplicates(s)
    ensures |Elements(s)| == |s|
  {
    if s != [] {
      var last := s[|s| - 1];
      assert s == s[..|s| - 1] + [last];
      CountElements(s[..|s| - 1]);
      assert Elements(s) == Elements(s[..|s| - 1]) + {last};
    }
  }

  /** No dependency order comes before the schedule, so it does not depend on registration order. */
  lemma ScheduleIsLeast(g: Graph, other: seq<Bytes>)
    requires DependencyOrder(g, Schedule(g)) && DependencyOrder(g, other)
    ensures Schedule(g) == other || Before(Schedule(g), other)
  {
    ScheduleIsGreedy(g, []);
    CountElements(other);
    CountElements(Schedule(g));
    GreedyComesFirst(g, Schedule(g), other, 0);
  }

  lemma NextIsAvailable(g: Graph, order: seq<Bytes>, i: nat)
    requires DependencyOrder(g, order) && i < |order|
    ensures order[i] in Available(g, Elements(order[..i]))
  {
    assert order[i] in Elements(order);
    forall d | d in g[order[i]] ensures d in Elements(order[..i]) {
      assert d in order[..i];
    }
    assert order[i] !in order[..i];
  }

  lemma {:induction false} GreedyComesFirst(g: Graph, order: seq<Bytes>, other: seq<Bytes>, i: nat)
    requires Greedy(g, order) && DependencyOrder(g, other) && |order| == |other|
    requires i <= |order| && order[..i] == other[..i]
    ensures order == other || Before(order, other)
    decreases |order| - i
  {
    if i == |order| {
      assert order == order[..i] && other == other[..i];
    } else {
      var done := Elements(order[..i]);
      NextIsAvailable(g, other, i);
      assert IsLeast(order[i], Available(g, done));
      if order[i] == other[i] {
        TakeMore(order, i);
        TakeMore(other, i);
        GreedyComesFirst(g, order, other, i + 1);
      }
    }
  }

  // ----------------------------------------------------------- the counting loop

  /** First loop: report the first dependency that is not registered. */
  method FindMissing(g: Graph, names: seq<Bytes>) returns (error: Option<OrderError>)
    requires Elements(names) == g.Keys
    ensures error.None? <==> AllPresent(g)
    ensures error.Some? ==> error.value.MissingDependency?
                            && error.value.provider in g && error.value.dependency in g[error.value.provider]
                            && error.value.dependency !in g
  {
    for i := 0 to |names|
      invariant forall n, d :: n in names[..i] && d in g[n] ==> d in g
    {
      assert names[i] in Elements(names);
      var dependencies := g[names[i]];
      for k := 0 to |dependencies|
        invariant forall d :: d in dependencies[..k] ==> d in g
      {
        if dependencies[k] !in g {
          return Some(MissingDependency(names[i], dependencies[k]));
        }
      }
      TakeAll(dependencies);
    }
    TakeAll(names);
    forall n, d | n in g && d in g[n] ensures d in g {
      assert n in Elements(names);
    }
    return None;
  }

  ghost predicate IsDependents(g: Graph, dependents: map<Bytes, seq<Bytes>>)
  {
    && dependents.Keys == g.Keys
    && forall n :: n in g ==> NoDuplicates(dependents[n])
                              && forall m :: m in dependents[n] <==> m in g && n in g[m]
  }

  /** The reverse edges, each list sorted by name. */
  method CollectDependents(g: Graph, names: seq<Bytes>) returns (dependents: map<Bytes, seq<Bytes>>)
    requires StrictlySorted(Less, names) && Elements(names) == g.Keys
    ensures IsDependents(g, dependents)
  {
    dependents := map[];
    for i := 0 to |names|
      invariant dependents.Keys == Elements(names[..i])
      invariant forall n :: n in dependents ==> NoDuplicates(dependents[n])
                                                && forall m :: m in dependents[n] <==> m in g && n in g[m]
    {
      var name := names[i];
      TakeMore(names, i);
      var users := UsersOf(g, names, name);
      dependents := dependents[name := users];
    }
    TakeAll(names);
  }

  method UsersOf(g: Graph, names: seq<Bytes>, name: Bytes) returns (users: seq<Bytes>)
    requires StrictlySorted(Less, names) && Elements(names) == g.Keys
    ensures NoDuplicates(users)
    ensures forall m :: m in users <==> m in g && name in g[m]
  {
    users := [];
    for k := 0 to |names|
      invariant forall m :: m in users <==> m in names[..k] && m in g && name in g[m]
      invariant NoDuplicates(users)
    {
      assert names[k] in Elements(names);
      assert names[k] !in names[..k] by {
        if names[k] in names[..k] {
          var j :| 0 <= j < k && names[j] == names[k];
          LessIrreflexive(names[k]);
        }
      }
      if name in g[names[k]] {
        users := users + [names[k]];
      }
      TakeMore(names, k);
    }
    TakeAll(names);
    forall m | m in g ensures m in names { assert m in Elements(names); }
  }

  /** What the counters and the ready set mean once `done` has been ordered. */
  ghost predicate Counts(g: Graph, indegree: map<Bytes, nat>, done: set<Bytes>)
  {
    && indegree.Keys == g.Keys
    && forall n :: n in g ==> indegree[n] == |Waiting(g, n, done)|
  }

  method ComputeProviderOrder(g: Graph) returns (r: Result<seq<Bytes>, OrderError>)
    requires forall n :: n in g ==> NoDuplicates(g[n])
    ensures r.Ok? <==> AllPresent(g) && Acyclic(g)
    ensures r.Ok? ==> r.value == Schedule(g) && DependencyOrder(g, r.value)
    ensures r.Err? && r.error.MissingDependency? ==>
              r.error.provider in g && r.error.dependency in g[r.error.provider] && r.error.dependency !in g
    ensures r.Err? && r.error.CyclicDependency? ==>
              && AllPresent(g)
              && StrictlySorted(Less, r.error.names)
              && Elements(r.error.names) == g.Keys - Elements(Schedule(g))
              && exists c :: Cycle(g, c) && Elements(c) <= Elements(r.error.names)
  {
    var names := SortedNames(g.Keys);
    var missing := FindMissing(g, names);
    if missing.Some? {
      return Err(missing.value);
    }
    var order, indegree := CountDown(g, names);
    ScheduleCompletes(g);
    if |order| != |g| {
      StuckProviders(g, order);
      ghost var c := StuckProvidersHaveCycle(g, order);
      assert forall n :: n in g ==> (indegree[n] != 0 <==> n !in order);
      var stuck := NonzeroNames(names, indegree, Elements(order));
      return Err(CyclicDependency(stuck));
    }
    return Ok(order);
  }

  method CountDown(g: Graph, names: seq<Bytes>) returns (order: seq<Bytes>, indegree: map<Bytes, nat>)
    requires StrictlySorted(Less, names) && Elements(names) == g.Keys
    requires forall n :: n in g ==> NoDuplicates(g[n])
    ensures order == Schedule(g) && Greedy(g, order)
    ensures Available(g, Elements(order)) == {}
    ensures Counts(g, indegree, Elements(order))
  {
    var dependents := CollectDependents(g, names);
    var ready: set<Bytes>;
    indegree, ready := InitialCounts(g, names);
    order := [];
    assert Elements(order) == {};
    while ready != {}
      invariant Greedy(g, order) && Elements(order) <= g.Keys
      invariant Counts(g, indegree, Elements(order))
      invariant ready == Available(g, Elements(order))
      invariant ScheduleFrom(g, order) == Schedule(g)
      decreases g.Keys - Elements(order)
    {
      LeastExists(ready);
      var name :| name in ready && forall y :: y in ready ==> name == y || Less(name, y);
      ghost var done := Elements(order);
      ScheduleStep(g, order, name);
      indegree, ready := Release(g, dependents[name], indegree, ready, name, done);
      order := order + [name];
    }
  }

  lemma ScheduleStep(g: Graph, order: seq<Bytes>, name: Bytes)
    requires Greedy(g, order) && IsLeast(name, Available(g, Elements(order)))
    ensures Greedy(g, order + [name])
    ensures Elements(order + [name]) == Elements(order) + {name}
    ensures Elements(order) <= Elements(order + [name]) <= g.Keys
    ensures ScheduleFrom(g, order + [name]) == ScheduleFrom(g, order)
    ensures forall n :: n in Elements(order) ==> Waiting(g, n, Elements(order)) == {}
  {
    LeastIsUnique(name, Least(Available(g, Elements(order))), Available(g, Elements(order)));
    GreedyExtends(g, order, name);
    GreedyFacts(g, order);
    forall n | n in Elements(order) ensures Waiting(g, n, Elements(order)) == {} {
      var i :| 0 <= i < |order| && order[i] == n;
      forall d | d in g[n] ensures d in Elements(order) { assert d in order[..i]; }
    }
  }

  method InitialCounts(g: Graph, names: seq<Bytes>) returns (indegree: map<Bytes, nat>, ready: set<Bytes>)
    requires Elements(names) == g.Keys
    requires forall n :: n in g ==> NoDuplicates(g[n])
    ensures Counts(g, indegree, {}) && ready == Available(g, {})
  {
    indegree, ready := map[], {};
    for i := 0 to |names|
      invariant indegree.Keys == Elements(names[..i])
      invariant forall n :: n in indegree ==> n in g && indegree[n] == |g[n]|
      invariant ready == set n | n in indegree && indegree[n] == 0
    {
      assert names[i] in Elements(names);
      TakeMore(names, i);
      indegree := indegree[names[i] := |g[names[i]]|];
      if |g[names[i]]| == 0 {
        ready := ready + {names[i]};
      }
    }
    TakeAll(names);
    forall n | n in g ensures |g[n]| == |Waiting(g, n, {})| {
      CountElements(g[n]);
      assert Waiting(g, n, {}) == Elements(g[n]);
    }
  }

  /** Inner loop: the dependents of a newly ordered provider each wait for one provider less. */
  method Release(g: Graph, users: seq<Bytes>, indegree0: map<Bytes, nat>, ready0: set<Bytes>, name: Bytes,
                 ghost done: set<Bytes>)
    returns (indegree: map<Bytes, nat>, ready: set<Bytes>)
    requires NoDuplicates(users) && forall m :: m in users <==> m in g && name in g[m]
    requires Counts(g, indegree0, done) && ready0 == Available(g, done) && name in ready0
    requires done <= g.Keys && forall n :: n in done ==> Waiting(g, n, done) == {}
    ensures Counts(g, indegree, done + {name}) && ready == Available(g, done + {name})
  {
    indegree, ready := indegree0, ready0 - {name};
    ghost var seen: set<Bytes> := {};
    assert Freed(g, {}, done + {name}) == {};
    for k := 0 to |users|
      invariant seen == Elements(users[..k])
      invariant PartlyReleased(g, indegree, ready, ready0, name, done, seen)
    {
      var dependent := users[k];
      assert dependent in users && dependent !in seen;
      TakeMore(users, k);
      ReleaseOne(g, indegree, ready, ready0, name, done, seen, dependent);
      indegree := indegree[dependent := indegree[dependent] - 1];
      if indegree[dependent] == 0 {
        ready := ready + {dependent};
      }
      seen := seen + {dependent};
    }
    TakeAll(users);
    ReleasedAll(g, users, indegree, ready, ready0, name, done);
  }

  lemma ReleasedAll(g: Graph, users: seq<Bytes>, indegree: map<Bytes, nat>, ready: set<Bytes>, ready0: set<Bytes>,
                    name: Bytes, done: set<Bytes>)
    requires forall m :: m in users <==> m in g && name in g[m]
    requires ready0 == Available(g, done) && name in ready0
    requires done <= g.Keys && forall n :: n in done ==> Waiting(g, n, done) == {}
    requires PartlyReleased(g, indegree, ready, ready0, name, done, Elements(users))
    ensures Counts(g, indegree, done + {name}) && ready == Available(g, done + {name})
  {
    forall n | n in g ensures indegree[n] == |Waiting(g, n, done + {name})| {
      if n !in Elements(users) {
        assert n !in users;
        assert Waiting(g, n, done) == Waiting(g, n, done + {name});
      }
    }
    NewlyAvailable(g, users, name, done);
  }

  ghost predicate PartlyReleased(g: Graph, indegree: map<Bytes, nat>, ready: set<Bytes>, ready0: set<Bytes>,
                                 name: Bytes, done: set<Bytes>, seen: set<Bytes>)
  {
    && indegree.Keys == g.Keys
    && seen <= g.Keys
    && (forall n {:trigger indegree[n]} :: n in seen ==> indegree[n] == |Waiting(g, n, done + {name})|)
    && (forall n {:trigger indegree[n]} :: n in g && n !in seen ==> indegree[n] == |Waiting(g, n, done)|)
    && ready == (ready0 - {name}) + Freed(g, seen, done + {name})
  }

  lemma ReleaseOne(g: Graph, indegree: map<Bytes, nat>, ready: set<Bytes>, ready0: set<Bytes>,
                   name: Bytes, done: set<Bytes>, seen: set<Bytes>, n: Bytes)
    requires PartlyReleased(g, indegree, ready, ready0, name, done, seen)
    requires n in g && name in g[n] && n !in seen && name !in done
    ensures indegree[n] > 0
    ensures PartlyReleased(g, indegree[n := indegree[n] - 1],
                           if indegree[n] == 1 then ready + {n} else ready, ready0, name, done, seen + {n})
  {
    WaitingShrinks(g, n, name, done);
    var after := done + {name};
    var fewer := indegree[n := indegree[n] - 1];
    forall m | m in seen + {n} ensures fewer[m] == |Waiting(g, m, after)| {}
    forall m | m in g && m !in seen + {n} ensures fewer[m] == |Waiting(g, m, done)| {}
    FreedOne(g, seen, n, after);
  }

  lemma FreedOne(g: Graph, seen: set<Bytes>, n: Bytes, done: set<Bytes>)
    requires n in g
    ensures Freed(g, seen + {n}, done) ==
            Freed(g, seen, done) + (if |Waiting(g, n, done)| == 0 then {n} else {})
  {
    assert Waiting(g, n, done) == {} <==> |Waiting(g, n, done)| == 0;
  }

  ghost function Freed(g: Graph, among: set<Bytes>, done: set<Bytes>): set<Bytes>
  {
    set n | n in among && n in g && Waiting(g, n, done) == {}
  }

  lemma WaitingShrinks(g: Graph, n: Bytes, name: Bytes, done: set<Bytes>)
    requires n in g && name in g[n] && name !in done
    ensures Waiting(g, n, done + {name}) == Waiting(g, n, done) - {name}
    ensures |Waiting(g, n, done + {name})| == |Waiting(g, n, done)| - 1
  {
    assert name in Waiting(g, n, done);
    assert Waiting(g, n, done + {name}) == Waiting(g, n, done) - {name};
  }

  lemma NewlyAvailable(g: Graph, users: seq<Bytes>, name: Bytes, done: set<Bytes>)
    requires forall m :: m in users <==> m in g && name in g[m]
    requires name in Available(g, done)
    requires done <= g.Keys && forall n :: n in done ==> Waiting(g, n, done) == {}
    ensures Available(g, done + {name}) ==
            (Available(g, done) - {name}) + Freed(g, Elements(users), done + {name})
  {
    forall n | n in users && Waiting(g, n, done + {name}) == {} ensures n in Available(g, done + {name}) {
      assert name in Waiting(g, n, done);
    }
    forall n | n in Available(g, done) - {name} ensures n in Available(g, done + {name}) {
      assert Waiting(g, n, done + {name}) <= Waiting(g, n, done);
    }
    forall n | n in Available(g, done + {name}) && n !in users ensures n in Available(g, done) - {name} {
      assert Waiting(g, n, done) == Waiting(g, n, done + {name});
    }
  }

  ghost function Kept(names: seq<Bytes>, dropped: set<Bytes>): seq<Bytes>
  {
    if names == [] then []
    else
      var last := names[|names| - 1];
      Kept(names[..|names| - 1], dropped) + if last in dropped then [] else [last]
  }

  lemma {:induction false} KeptElements(names: seq<Bytes>, dropped: set<Bytes>)
    ensures Elements(Kept(names, dropped)) == Elements(names) - dropped
  {
    if names != [] {
      var n, last := |names| - 1, names[|names| - 1];
      KeptElements(names[..n], dropped);
      assert names == names[..n] + [last];
      assert Elements(names) == Elements(names[..n]) + {last};
      var k := Kept(names[..n], dropped);
      assert Elements(k + [last]) == Elements(k) + {last};
      assert k + [] == k;
    }
  }

  lemma {:induction false} KeptSorted(names: seq<Bytes>, dropped: set<Bytes>)
    requires StrictlySorted(Less, names)
    ensures StrictlySorted(Less, Kept(names, dropped))
  {
    if names != [] {
      var n := |names| - 1;
      KeptSorted(names[..n], dropped);
      KeptElements(names[..n], dropped);
      var k := Kept(names[..n], dropped);
      forall i | 0 <= i < |k| ensures Less(k[i], names[n]) {
        assert k[i] in Elements(k);
        var j :| 0 <= j < n && names[j] == k[i];
      }
    }
  }

  method NonzeroNames(names: seq<Bytes>, indegree: map<Bytes, nat>, ghost done: set<Bytes>)
    returns (stuck: seq<Bytes>)
    requires StrictlySorted(Less, names) && Elements(names) == indegree.Keys
    requires forall n :: n in indegree ==> (indegree[n] != 0 <==> n !in done)
    ensures StrictlySorted(Less, stuck) && Elements(stuck) == indegree.Keys - done
  {
    stuck := [];
    for i := 0 to |names|
      invariant stuck == Kept(names[..i], done)
    {
      assert names[i] in Elements(names);
      assert names[..i + 1][..i] == names[..i];
      if indegree[names[i]] != 0 {
        stuck := stuck + [names[i]];
      }
    }
    TakeAll(names);
    KeptSorted(names, done);
    KeptElements(names, done);
  }
}
