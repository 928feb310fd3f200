/** The artifact dependency graph: the two breadth-first searches that read it, and what
    they compute in terms of walks. */
module Graph {
  import opened Texts

  type Id = Text

  /** A row of the `dependencies` table: `artifact` was derived from `dependency`. */
  datatype DependencyRow = DependencyRow(artifact: Id, dependency: Id, relation: Text)

  ghost predicate Edge(rows: seq<DependencyRow>, a: Id, b: Id)
  {
    exists i :: 0 <= i < |rows| && rows[i].artifact == a && rows[i].dependency == b
  }

  ghost predicate Walk(rows: seq<DependencyRow>, p: seq<Id>)
  {
    p != [] && forall i :: 0 <= i < |p| - 1 ==> Edge(rows, p[i], p[i + 1])
  }

  ghost predicate WalkFromTo(rows: seq<DependencyRow>, p: seq<Id>, a: Id, b: Id)
  {
    Walk(rows, p) && p[0] == a && p[|p| - 1] == b
  }

  /** `a` is `b` or was derived from it, directly or not. */
  ghost predicate Reaches(rows: seq<DependencyRow>, a: Id, b: Id)
  {
    exists p :: WalkFromTo(rows, p, a, b)
  }

  /** `a` was derived from `b` through at least one dependency. */
  ghost predicate DependsOn(rows: seq<DependencyRow>, a: Id, b: Id)
  {
    exists p :: WalkFromTo(rows, p, a, b) && |p| >= 2
  }

  ghost predicate Acyclic(rows: seq<DependencyRow>)
  {
    forall v :: !DependsOn(rows, v, v)
  }

  /** Both ends of every dependency exist. */
  ghost predicate ClosedOver(rows: seq<DependencyRow>, versions: set<Id>)
  {
    forall i :: 0 <= i < |rows| ==> rows[i].artifact in versions && rows[i].dependency in versions
  }

  lemma ReachesSelf(rows: seq<DependencyRow>, a: Id)
    ensures Reaches(rows, a, a)
  {
    assert WalkFromTo(rows, [a], a, a);
  }

  lemma ReachesIsDependsOrSame(rows: seq<DependencyRow>, a: Id, b: Id)
    ensures Reaches(rows, a, b) <==> a == b || DependsOn(rows, a, b)
  {
    if a == b {
      ReachesSelf(rows, a);
    }
  }

  lemma EdgeThenReaches(rows: seq<DependencyRow>, a: Id, m: Id, b: Id)
    requires Edge(rows, a, m) && Reaches(rows, m, b)
    ensures DependsOn(rows, a, b)
  {
    var p :| WalkFromTo(rows, p, m, b);
    assert WalkFromTo(rows, [a] + p, a, b);
  }

  lemma ReachesTransitive(rows: seq<DependencyRow>, a: Id, m: Id, b: Id)
    requires Reaches(rows, a, m) && Reaches(rows, m, b)
    ensures Reaches(rows, a, b)
  {
    var p :| WalkFromTo(rows, p, a, m);
    var q :| WalkFromTo(rows, q, m, b);
    var pq := p + q[1..];
    forall i | 0 <= i < |pq| - 1 ensures Edge(rows, pq[i], pq[i + 1]) {
      if i >= |p| - 1 {
        assert Edge(rows, q[i - |p| + 1], q[i - |p| + 2]);
      }
    }
    assert WalkFromTo(rows, pq, a, b);
  }

  /** Every dependant of a closed set's members lies in the set. */
  ghost predicate HoldsDependants(rows: seq<DependencyRow>, target: Id, found: set<Id>)
  {
    forall a, b :: Edge(rows, a, b) && (b == target || b in found) ==> a in found
  }

  lemma {:induction false} WalkStaysInside(rows: seq<DependencyRow>, target: Id, found: set<Id>, p: seq<Id>)
    requires HoldsDependants(rows, target, found)
    requires Walk(rows, p) && p[|p| - 1] == target && |p| >= 2
    ensures p[0] in found
    decreases |p|
  {
    assert Edge(rows, p[0], p[1]);
    if |p| > 2 {
      var q := p[1..];
      forall i | 0 <= i < |q| - 1 ensures Edge(rows, q[i], q[i + 1]) {
        assert q[i] == p[i + 1] && q[i + 1] == p[i + 1 + 1];
      }
      WalkStaysInside(rows, target, found, q);
    }
  }

  /** The map the reverse search builds first: each version to its direct dependants. */
  function ReverseIndex(rows: seq<DependencyRow>): map<Id, seq<Id>>
  {
    if rows == [] then map[] else
    var index, row := ReverseIndex(rows[..|rows| - 1]), rows[|rows| - 1];
    index[row.dependency := Dependants(index, row.dependency) + [row.artifact]]
  }

  function Dependants(index: map<Id, seq<Id>>, d: Id): seq<Id>
  {
    if d in index then index[d] else []
  }

  lemma {:induction false} ReverseIndexExact(rows: seq<DependencyRow>, a: Id, d: Id)
    ensures a in Dependants(ReverseIndex(rows), d) <==> Edge(rows, a, d)
  {
    if rows != [] {
      var init, row := rows[..|rows| - 1], rows[|rows| - 1];
      ReverseIndexExact(init, a, d);
      if Edge(init, a, d) {
        var k :| 0 <= k < |init| && init[k].artifact == a && init[k].dependency == d;
        assert rows[k] == init[k];
      }
      if Edge(rows, a, d) && !Edge(init, a, d) {
        var k :| 0 <= k < |rows| && rows[k].artifact == a && rows[k].dependency == d;
        assert init + [row] == rows;
      }
    }
  }

  method BuildReverse(rows: seq<DependencyRow>) returns (reverse: map<Id, seq<Id>>)
    ensures forall a, d :: a in Dependants(reverse, d) <==> Edge(rows, a, d)
  {
    reverse := map[];
    for i := 0 to |rows|
      invariant reverse == ReverseIndex(rows[..i])
    {
      assert rows[..i + 1][..i] == rows[..i];
      reverse := reverse[rows[i].dependency := Dependants(reverse, rows[i].dependency) + [rows[i].artifact]];
    }
    assert rows[..|rows|] == rows;
    forall a, d ensures a in Dependants(reverse, d) <==> Edge(rows, a, d) {
      ReverseIndexExact(rows, a, d);
    }
  }

  /** Marks the versions not met before and queues exactly those. */
  method Mark(todo: seq<Id>, found: set<Id>, queued: seq<Id>) returns (result: set<Id>, pending: seq<Id>)
    ensures result == found + Elements(todo)
    ensures forall v :: v in pending <==> v in queued || (v in todo && v !in found)
    ensures result == found ==> pending == queued
  {
    result, pending := found, queued;
    for j := 0 to |todo|
      invariant result == found + Elements(todo[..j])
      invariant forall v :: v in pending <==> v in queued || (v in todo[..j] && v !in found)
      invariant result == found ==> pending == queued
    {
      assert todo[..j + 1] == todo[..j] + [todo[j]];
      if todo[j] !in result {
        result := result + {todo[j]};
        pending := pending + [todo[j]];
      }
    }
    assert todo[..|todo|] == todo;
  }

  /** Between two rounds of the reverse search: everything found depends on the source,
      and only versions still pending may have dependants not found yet. */
  ghost predicate ReverseSearching(rows: seq<DependencyRow>, source: Id, result: set<Id>, pending: seq<Id>)
  {
    && (forall v :: v in result ==> DependsOn(rows, v, source))
    && (forall v :: v in pending ==> v == source || v in result)
    && (forall a, b :: Edge(rows, a, b) && (b == source || b in result) && b !in pending ==> a in result)
  }

  lemma ReverseStep(rows: seq<DependencyRow>, source: Id, result: set<Id>, pending: seq<Id>, todo: seq<Id>, result': set<Id>, pending': seq<Id>)
    requires ReverseSearching(rows, source, result, pending) && pending != []
    requires forall a :: a in todo <==> Edge(rows, a, pending[0])
    requires result' == result + Elements(todo)
    requires forall v :: v in pending' <==> v in pending[1..] || (v in todo && v !in result)
    ensures ReverseSearching(rows, source, result', pending')
  {
    var current := pending[0];
    assert pending == [current] + pending[1..];
    forall a | a in todo ensures DependsOn(rows, a, source) {
      ReachesIsDependsOrSame(rows, current, source);
      EdgeThenReaches(rows, a, current, source);
    }
    forall a, b | Edge(rows, a, b) && (b == source || b in result') && b !in pending' ensures a in result' {
      if b == current {
        assert a in todo;
      } else {
        assert b !in pending;
        assert b in Elements(todo) ==> b in result;
      }
    }
  }

  lemma EveryDependantFound(rows: seq<DependencyRow>, source: Id, result: set<Id>)
    requires ReverseSearching(rows, source, result, [])
    ensures forall v :: v in result <==> DependsOn(rows, v, source)
  {
    forall v | DependsOn(rows, v, source) ensures v in result {
      var p :| WalkFromTo(rows, p, v, source) && |p| >= 2;
      WalkStaysInside(rows, source, result, p);
    }
  }

  ghost function Ends(rows: seq<DependencyRow>): set<Id>
    ensures forall a, b :: Edge(rows, a, b) ==> a in Ends(rows) && b in Ends(rows)
  {
    if rows == [] then {} else
    var init, row := rows[..|rows| - 1], rows[|rows| - 1];
    assert rows == init + [row];
    assert forall i :: 0 <= i < |init| ==> init[i] == rows[i];
    assert forall a, b :: Edge(rows, a, b) ==> Edge(init, a, b) || (row.artifact == a && row.dependency == b);
    Ends(init) + {row.artifact, row.dependency}
  }

  /** The reverse search, `dependentVersions`: exactly the versions derived from `source`. */
  method DependentVersions(rows: seq<DependencyRow>, source: Id) returns (result: set<Id>)
    ensures forall v :: v in result <==> DependsOn(rows, v, source)
  {
    var reverse := BuildReverse(rows);
    result := {};
    var pending := [source];
    while pending != []
      invariant result <= Ends(rows)
      invariant ReverseSearching(rows, source, result, pending)
      decreases Ends(rows) - result, |pending|
    {
      var todo := Dependants(reverse, pending[0]);
      assert forall a :: a in todo ==> Edge(rows, a, pending[0]);
      ghost var found, queued := result, pending;
      result, pending := Mark(todo, result, pending[1..]);
      ReverseStep(rows, source, found, queued, todo, result, pending);
      assert result != found ==> Ends(rows) - result < Ends(rows) - found;
    }
    EveryDependantFound(rows, source, result);
  }

  /** A walk from one of `roots` that never stands on the empty identifier, which the
      forward search skips. */
  ghost predicate NamedWalk(rows: seq<DependencyRow>, roots: seq<Id>, p: seq<Id>, v: Id)
  {
    Walk(rows, p) && p[0] in roots && p[|p| - 1] == v && [] !in p
  }

  ghost predicate Resolves(rows: seq<DependencyRow>, roots: seq<Id>, v: Id)
  {
    exists p :: NamedWalk(rows, roots, p, v)
  }

  ghost predicate HoldsDependencies(rows: seq<DependencyRow>, roots: seq<Id>, found: set<Id>)
  {
    && (forall r :: r in roots && r != [] ==> r in found)
    && (forall a, b :: Edge(rows, a, b) && a in found && b != [] ==> b in found)
  }

  lemma {:induction false} NamedWalkStaysInside(rows: seq<DependencyRow>, roots: seq<Id>, found: set<Id>, p: seq<Id>)
    requires HoldsDependencies(rows, roots, found)
    requires Walk(rows, p) && p[0] in roots && [] !in p
    ensures p[|p| - 1] in found
    decreases |p|
  {
    if |p| > 1 {
      var q := p[..|p| - 1];
      assert forall i :: 0 <= i < |q| - 1 ==> Edge(rows, p[i], p[i + 1]);
      assert Walk(rows, q) && [] !in q;
      NamedWalkStaysInside(rows, roots, found, q);
      assert Edge(rows, p[|p| - 2], p[|p| - 1]);
    }
  }

  /** `SELECT dependency_version_id FROM dependencies WHERE artifact_version_id = v` */
  function DependenciesOf(rows: seq<DependencyRow>, v: Id): (ds: seq<Id>)
    ensures forall d :: d in ds <==> Edge(rows, v, d)
  {
    if rows == [] then [] else
    var init, row := rows[..|rows| - 1], rows[|rows| - 1];
    var ds := DependenciesOf(init, v);
    assert forall i :: 0 <= i < |init| ==> init[i] == rows[i];
    assert forall d :: Edge(rows, v, d) <==> Edge(init, v, d) || (row.artifact == v && row.dependency == d);
    if row.artifact == v then ds + [row.dependency] else ds
  }

  lemma ResolvesNext(rows: seq<DependencyRow>, roots: seq<Id>, v: Id, d: Id)
    requires Resolves(rows, roots, v) && Edge(rows, v, d) && d != []
    ensures Resolves(rows, roots, d)
  {
    var p :| NamedWalk(rows, roots, p, v);
    assert NamedWalk(rows, roots, p + [d], d);
  }

  /** The dependencies not met before, in row order and with their repetitions. */
  function NotMet(deps: seq<Id>, all: seq<Id>): (rest: seq<Id>)
    ensures forall w :: w in rest <==> w in deps && w !in all
  {
    if deps == [] then [] else
    var init, last := deps[..|deps| - 1], deps[|deps| - 1];
    assert deps == init + [last];
    if last in all then NotMet(init, all) else NotMet(init, all) + [last]
  }

  method Enqueue(deps: seq<Id>, all: seq<Id>, queue: seq<Id>) returns (longer: seq<Id>)
    ensures longer == queue + NotMet(deps, all)
  {
    longer := queue;
    for i := 0 to |deps|
      invariant longer == queue + NotMet(deps[..i], all)
    {
      assert deps[..i + 1][..i] == deps[..i];
      if deps[i] !in all {
        longer := longer + [deps[i]];
      }
    }
    assert deps[..|deps|] == deps;
  }

  /** The order of discovery: breadth first, the queue's versions before those they depend on. */
  ghost function Discovered(rows: seq<DependencyRow>, all: seq<Id>, queue: seq<Id>): seq<Id>
    decreases Ends(rows) + Elements(queue) - Elements(all), |queue|
  {
    if queue == [] then all else
    var v := queue[0];
    SearchShrinks(rows, all, queue);
    if v == [] || v in all then Discovered(rows, all, queue[1..])
    else Discovered(rows, all + [v], queue[1..] + NotMet(DependenciesOf(rows, v), all + [v]))
  }

  ghost predicate ForwardSearching(rows: seq<DependencyRow>, roots: seq<Id>, all: seq<Id>, queue: seq<Id>)
  {
    && [] !in all
    && (forall v :: (v in all || v in queue) && v != [] ==> Resolves(rows, roots, v))
    && (forall r :: r in roots && r != [] ==> r in all || r in queue)
    && (forall a, b :: Edge(rows, a, b) && a in all && b != [] ==> b in all || b in queue)
  }

  lemma ForwardStart(rows: seq<DependencyRow>, roots: seq<Id>)
    ensures ForwardSearching(rows, roots, [], roots)
  {
    forall r | r in roots && r != [] ensures Resolves(rows, roots, r) {
      assert NamedWalk(rows, roots, [r], r);
    }
  }

  lemma ForwardStep(rows: seq<DependencyRow>, roots: seq<Id>, all: seq<Id>, queue: seq<Id>, all': seq<Id>, queue': seq<Id>)
    requires ForwardSearching(rows, roots, all, queue) && queue != []
    requires queue[0] == [] || queue[0] in all ==> all' == all && queue' == queue[1..]
    requires queue[0] != [] && queue[0] !in all ==> all' == all + [queue[0]]
    requires queue[0] != [] && queue[0] !in all ==>
      forall w :: w in queue' <==> w in queue[1..] || (Edge(rows, queue[0], w) && w !in all')
    ensures ForwardSearching(rows, roots, all', queue')
  {
    var v := queue[0];
    assert queue == [v] + queue[1..];
    if v != [] {
      forall d | Edge(rows, v, d) && d != [] ensures Resolves(rows, roots, d) {
        ResolvesNext(rows, roots, v, d);
      }
    }
  }

  lemma EveryDependencyFound(rows: seq<DependencyRow>, roots: seq<Id>, all: seq<Id>)
    requires ForwardSearching(rows, roots, all, [])
    ensures forall v :: v in all <==> Resolves(rows, roots, v)
  {
    assert HoldsDependencies(rows, roots, Elements(all));
    forall v | Resolves(rows, roots, v) ensures v in all {
      var p :| NamedWalk(rows, roots, p, v);
      NamedWalkStaysInside(rows, roots, Elements(all), p);
    }
  }

  /** The forward search, `resolveTransitiveVersions`, in order of discovery. */
  method ResolveTransitiveVersions(rows: seq<DependencyRow>, versionIds: seq<Id>) returns (all: seq<Id>)
    ensures NoDuplicates(all)
    ensures forall v :: v in all <==> Resolves(rows, versionIds, v)
    ensures all == Discovered(rows, [], versionIds)
  {
    all := [];
    var queue := versionIds;
    ghost var everything := Elements(versionIds) + Ends(rows);
    ForwardStart(rows, versionIds);
    while queue != []
      invariant NoDuplicates(all)
      invariant forall v :: v in queue ==> v in everything
      invariant ForwardSearching(rows, versionIds, all, queue)
      invariant Discovered(rows, all, queue) == Discovered(rows, [], versionIds)
      decreases everything - Elements(all), |queue|
    {
      var v := queue[0];
      ghost var before, queued := all, queue;
      assert queue == [v] + queue[1..];
      queue := queue[1..];
      if v != [] && v !in all {
        all := all + [v];
        assert Elements(all) == Elements(before) + {v};
        assert everything - Elements(all) < everything - Elements(before);
        queue := Enqueue(DependenciesOf(rows, v), all, queue);
      }
      ForwardStep(rows, versionIds, before, queued, all, queue);
    }
    EveryDependencyFound(rows, versionIds, all);
  }

  /** The roots that name something, each at its first mention. */
  function Named(roots: seq<Id>): seq<Id>
  {
    if roots == [] then [] else
    var init, last := Named(roots[..|roots| - 1]), roots[|roots| - 1];
    if last == [] || last in init then init else init + [last]
  }

  lemma {:induction false} NamedIsNamed(s: seq<Id>)
    ensures Named(Named(s)) == Named(s)
  {
    if s != [] {
      NamedIsNamed(s[..|s| - 1]);
      var init, last := Named(s[..|s| - 1]), s[|s| - 1];
      if last != [] && last !in init {
        assert (init + [last])[..|init|] == init;
      }
    }
  }

  lemma {:induction false} NamedSum(s: seq<Id>, t: seq<Id>)
    ensures Named(s + t) == Named(Named(s) + t)
  {
    if t == [] {
      assert s + t == s && Named(s) + t == Named(s);
      NamedIsNamed(s);
    } else {
      var init, last := t[..|t| - 1], t[|t| - 1];
      NamedSum(s, init);
      assert (s + t)[..|s + t| - 1] == s + init && (Named(s) + t)[..|Named(s) + t| - 1] == Named(s) + init;
    }
  }

  lemma SkippedNames(all: seq<Id>, queue: seq<Id>)
    requires Named(all) == all && queue != [] && (queue[0] == [] || queue[0] in all)
    ensures Named(all + queue) == Named(all + queue[1..])
  {
    assert all + queue == (all + [queue[0]]) + queue[1..];
    assert (all + [queue[0]])[..|all|] == all;
    NamedSum(all + [queue[0]], queue[1..]);
    NamedSum(all, queue[1..]);
  }

  lemma TakenNames(all: seq<Id>, queue: seq<Id>, more: seq<Id>)
    requires Named(all) == all && queue != [] && queue[0] != [] && queue[0] !in all
    ensures Named(all + [queue[0]]) == all + [queue[0]]
    ensures Named(all + queue) <= Named((all + [queue[0]]) + (queue[1..] + more))
  {
    assert (all + [queue[0]])[..|all|] == all;
    assert (all + [queue[0]]) + (queue[1..] + more) == (all + queue) + more;
    NamedPrefix(all + queue, more);
  }

  lemma SearchShrinks(rows: seq<DependencyRow>, all: seq<Id>, queue: seq<Id>)
    requires queue != []
    ensures Ends(rows) + Elements(queue[1..]) - Elements(all) <= Ends(rows) + Elements(queue) - Elements(all)
    ensures queue[0] !in all ==>
      Ends(rows) + Elements(queue[1..] + NotMet(DependenciesOf(rows, queue[0]), all + [queue[0]])) - Elements(all + [queue[0]])
        < Ends(rows) + Elements(queue) - Elements(all)
  {
    var v, rest := queue[0], queue[1..];
    assert queue == [v] + rest;
    if v !in all {
      assert v in Elements(queue) - Elements(all) && v in Elements(all + [v]);
    }
  }

  /** Everything waiting in the queue is listed before anything it depends on. */
  lemma {:induction false} QueueFirst(rows: seq<DependencyRow>, all: seq<Id>, queue: seq<Id>)
    requires Named(all) == all
    ensures Named(all + queue) <= Discovered(rows, all, queue)
    decreases Ends(rows) + Elements(queue) - Elements(all), |queue|
  {
    hide Named, NotMet, Ends;
    if queue == [] {
      assert all + queue == all;
    } else {
      SearchShrinks(rows, all, queue);
      if queue[0] == [] || queue[0] in all {
        SkippedNames(all, queue);
        QueueFirst(rows, all, queue[1..]);
      } else {
        var more := NotMet(DependenciesOf(rows, queue[0]), all + [queue[0]]);
        TakenNames(all, queue, more);
        QueueFirst(rows, all + [queue[0]], queue[1..] + more);
      }
    }
  }

  lemma {:induction false} NamedPrefix(s: seq<Id>, t: seq<Id>)
    ensures Named(s) <= Named(s + t)
  {
    if t == [] {
      assert s + t == s;
    } else {
      NamedPrefix(s, t[..|t| - 1]);
      assert (s + t)[..|s + t| - 1] == s + t[..|t| - 1];
    }
  }

  /** A search lists the named roots first, in the order they are given. */
  lemma RootsFirst(rows: seq<DependencyRow>, roots: seq<Id>)
    ensures Named(roots) <= Discovered(rows, [], roots)
  {
    QueueFirst(rows, [], roots);
    assert [] + roots == roots;
  }

  /** Roots that need nothing beside themselves are listed as they are given. */
  lemma ClosedRootsAsGiven(rows: seq<DependencyRow>, roots: seq<Id>, listed: seq<Id>)
    requires NoDuplicates(roots) && [] !in roots
    requires forall a, b :: Edge(rows, a, b) && a in roots ==> b in roots
    requires listed == Discovered(rows, [], roots) && NoDuplicates(listed) && forall v :: v in listed <==> Resolves(rows, roots, v)
    ensures listed == roots
  {
    RootsFirst(rows, roots);
    AllNamed(roots);
    assert HoldsDependencies(rows, roots, Elements(roots));
    forall v | v in listed ensures v in Elements(roots) {
      var p :| NamedWalk(rows, roots, p, v);
      NamedWalkStaysInside(rows, roots, Elements(roots), p);
    }
    assert forall v :: v in roots ==> v in listed;
    assert Elements(listed) == Elements(roots);
    NoDuplicatesCount(listed);
    NoDuplicatesCount(roots);
  }

  lemma {:induction false} AllNamed(roots: seq<Id>)
    requires NoDuplicates(roots) && [] !in roots
    ensures Named(roots) == roots
  {
    if roots != [] {
      AllNamed(roots[..|roots| - 1]);
      assert roots == roots[..|roots| - 1] + [roots[|roots| - 1]];
    }
  }

  /** The empty identifier names no artifact version: `assertIdentifier` refuses it. */
  ghost predicate Identified(rows: seq<DependencyRow>)
  {
    forall i :: 0 <= i < |rows| ==> rows[i].artifact != [] && rows[i].dependency != []
  }

  lemma ResolvesIsReaches(rows: seq<DependencyRow>, roots: seq<Id>, v: Id)
    requires Identified(rows) && [] !in roots
    ensures Resolves(rows, roots, v) <==> exists r :: r in roots && Reaches(rows, r, v)
  {
    if Resolves(rows, roots, v) {
      var p :| NamedWalk(rows, roots, p, v);
      assert WalkFromTo(rows, p, p[0], v);
    }
    forall r | r in roots && Reaches(rows, r, v) ensures Resolves(rows, roots, v) {
      var p :| WalkFromTo(rows, p, r, v);
      forall i | 0 <= i < |p| ensures p[i] != [] {
        if i > 0 {
          assert Edge(rows, p[i - 1], p[i]);
        }
      }
      assert NamedWalk(rows, roots, p, v);
    }
  }

  /** The two searches are inverse to each other on every acyclic graph of identified versions. */
  lemma SearchesAreDual(rows: seq<DependencyRow>, s: Id, v: Id)
    requires Acyclic(rows) && Identified(rows) && v != []
    ensures DependsOn(rows, v, s) <==> v != s && Resolves(rows, [v], s)
  {
    ResolvesIsReaches(rows, [v], s);
    ReachesIsDependsOrSame(rows, v, s);
    assert v in [v];
  }

  ghost predicate Dual(rows: seq<DependencyRow>)
  {
    forall s, v :: v != [] ==> (DependsOn(rows, v, s) <==> v != s && Resolves(rows, [v], s))
  }

  /** Acyclicity is also what the duality needs: on a cycle a version depends on itself. */
  lemma DualExactlyWhenAcyclic(rows: seq<DependencyRow>)
    requires Identified(rows)
    ensures Dual(rows) <==> Acyclic(rows)
  {
    if Acyclic(rows) {
      forall s, v | v != [] ensures DependsOn(rows, v, s) <==> v != s && Resolves(rows, [v], s) {
        SearchesAreDual(rows, s, v);
      }
    }
    forall v | DependsOn(rows, v, v) ensures v != [] {
      var p :| WalkFromTo(rows, p, v, v) && |p| >= 2;
      assert Edge(rows, p[0], p[1]);
    }
  }

  /** A new version whose dependencies all existed before it closes no cycle. */
  lemma NewVersionKeepsAcyclic(rows: seq<DependencyRow>, added: seq<DependencyRow>, versions: set<Id>, v: Id)
    requires Acyclic(rows) && ClosedOver(rows, versions) && v !in versions
    requires forall i :: 0 <= i < |added| ==> added[i].artifact == v && added[i].dependency in versions
    ensures Acyclic(rows + added) && ClosedOver(rows + added, versions + {v})
  {
    var all := rows + added;
    assert forall a, b :: Edge(all, a, b) ==> b in versions && (a == v || Edge(rows, a, b)) by {
      forall a, b | Edge(all, a, b) ensures b in versions && (a == v || Edge(rows, a, b)) {
        var i :| 0 <= i < |all| && all[i].artifact == a && all[i].dependency == b;
        if i < |rows| {
          assert rows[i].artifact == a && rows[i].dependency == b;
        } else {
          assert all[i] == added[i - |rows|];
        }
      }
    }
    forall w ensures !DependsOn(all, w, w) {
      if DependsOn(all, w, w) {
        var p :| WalkFromTo(all, p, w, w) && |p| >= 2;
        forall i | 0 <= i < |p| ensures p[i] in versions {
          if i > 0 {
            assert Edge(all, p[i - 1], p[i]);
          } else {
            assert Edge(all, p[|p| - 2], p[|p| - 1]);
          }
        }
        assert forall i :: 0 <= i < |p| - 1 ==> Edge(all, p[i], p[i + 1]);
        assert WalkFromTo(rows, p, w, w);
        assert DependsOn(rows, w, w);
      }
    }
  }
}
