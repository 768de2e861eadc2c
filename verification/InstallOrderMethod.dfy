/**
 `orderWorkspacePackages` with its mutable maps and queue, proved to return the least
 install order, or to fail exactly when there is none it can find.
 */
module InstallOrderMethod {
  import opened Prelude
  import opened InstallOrder

  // ----- counting dependencies

  /** How many entries of a list are in a set. */
  function CountIn(names: seq<Name>, pending: set<Name>): nat {
    if names == [] then 0
    else
      var last := names[|names| - 1];
      CountIn(names[..|names| - 1], pending) + if last in pending then 1 else 0
  }

  lemma {:induction false} CountInZero(names: seq<Name>, pending: set<Name>)
    ensures CountIn(names, pending) == 0 <==> forall d | d in names :: d !in pending
  {
    if names != [] {
      CountInZero(names[..|names| - 1], pending);
      assert names == names[..|names| - 1] + [names[|names| - 1]];
    }
  }

  /** How often a list contains a name. */
  function Times(names: seq<Name>, x: Name): nat {
    multiset(names)[x]
  }

  lemma CountInAppend(names: seq<Name>, d: Name, pending: set<Name>)
    ensures CountIn(names + [d], pending) == CountIn(names, pending) + if d in pending then 1 else 0
  {
    assert (names + [d])[..|names + [d]| - 1] == names;
  }

  lemma TimesAppend(names: seq<Name>, d: Name, x: Name)
    ensures Times(names + [d], x) == Times(names, x) + if d == x then 1 else 0
  {
  }

  lemma {:induction false} CountInRemove(names: seq<Name>, pending: set<Name>, x: Name)
    requires x in pending
    ensures CountIn(names, pending) == CountIn(names, pending - {x}) + Times(names, x)
  {
    if names != [] {
      CountInRemove(names[..|names| - 1], pending, x);
      assert names == names[..|names| - 1] + [names[|names| - 1]];
    }
  }

  // ----- sorting

  ghost predicate Sorted(names: seq<Name>, less: Less) {
    forall i, j | 0 <= i < j < |names| :: less(names[i], names[j])
  }

  function Insert(names: seq<Name>, x: Name, less: Less): seq<Name> {
    if names == [] || less(x, names[0]) then [x] + names
    else [names[0]] + Insert(names[1..], x, less)
  }

  /** The library's `sort`, on names that are all different. */
  function Sort(names: seq<Name>, less: Less): seq<Name> {
    if names == [] then [] else Insert(Sort(names[1..], less), names[0], less)
  }

  lemma {:induction false} InsertKeeps(names: seq<Name>, x: Name, less: Less)
    ensures forall n :: n in Insert(names, x, less) <==> n == x || n in names
  {
    if names == [] || less(x, names[0]) {
    } else {
      InsertKeeps(names[1..], x, less);
      assert names == [names[0]] + names[1..];
    }
  }

  lemma {:induction false} InsertSorts(names: seq<Name>, x: Name, less: Less)
    requires StrictTotalOrder(less) && Sorted(names, less) && x !in names
    ensures Sorted(Insert(names, x, less), less)
  {
    if names == [] {
    } else if less(x, names[0]) {
      forall j | 0 <= j < |names| ensures less(x, names[j]) {
        assert j > 0 ==> less(names[0], names[j]);
      }
    } else {
      assert less(names[0], x);
      var tail := Insert(names[1..], x, less);
      InsertSorts(names[1..], x, less);
      InsertKeeps(names[1..], x, less);
      forall j | 0 <= j < |tail| ensures less(names[0], tail[j]) {
        assert tail[j] in tail;
        if tail[j] != x {
          var k :| 0 <= k < |names[1..]| && names[1..][k] == tail[j];
          assert names[k + 1] == tail[j];
        }
      }
    }
  }

  lemma {:induction false} SortSorts(names: seq<Name>, less: Less)
    requires StrictTotalOrder(less) && Distinct(names)
    ensures Sorted(Sort(names, less), less)
    ensures forall n :: n in Sort(names, less) <==> n in names
  {
    if names != [] {
      assert names == [names[0]] + names[1..];
      SortSorts(names[1..], less);
      assert names[0] !in names[1..];
      InsertSorts(Sort(names[1..], less), names[0], less);
      InsertKeeps(Sort(names[1..], less), names[0], less);
    }
  }

  // ----- the state of the algorithm

  /** How often `name` depends on packages that are still pending. */
  function Degree(packages: seq<Package>, pending: set<Name>, name: Name): nat
    requires name in NameSet(packages)
  {
    CountIn(DepsOf(packages, name), pending)
  }

  function Pending(packages: seq<Package>, done: seq<Name>): set<Name> {
    NameSet(packages) - AsSet(done)
  }

  lemma {:induction false} ReadyIffDegreeZero(packages: seq<Package>, done: seq<Name>, name: Name)
    requires name in NameSet(packages)
    ensures Ready(packages, done, name) <==> name !in done && Degree(packages, Pending(packages, done), name) == 0
  {
    CountInZero(DepsOf(packages, name), Pending(packages, done));
  }

  /** Every edge list holds each dependent as often as it names the dependency. */
  ghost predicate EdgesBuilt(packages: seq<Package>, edges: map<Name, seq<Name>>) {
    && edges.Keys == NameSet(packages)
    && (forall d, n | d in edges && n in NameSet(packages) :: Times(edges[d], n) == Times(DepsOf(packages, n), d))
    && forall d | d in edges :: forall n | n in edges[d] :: n in NameSet(packages)
  }

  ghost predicate DegreesCurrent(packages: seq<Package>, done: seq<Name>, indegree: map<Name, int>) {
    && indegree.Keys == NameSet(packages)
    && forall n | n in indegree :: indegree[n] == Degree(packages, Pending(packages, done), n)
  }

  // ----- building the graph

  /** The degrees contributed by the dependency entries read so far. */
  ghost predicate DegreesFrom(portion: map<Name, seq<Name>>, indegree: map<Name, int>) {
    && indegree.Keys == portion.Keys
    && forall n | n in portion :: indegree[n] == CountIn(portion[n], portion.Keys)
  }

  /** The edges contributed by the dependency entries read so far. */
  ghost predicate EdgesFrom(portion: map<Name, seq<Name>>, edges: map<Name, seq<Name>>) {
    && edges.Keys == portion.Keys
    && (forall d, n | d in edges && n in portion :: Times(edges[d], n) == Times(portion[n], d))
    && forall d | d in edges :: forall n | n in edges[d] :: n in portion
  }

  /** One more dependency entry of a package; entries outside the workspace change nothing. */
  lemma {:induction false} DegreesFromNext(portion: map<Name, seq<Name>>, indegree: map<Name, int>, name: Name, dep: Name)
    requires DegreesFrom(portion, indegree) && name in portion
    ensures DegreesFrom(portion[name := portion[name] + [dep]],
                        indegree[name := indegree[name] + if dep in portion then 1 else 0])
  {
    hide CountIn;
    CountInAppend(portion[name], dep, portion.Keys);
    assert portion[name := portion[name] + [dep]].Keys == portion.Keys;
  }

  lemma {:induction false} EdgesFromSkip(portion: map<Name, seq<Name>>, edges: map<Name, seq<Name>>, name: Name, dep: Name)
    requires EdgesFrom(portion, edges) && name in portion && dep !in portion
    ensures EdgesFrom(portion[name := portion[name] + [dep]], edges)
  {
    hide Times;
    forall d ensures Times(portion[name] + [dep], d) == Times(portion[name], d) + if dep == d then 1 else 0 {
      TimesAppend(portion[name], dep, d);
    }
  }

  lemma {:induction false} EdgesFromNext(portion: map<Name, seq<Name>>, edges: map<Name, seq<Name>>, name: Name, dep: Name)
    requires EdgesFrom(portion, edges) && name in portion && dep in portion
    ensures EdgesFrom(portion[name := portion[name] + [dep]], edges[dep := edges[dep] + [name]])
  {
    hide Times;
    forall d ensures Times(portion[name] + [dep], d) == Times(portion[name], d) + if dep == d then 1 else 0 {
      TimesAppend(portion[name], dep, d);
    }
    forall n ensures Times(edges[dep] + [name], n) == Times(edges[dep], n) + if name == n then 1 else 0 {
      TimesAppend(edges[dep], name, n);
    }
  }

  lemma {:induction false} NamedIs(packages: seq<Package>, i: nat)
    requires DistinctNames(packages) && i < |packages|
    ensures packages[i].name in NameSet(packages) && Named(packages, packages[i].name) == packages[i]
  {
    if i < |packages| - 1 {
      NamedIs(packages[..|packages| - 1], i);
    }
  }

  lemma SameKeys(portion: map<Name, seq<Name>>, indegree: map<Name, int>, edges: map<Name, seq<Name>>)
    requires DegreesFrom(portion, indegree) && EdgesFrom(portion, edges)
    ensures indegree.Keys == portion.Keys == edges.Keys
  {
  }

  /** The inner loop: the dependency entries of one package. */
  method ReadDependencies(pkg: Package, indegree0: map<Name, int>, edges0: map<Name, seq<Name>>,
                          ghost portion: map<Name, seq<Name>>)
    returns (indegree: map<Name, int>, edges: map<Name, seq<Name>>)
    requires pkg.name in portion && portion[pkg.name] == []
    requires DegreesFrom(portion, indegree0) && EdgesFrom(portion, edges0)
    ensures DegreesFrom(portion[pkg.name := pkg.localDependencyNames], indegree)
    ensures EdgesFrom(portion[pkg.name := pkg.localDependencyNames], edges)
  {
    hide CountIn, Times, DegreesFrom, EdgesFrom;
    indegree, edges := indegree0, edges0;
    ghost var read := portion;
    assert portion == portion[pkg.name := pkg.localDependencyNames[..0]];
    for k := 0 to |pkg.localDependencyNames|
      invariant read == portion[pkg.name := pkg.localDependencyNames[..k]] && read.Keys == portion.Keys
      invariant DegreesFrom(read, indegree) && EdgesFrom(read, edges)
    {
      var depName := pkg.localDependencyNames[k];
      SameKeys(read, indegree, edges);
      DegreesFromNext(read, indegree, pkg.name, depName);
      if depName !in indegree {
        EdgesFromSkip(read, edges, pkg.name, depName);
        assert indegree[pkg.name := indegree[pkg.name] + 0] == indegree;
      } else {
        EdgesFromNext(read, edges, pkg.name, depName);
        indegree := indegree[pkg.name := indegree[pkg.name] + 1];
        edges := edges[depName := edges[depName] + [pkg.name]];
      }
      assert pkg.localDependencyNames[..k + 1] == read[pkg.name] + [depName];
      assert portion[pkg.name := pkg.localDependencyNames[..k + 1]] == read[pkg.name := read[pkg.name] + [depName]];
      read := portion[pkg.name := pkg.localDependencyNames[..k + 1]];
    }
    assert pkg.localDependencyNames[..|pkg.localDependencyNames|] == pkg.localDependencyNames;
  }

  /** The first double loop: in-degrees and edge lists from the dependency entries. */
  method BuildGraph(packages: seq<Package>) returns (indegree: map<Name, int>, edges: map<Name, seq<Name>>)
    requires DistinctNames(packages)
    ensures EdgesBuilt(packages, edges)
    ensures DegreesCurrent(packages, [], indegree)
  {
    hide DegreesFrom, EdgesFrom, ReadUpTo;
    var names := NameSet(packages);
    indegree := map n | n in names :: 0;
    edges := map n | n in names :: [];
    ghost var portion: map<Name, seq<Name>> := map n | n in names :: [];
    NothingRead(packages, portion, indegree, edges);
    for i := 0 to |packages|
      invariant portion.Keys == names && DegreesFrom(portion, indegree) && EdgesFrom(portion, edges)
      invariant ReadUpTo(packages, portion, i)
    {
      ReadNext(packages, portion, i);
      indegree, edges := ReadDependencies(packages[i], indegree, edges, portion);
      portion := portion[packages[i].name := packages[i].localDependencyNames];
    }
    AllRead(packages, portion);
    GraphRead(packages, portion, indegree, edges);
  }

  lemma GraphRead(packages: seq<Package>, portion: map<Name, seq<Name>>, indegree: map<Name, int>, edges: map<Name, seq<Name>>)
    requires portion.Keys == NameSet(packages) && DegreesFrom(portion, indegree) && EdgesFrom(portion, edges)
    requires forall n | n in NameSet(packages) :: portion[n] == DepsOf(packages, n)
    ensures EdgesBuilt(packages, edges) && DegreesCurrent(packages, [], indegree)
  {
    hide Named, CountIn, Times;
    assert Pending(packages, []) == NameSet(packages);
  }

  /** The entries of the first `i` packages were read, of the others none. */
  ghost predicate ReadUpTo(packages: seq<Package>, portion: map<Name, seq<Name>>, i: nat) {
    forall j | 0 <= j < |packages| ::
      packages[j].name in portion
      && portion[packages[j].name] == if j < i then packages[j].localDependencyNames else []
  }

  lemma NothingRead(packages: seq<Package>, portion: map<Name, seq<Name>>, indegree: map<Name, int>,
                    edges: map<Name, seq<Name>>)
    requires indegree.Keys == portion.Keys == edges.Keys == NameSet(packages)
    requires forall n | n in portion :: portion[n] == [] && indegree[n] == 0 && edges[n] == []
    ensures DegreesFrom(portion, indegree) && EdgesFrom(portion, edges) && ReadUpTo(packages, portion, 0)
  {
  }

  lemma ReadNext(packages: seq<Package>, portion: map<Name, seq<Name>>, i: nat)
    requires DistinctNames(packages) && i < |packages| && ReadUpTo(packages, portion, i)
    ensures packages[i].name in portion && portion[packages[i].name] == []
    ensures ReadUpTo(packages, portion[packages[i].name := packages[i].localDependencyNames], i + 1)
  {
  }

  lemma AllRead(packages: seq<Package>, portion: map<Name, seq<Name>>)
    requires DistinctNames(packages) && portion.Keys == NameSet(packages) && ReadUpTo(packages, portion, |packages|)
    ensures forall n | n in NameSet(packages) :: portion[n] == DepsOf(packages, n)
  {
    hide Named;
    forall n | n in NameSet(packages) ensures portion[n] == DepsOf(packages, n) {
      var i :| 0 <= i < |packages| && packages[i].name == n;
      NamedIs(packages, i);
    }
  }

  // ----- taking packages off the queue

  /** The queue holds, in order, the names of degree 0 that were not taken off it before. */
  ghost predicate Queue(packages: seq<Package>, ready: seq<Name>, indegree: map<Name, int>, gone: set<Name>, less: Less)
    requires indegree.Keys == NameSet(packages)
  {
    && Sorted(ready, less)
    && (forall n :: n in ready <==> n in indegree && n !in gone && indegree[n] == 0)
    && forall n | n in gone && n in indegree :: indegree[n] == 0
  }

  lemma {:induction false} TimesOfPrefix(names: seq<Name>, k: nat, x: Name)
    requires k < |names|
    ensures Times(names[..k + 1], x) == Times(names[..k], x) + if names[k] == x then 1 else 0
    ensures Times(names[..k + 1], x) <= Times(names, x)
    ensures Times(names[..0], x) == 0 && Times(names[..|names|], x) == Times(names, x)
  {
    assert names[..k + 1] == names[..k] + [names[k]];
    assert names == names[..k + 1] + names[k + 1..];
    assert names[..|names|] == names;
  }

  /** A degree counts at least the entries for one pending package. */
  lemma {:induction false} DegreeAfter(packages: seq<Package>, done: seq<Name>, current: Name, n: Name)
    requires current in NameSet(packages) && current !in done && n in NameSet(packages)
    ensures Degree(packages, Pending(packages, done), n) ==
              Degree(packages, Pending(packages, done + [current]), n) + Times(DepsOf(packages, n), current)
  {
    CountInRemove(DepsOf(packages, n), Pending(packages, done), current);
    assert Pending(packages, done + [current]) == Pending(packages, done) - {current};
  }

  /** Degrees while the first `k` edges of the current package have been followed. */
  ghost predicate DegreesDuring(packages: seq<Package>, done: seq<Name>, indegree: map<Name, int>, followed: seq<Name>) {
    && indegree.Keys == NameSet(packages)
    && forall n | n in indegree :: indegree[n] == Degree(packages, Pending(packages, done), n) - Times(followed, n)
  }

  lemma {:induction false} FollowOne(packages: seq<Package>, edges: map<Name, seq<Name>>, done: seq<Name>, current: Name,
                                     indegree: map<Name, int>, k: nat)
    requires EdgesBuilt(packages, edges) && current in edges && current !in done && k < |edges[current]|
    requires DegreesDuring(packages, done, indegree, edges[current][..k])
    ensures var next := edges[current][k];
            && next in indegree && indegree[next] >= 1
            && DegreesDuring(packages, done, indegree[next := indegree[next] - 1], edges[current][..k + 1])
  {
    hide Named, CountIn, Times, Degree;
    var next := edges[current][k];
    assert next in edges[current];
    DegreeAfter(packages, done, current, next);
    forall n ensures Times(edges[current][..k + 1], n) == Times(edges[current][..k], n) + if next == n then 1 else 0
             ensures Times(edges[current][..k + 1], n) <= Times(edges[current], n)
    {
      TimesOfPrefix(edges[current], k, n);
    }
  }

  lemma {:induction false} AllFollowed(packages: seq<Package>, edges: map<Name, seq<Name>>, done: seq<Name>, current: Name,
                                       indegree: map<Name, int>)
    requires EdgesBuilt(packages, edges) && current in edges && current !in done
    requires DegreesDuring(packages, done, indegree, edges[current])
    ensures DegreesCurrent(packages, done + [current], indegree)
  {
    hide Named, CountIn, Times, Degree;
    forall n | n in indegree
      ensures indegree[n] == Degree(packages, Pending(packages, done + [current]), n)
    {
      DegreeAfter(packages, done, current, n);
    }
  }

  lemma {:induction false} QueueOne(packages: seq<Package>, ready: seq<Name>, indegree: map<Name, int>, gone: set<Name>,
                                    less: Less, next: Name)
    requires StrictTotalOrder(less) && indegree.Keys == NameSet(packages)
    requires Queue(packages, ready, indegree, gone, less) && next in indegree && indegree[next] >= 1
    ensures var lower := indegree[next := indegree[next] - 1];
            Queue(packages, if lower[next] == 0 then Sort(ready + [next], less) else ready, lower, gone, less)
  {
    var lower := indegree[next := indegree[next] - 1];
    if lower[next] == 0 {
      SortedIsDistinct(ready, less);
      SortSorts(ready + [next], less);
    }
  }

  lemma SortedIsDistinct(names: seq<Name>, less: Less)
    requires StrictTotalOrder(less) && Sorted(names, less)
    ensures Distinct(names)
  {
  }

  /** The inner loop of the second part: follow the edges of a package that was just ordered. */
  method ReleaseDependents(packages: seq<Package>, edges: map<Name, seq<Name>>, current: Name,
                           indegree0: map<Name, int>, ready0: seq<Name>, less: Less,
                           ghost done: seq<Name>, ghost gone: set<Name>)
    returns (indegree: map<Name, int>, ready: seq<Name>)
    requires StrictTotalOrder(less) && EdgesBuilt(packages, edges) && current in edges && current !in done
    requires DegreesCurrent(packages, done, indegree0) && Queue(packages, ready0, indegree0, gone, less)
    ensures DegreesCurrent(packages, done + [current], indegree) && Queue(packages, ready, indegree, gone, less)
  {
    hide Queue, Sort, Degree, Times, Named;
    indegree, ready := indegree0, ready0;
    NothingFollowed(packages, done, indegree, edges[current]);
    for k := 0 to |edges[current]|
      invariant DegreesDuring(packages, done, indegree, edges[current][..k])
      invariant Queue(packages, ready, indegree, gone, less)
    {
      FollowOne(packages, edges, done, current, indegree, k);
      var nextName := edges[current][k];
      QueueOne(packages, ready, indegree, gone, less, nextName);
      var nextDegree := indegree[nextName] - 1;
      indegree := indegree[nextName := nextDegree];
      if nextDegree == 0 {
        ready := ready + [nextName];
        ready := Sort(ready, less);
      }
    }
    assert edges[current][..|edges[current]|] == edges[current];
    AllFollowed(packages, edges, done, current, indegree);
  }

  lemma NothingFollowed(packages: seq<Package>, done: seq<Name>, indegree: map<Name, int>, names: seq<Name>)
    requires DegreesCurrent(packages, done, indegree)
    ensures DegreesDuring(packages, done, indegree, names[..0])
  {
  }

  // ----- the whole algorithm

  lemma {:induction false} PopQueue(packages: seq<Package>, ready: seq<Name>, indegree: map<Name, int>, gone: set<Name>, less: Less)
    requires StrictTotalOrder(less) && indegree.Keys == NameSet(packages)
    requires ready != [] && Queue(packages, ready, indegree, gone, less)
    ensures ready[0] in NameSet(packages) && ready[0] !in gone && indegree[ready[0]] == 0
    ensures Queue(packages, ready[1..], indegree, gone + {ready[0]}, less)
    ensures forall n | n in indegree && n !in gone && indegree[n] == 0 :: n == ready[0] || less(ready[0], n)
  {
    SortedIsDistinct(ready, less);
    assert ready == [ready[0]] + ready[1..];
    assert forall n | n in ready[1..] :: less(ready[0], n);
  }

  /** Taking the head of the queue extends a greedy order. */
  lemma {:induction false} TakeHead(packages: seq<Package>, done: seq<Name>, ready: seq<Name>, indegree: map<Name, int>,
                                    gone: set<Name>, less: Less)
    requires StrictTotalOrder(less) && DegreesCurrent(packages, done, indegree)
    requires ready != [] && Queue(packages, ready, indegree, gone, less)
    requires AsSet(done) <= gone <= AsSet(done) + {""}
    requires Stepwise(packages, done) && Greedy(packages, done, less)
    ensures Stepwise(packages, done + [ready[0]])
    ensures Greedy(packages, done + [ready[0]], less)
  {
    hide Queue, Named, Degree, Ready;
    PopQueue(packages, ready, indegree, gone, less);
    var longer := done + [ready[0]];
    ReadyIffDegreeZero(packages, done, ready[0]);
    forall i | 0 <= i < |longer| ensures Ready(packages, longer[..i], longer[i]) {
      assert longer[..i] == if i < |done| then done[..i] else done;
    }
    forall i, m | 0 <= i < |longer| && Ready(packages, longer[..i], m) && m != ""
      ensures m == longer[i] || less(longer[i], m)
    {
      assert longer[..i] == if i < |done| then done[..i] else done;
      if i == |done| {
        ReadyIsNamed(packages, done, m);
        ReadyIffDegreeZero(packages, done, m);
      }
    }
  }

  lemma ReadyIsNamed(packages: seq<Package>, done: seq<Name>, name: Name)
    requires Ready(packages, done, name)
    ensures name in NameSet(packages) && name !in done
  {
  }

  lemma {:induction false} NameSetCard(packages: seq<Package>)
    requires DistinctNames(packages)
    ensures |NameSet(packages)| == |packages|
  {
    var names := Names(packages);
    CardOfDistinct(names);
    assert forall i | 0 <= i < |packages| :: names[i] == packages[i].name;
    assert AsSet(names) == NameSet(packages);
  }

  /** All packages were ordered: the order is an install order, and nothing is cyclic. */
  lemma {:induction false} OrderedAll(packages: seq<Package>, done: seq<Name>)
    requires DistinctNames(packages) && Stepwise(packages, done)
    requires |done| == |packages| && "" !in done
    ensures IsInstallOrder(packages, done) && !Cyclic(packages) && "" !in NameSet(packages)
  {
    hide Ready;
    StepwiseDistinct(packages, done);
    CardOfDistinct(done);
    NameSetCard(packages);
    SubsetOfSameSize(AsSet(done), NameSet(packages));
    if Cyclic(packages) {
      CyclicHasNoOrder(packages, done);
    }
  }

  lemma SubsetOfSameSize(a: set<Name>, b: set<Name>)
    requires a <= b && |a| == |b|
    ensures a == b
  {
    assert b == a + (b - a);
  }

  lemma {:induction false} PendingDependency(packages: seq<Package>, n: Name, rest: set<Name>)
    requires n in NameSet(packages) && rest <= NameSet(packages) && Degree(packages, rest, n) != 0
    ensures NeedsInside(packages, n, rest)
  {
    CountInZero(DepsOf(packages, n), rest);
    var d :| d in DepsOf(packages, n) && d in rest;
    assert Needs(packages, n, d);
  }

  lemma {:induction false} SomeRest(packages: seq<Package>, done: seq<Name>) returns (start: Name)
    requires DistinctNames(packages) && Distinct(done) && AsSet(done) <= NameSet(packages) && |done| != |packages|
    ensures start in Pending(packages, done)
  {
    CardOfDistinct(done);
    NameSetCard(packages);
    if AsSet(done) == NameSet(packages) {
      assert false;
    }
    start :| start in NameSet(packages) && start !in AsSet(done);
  }

  /** The queue ran empty too early: some package is unnamed, or every remaining one needs another. */
  lemma {:induction false} StuckEarly(packages: seq<Package>, done: seq<Name>, indegree: map<Name, int>, gone: set<Name>, less: Less)
    requires DistinctNames(packages) && Stepwise(packages, done) && DegreesCurrent(packages, done, indegree)
    requires Queue(packages, [], indegree, gone, less)
    requires AsSet(done) <= gone <= AsSet(done) + {""}
    requires |done| != |packages| && "" !in NameSet(packages)
    ensures Cyclic(packages)
  {
    hide Ready, Named, CountIn, Degree;
    StepwiseDistinct(packages, done);
    var start := SomeRest(packages, done);
    var rest := Pending(packages, done);
    forall n | n in rest ensures NeedsInside(packages, n, rest) {
      PendingDependency(packages, n, rest);
    }
    StuckIsCyclic(packages, rest, start);
  }

  /**
   `orderWorkspacePackages`. None stands for the error: a dependency cycle, or a package
   with the empty name, which the loop skips. Otherwise the result is the least of all
   install orders.
   */
  method OrderWorkspacePackages(packages: seq<Package>, less: Less) returns (result: Option<seq<Package>>)
    requires DistinctNames(packages) && StrictTotalOrder(less)
    ensures result.None? <==> Cyclic(packages) || "" in NameSet(packages)
    ensures result.Some? ==>
              && multiset(result.value) == multiset(packages)
              && IsInstallOrder(packages, Names(result.value))
              && forall other | IsInstallOrder(packages, other) :: LexLeq(Names(result.value), other, less)
  {
    hide Queue, EdgesBuilt, DegreesCurrent, Stepwise, Greedy, Cyclic, Named, Sort, OrderedAs, IsInstallOrder, LexLeq;
    var indegree, edges := BuildGraph(packages);
    GraphKeys(packages, [], indegree, edges);
    var ready := Sort(ZeroDegrees(packages, indegree), less);
    ghost var done: seq<Name> := [];
    ghost var gone: set<Name> := {};
    var ordered: seq<Package> := [];
    NothingOrdered(packages);
    StartQueue(packages, indegree, less);
    while |ready| > 0
      invariant EdgesBuilt(packages, edges) && DegreesCurrent(packages, done, indegree)
      invariant indegree.Keys == edges.Keys == NameSet(packages)
      invariant Queue(packages, ready, indegree, gone, less)
      invariant AsSet(done) <= gone <= AsSet(done) + {""} && gone <= NameSet(packages) && "" !in done
      invariant Stepwise(packages, done) && Greedy(packages, done, less)
      invariant OrderedAs(packages, ordered, done)
      decreases NameSet(packages) - gone
    {
      var currentName := ready[0];
      PopQueue(packages, ready, indegree, gone, less);
      ghost var queued := ready;
      ready := ready[1..];
      if currentName == "" {
        gone := gone + {currentName};
        continue;
      }
      TakeHead(packages, done, queued, indegree, gone, less);
      var current := Named(packages, currentName);
      OrderedNext(packages, ordered, done, current);
      ordered := ordered + [current];
      gone := gone + {currentName};
      indegree, ready := ReleaseDependents(packages, edges, currentName, indegree, ready, less, done, gone);
      done := done + [currentName];
      GraphKeys(packages, done, indegree, edges);
    }
    assert ready == [];
    OrderedLength(packages, ordered, done);
    if |ordered| != |packages| {
      if "" !in NameSet(packages) {
        StuckEarly(packages, done, indegree, gone, less);
      }
      return None;
    }
    Conclude(packages, ordered, done, less);
    result := Some(ordered);
  }

  lemma {:induction false} Conclude(packages: seq<Package>, ordered: seq<Package>, done: seq<Name>, less: Less)
    requires DistinctNames(packages) && OrderedAs(packages, ordered, done) && |ordered| == |packages|
    requires Stepwise(packages, done) && Greedy(packages, done, less) && "" !in done
    ensures !Cyclic(packages) && "" !in NameSet(packages)
    ensures multiset(ordered) == multiset(packages) && IsInstallOrder(packages, Names(ordered))
    ensures forall other | IsInstallOrder(packages, other) :: LexLeq(Names(ordered), other, less)
  {
    hide Ready, Greedy, LexLeq, Cyclic;
    OrderedAll(packages, done);
    OrderedIsPermutation(packages, ordered, done);
    forall other | IsInstallOrder(packages, other) ensures LexLeq(done, other, less) {
      GreedyIsLeast(packages, done, other, less);
    }
  }

  lemma NothingOrdered(packages: seq<Package>)
    ensures OrderedAs(packages, [], [])
  {
  }

  lemma OrderedNext(packages: seq<Package>, ordered: seq<Package>, done: seq<Name>, p: Package)
    requires OrderedAs(packages, ordered, done) && p in packages
    ensures OrderedAs(packages, ordered + [p], done + [p.name])
  {
  }

  lemma OrderedLength(packages: seq<Package>, ordered: seq<Package>, done: seq<Name>)
    requires OrderedAs(packages, ordered, done)
    ensures |ordered| == |done|
  {
  }

  /** The packages of the names, in the same order. */
  ghost predicate OrderedAs(packages: seq<Package>, ordered: seq<Package>, done: seq<Name>) {
    && |ordered| == |done|
    && forall i | 0 <= i < |done| :: ordered[i].name == done[i] && ordered[i] in packages
  }

  lemma GraphKeys(packages: seq<Package>, done: seq<Name>, indegree: map<Name, int>, edges: map<Name, seq<Name>>)
    requires EdgesBuilt(packages, edges) && DegreesCurrent(packages, done, indegree)
    ensures indegree.Keys == edges.Keys == NameSet(packages)
  {
  }

  /** The packages without workspace dependencies, in the order given. */
  function ZeroDegrees(packages: seq<Package>, indegree: map<Name, int>): seq<Name> {
    if packages == [] then []
    else
      var last := packages[|packages| - 1].name;
      ZeroDegrees(packages[..|packages| - 1], indegree) + if last in indegree && indegree[last] == 0 then [last] else []
  }

  lemma {:induction false} ZeroDegreesAre(packages: seq<Package>, indegree: map<Name, int>)
    requires DistinctNames(packages)
    ensures Distinct(ZeroDegrees(packages, indegree))
    ensures forall n :: n in ZeroDegrees(packages, indegree) <==> n in NameSet(packages) && n in indegree && indegree[n] == 0
  {
    if packages != [] {
      var init := packages[..|packages| - 1];
      var last := packages[|packages| - 1];
      ZeroDegreesAre(init, indegree);
      assert packages == init + [last];
      assert NameSet(packages) == NameSet(init) + {last.name};
      assert last.name !in NameSet(init);
    }
  }

  lemma {:induction false} StartQueue(packages: seq<Package>, indegree: map<Name, int>, less: Less)
    requires DistinctNames(packages) && StrictTotalOrder(less) && indegree.Keys == NameSet(packages)
    ensures Queue(packages, Sort(ZeroDegrees(packages, indegree), less), indegree, {}, less)
    ensures Stepwise(packages, []) && Greedy(packages, [], less)
  {
    ZeroDegreesAre(packages, indegree);
    SortSorts(ZeroDegrees(packages, indegree), less);
  }

  lemma {:induction false} OnceEach(packages: seq<Package>, p: Package)
    requires DistinctNames(packages)
    ensures multiset(packages)[p] == if p in packages then 1 else 0
  {
    if packages != [] {
      var init := packages[..|packages| - 1];
      OnceEach(init, p);
      assert packages == init + [packages[|packages| - 1]];
    }
  }

  lemma {:induction false} OrderedIsPermutation(packages: seq<Package>, ordered: seq<Package>, done: seq<Name>)
    requires DistinctNames(packages) && OrderedAs(packages, ordered, done) && IsInstallOrder(packages, done)
    ensures multiset(ordered) == multiset(packages) && Names(ordered) == done
  {
    hide Ready;
    StepwiseDistinct(packages, done);
    assert DistinctNames(ordered);
    forall p ensures p in ordered <==> p in packages {
      if p in packages {
        assert p.name in done;
        var i :| 0 <= i < |done| && done[i] == p.name;
        assert ordered[i] == p;
      }
    }
    forall p ensures multiset(ordered)[p] == multiset(packages)[p] {
      OnceEach(ordered, p);
      OnceEach(packages, p);
    }
  }

  /** A package without a name is refused, although it has an install order. */
  method RefuseUnnamedPackage(dir: string, less: Less) returns (packages: seq<Package>, result: Option<seq<Package>>)
    requires StrictTotalOrder(less)
    ensures packages == [Package("", [], dir)] && result.None?
    ensures !Cyclic(packages) && IsInstallOrder(packages, [""])
  {
    packages := [Package("", [], dir)];
    UnnamedPackageHasOrder(dir);
    result := OrderWorkspacePackages(packages, less);
  }
}
