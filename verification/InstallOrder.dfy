/**
 The install order of workspace packages: Kahn's algorithm with a ready queue kept
 sorted by name. Names are compared by a given strict total order.
 */
module InstallOrder {
  type Name = string

  datatype Package = Package(name: Name, localDependencyNames: seq<Name>, dir: string)

  type Less = (Name, Name) -> bool

  ghost predicate StrictTotalOrder(less: Less) {
    && (forall a :: !less(a, a))
    && (forall a, b, c :: less(a, b) && less(b, c) ==> less(a, c))
    && (forall a, b :: a != b ==> less(a, b) || less(b, a))
  }

  // ----- the dependency graph

  ghost predicate DistinctNames(packages: seq<Package>) {
    forall i, j | 0 <= i < j < |packages| :: packages[i].name != packages[j].name
  }

  function NameSet(packages: seq<Package>): set<Name> {
    set p | p in packages :: p.name
  }

  function Names(packages: seq<Package>): seq<Name> {
    seq(|packages|, i requires 0 <= i < |packages| => packages[i].name)
  }

  /** The package with a name: the last one, as a map from names would keep it. */
  function Named(packages: seq<Package>, name: Name): (p: Package)
    requires name in NameSet(packages)
    ensures p in packages && p.name == name
  {
    var last := packages[|packages| - 1];
    if last.name == name then last
    else
      assert packages == packages[..|packages| - 1] + [last];
      Named(packages[..|packages| - 1], name)
  }

  function DepsOf(packages: seq<Package>, name: Name): seq<Name>
    requires name in NameSet(packages)
  {
    Named(packages, name).localDependencyNames
  }

  /** `a` needs `b`, and both are workspace packages. */
  predicate Needs(packages: seq<Package>, a: Name, b: Name) {
    a in NameSet(packages) && b in NameSet(packages) && b in DepsOf(packages, a)
  }

  /** A walk along dependencies that returns to its start; a self-dependency is one of length 1. */
  ghost predicate ClosedWalk(packages: seq<Package>, walk: seq<Name>) {
    && |walk| >= 2 && walk[0] == walk[|walk| - 1]
    && forall i | 0 <= i < |walk| - 1 :: Needs(packages, walk[i], walk[i + 1])
  }

  ghost predicate Cyclic(packages: seq<Package>) {
    exists walk :: ClosedWalk(packages, walk)
  }

  // ----- orders of names

  ghost predicate Distinct(names: seq<Name>) {
    forall i, j | 0 <= i < j < |names| :: names[i] != names[j]
  }

  /** A workspace package whose workspace dependencies are all done, and which is not. */
  predicate Ready(packages: seq<Package>, done: seq<Name>, name: Name) {
    && name in NameSet(packages) && name !in done
    && forall d | d in DepsOf(packages, name) && d in NameSet(packages) :: d in done
  }

  /** Every name comes after its workspace dependencies, and no name twice. */
  ghost predicate Stepwise(packages: seq<Package>, names: seq<Name>) {
    forall i | 0 <= i < |names| :: Ready(packages, names[..i], names[i])
  }

  /** An install order: all packages, each once, each after its dependencies. */
  ghost predicate IsInstallOrder(packages: seq<Package>, names: seq<Name>) {
    Stepwise(packages, names) && forall n | n in NameSet(packages) :: n in names
  }

  /** Each name is the least that was ready; the empty name is never taken. */
  ghost predicate Greedy(packages: seq<Package>, names: seq<Name>, less: Less) {
    forall i, m | 0 <= i < |names| && Ready(packages, names[..i], m) && m != "" ::
      m == names[i] || less(names[i], m)
  }

  ghost predicate LexLeq(a: seq<Name>, b: seq<Name>, less: Less) {
    a == b || exists k :: 0 <= k < |a| && k < |b| && a[..k] == b[..k] && less(a[k], b[k])
  }

  lemma {:induction false} StepwiseDistinct(packages: seq<Package>, names: seq<Name>)
    requires Stepwise(packages, names)
    ensures Distinct(names)
    ensures forall n | n in names :: n in NameSet(packages)
  {
    forall i, j | 0 <= i < j < |names| ensures names[i] != names[j] {
      assert Ready(packages, names[..j], names[j]);
      assert names[..j][i] == names[i];
    }
    forall i | 0 <= i < |names| ensures names[i] in NameSet(packages) {
      assert Ready(packages, names[..i], names[i]);
    }
  }

  /** A greedy order is lexicographically least among the install orders. */
  lemma {:induction false} GreedyAgreesOrWins(packages: seq<Package>, names: seq<Name>, other: seq<Name>, less: Less, k: nat)
    requires Greedy(packages, names, less) && Stepwise(packages, other) && "" !in other
    requires k <= |names| && k <= |other|
    ensures names[..k] == other[..k]
            || exists i :: 0 <= i < k && names[..i] == other[..i] && less(names[i], other[i])
  {
    if k > 0 {
      GreedyAgreesOrWins(packages, names, other, less, k - 1);
      if names[..k - 1] == other[..k - 1] {
        assert Ready(packages, other[..k - 1], other[k - 1]);
        assert other[k - 1] in other;
        if names[k - 1] == other[k - 1] {
          assert names[..k] == names[..k - 1] + [names[k - 1]];
          assert other[..k] == other[..k - 1] + [other[k - 1]];
        } else {
          assert less(names[k - 1], other[k - 1]);
        }
      }
    }
  }

  lemma {:induction false} SameSetSameLength(a: seq<Name>, b: seq<Name>)
    requires Distinct(a) && Distinct(b) && forall n :: n in a <==> n in b
    ensures |a| == |b|
  {
    CardOfDistinct(a);
    CardOfDistinct(b);
    assert AsSet(a) == AsSet(b);
  }

  function AsSet(names: seq<Name>): set<Name> {
    set n | n in names
  }

  lemma {:induction false} CardOfDistinct(a: seq<Name>)
    requires Distinct(a)
    ensures |AsSet(a)| == |a|
  {
    if a == [] {
      assert AsSet(a) == {};
    } else {
      var init := a[..|a| - 1];
      CardOfDistinct(init);
      assert a == init + [a[|a| - 1]];
      assert AsSet(a) == AsSet(init) + {a[|a| - 1]};
    }
  }

  lemma {:induction false} GreedyIsLeast(packages: seq<Package>, names: seq<Name>, other: seq<Name>, less: Less)
    requires Greedy(packages, names, less)
    requires IsInstallOrder(packages, names) && IsInstallOrder(packages, other) && "" !in NameSet(packages)
    ensures LexLeq(names, other, less)
  {
    StepwiseDistinct(packages, names);
    StepwiseDistinct(packages, other);
    SameSetSameLength(names, other);
    GreedyAgreesOrWins(packages, names, other, less, |names|);
    assert names[..|names|] == names && other[..|other|] == other;
  }

  // ----- cycles

  /** In an install order every dependency goes back in the list, so no walk can close. */
  lemma {:induction false} WalkGoesBack(packages: seq<Package>, names: seq<Name>, walk: seq<Name>, k: nat) returns (at: nat)
    requires IsInstallOrder(packages, names) && ClosedWalk(packages, walk) && k < |walk|
    ensures at < |names| && names[at] == walk[k]
    ensures forall i | 0 <= i < |names| && names[i] == walk[0] :: k == 0 || at < i
  {
    StepwiseDistinct(packages, names);
    if k == 0 {
      assert Needs(packages, walk[0], walk[1]);
      at :| 0 <= at < |names| && names[at] == walk[0];
    } else {
      var before := WalkGoesBack(packages, names, walk, k - 1);
      assert Needs(packages, walk[k - 1], walk[k]);
      assert Ready(packages, names[..before], names[before]);
      assert walk[k] in names[..before];
      at :| 0 <= at < before && names[at] == walk[k];
    }
  }

  lemma {:induction false} CyclicHasNoOrder(packages: seq<Package>, names: seq<Name>)
    requires Cyclic(packages)
    ensures !IsInstallOrder(packages, names)
  {
    if IsInstallOrder(packages, names) {
      var walk :| ClosedWalk(packages, walk);
      var at := WalkGoesBack(packages, names, walk, |walk| - 1);
      assert false;
    }
  }

  ghost predicate NeedsInside(packages: seq<Package>, n: Name, rest: set<Name>) {
    exists d :: d in rest && Needs(packages, n, d)
  }

  ghost predicate AllNeedInside(packages: seq<Package>, rest: set<Name>) {
    forall n | n in rest :: NeedsInside(packages, n, rest)
  }

  /** A walk along dependencies. */
  ghost predicate Walk(packages: seq<Package>, walk: seq<Name>) {
    forall i | 0 <= i < |walk| - 1 :: Needs(packages, walk[i], walk[i + 1])
  }

  lemma {:induction false} LongWalk(packages: seq<Package>, rest: set<Name>, start: Name, k: nat) returns (walk: seq<Name>)
    requires AllNeedInside(packages, rest) && start in rest
    ensures |walk| == k + 1 && Walk(packages, walk)
    ensures forall i | 0 <= i < |walk| :: walk[i] in rest
  {
    hide Needs;
    if k == 0 {
      walk := [start];
    } else {
      var shorter := LongWalk(packages, rest, start, k - 1);
      assert NeedsInside(packages, shorter[k - 1], rest);
      var d :| d in rest && Needs(packages, shorter[k - 1], d);
      walk := shorter + [d];
    }
  }

  lemma {:induction false} Pigeonhole(walk: seq<Name>, rest: set<Name>)
    requires |walk| > |rest| && forall i | 0 <= i < |walk| :: walk[i] in rest
    ensures exists i, j :: 0 <= i < j < |walk| && walk[i] == walk[j]
  {
    if Distinct(walk) {
      CardOfDistinct(walk);
      SubsetCard(AsSet(walk), rest);
      assert false;
    }
  }

  lemma {:induction false} SubsetCard(a: set<Name>, b: set<Name>)
    requires a <= b
    ensures |a| <= |b|
  {
    assert b == a + (b - a);
  }

  /** If every remaining package needs a remaining one, there is a cycle. */
  lemma {:induction false} StuckIsCyclic(packages: seq<Package>, rest: set<Name>, start: Name)
    requires AllNeedInside(packages, rest) && start in rest
    ensures Cyclic(packages)
  {
    hide Needs, AllNeedInside;
    var walk := LongWalk(packages, rest, start, |rest|);
    Pigeonhole(walk, rest);
    var i, j :| 0 <= i < j < |walk| && walk[i] == walk[j];
    var closed := walk[i..j + 1];
    assert ClosedWalk(packages, closed);
  }

  /** One package without a name: its graph has no cycle, and it has an install order. */
  lemma UnnamedPackageHasOrder(dir: string)
    ensures var packages := [Package("", [], dir)];
            && DistinctNames(packages) && "" in NameSet(packages)
            && !Cyclic(packages) && IsInstallOrder(packages, [""])
  {
    var packages := [Package("", [], dir)];
    assert packages[0] in packages;
    assert NameSet(packages) == {""};
    assert Ready(packages, [""][..0], "");
    forall walk ensures !ClosedWalk(packages, walk) {
      assert |walk| >= 2 ==> !Needs(packages, walk[0], walk[1]);
    }
  }
}
