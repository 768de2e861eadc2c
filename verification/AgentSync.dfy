/**
 The in-memory agent registry: synchronising one kind of agents with a remote catalog
 drops the entries that left the catalog, overwrites those still in it, and appends the rest.
 */
module AgentSync {
  import opened Prelude
  import opened AgentCatalog

  function SlugsOf(agents: seq<Agent>): set<string> {
    set a | a in agents :: a.slug
  }

  predicate OfKind(a: Agent, kinds: set<Kind>) {
    a.managedKind.Some? && a.managedKind.value in kinds
  }

  function Select(agents: seq<Agent>, keep: Agent -> bool): seq<Agent> {
    if agents == [] then []
    else Select(agents[..|agents| - 1], keep) + if keep(agents[|agents| - 1]) then [agents[|agents| - 1]] else []
  }

  // ----- the specification

  function Prune(agents: seq<Agent>, kinds: set<Kind>, slugs: set<string>): seq<Agent> {
    Select(agents, (a: Agent) => OfKind(a, kinds) ==> a.slug in slugs)
  }

  /** The first place a slug occurs at, or the length. */
  function FindSlug(agents: seq<Agent>, slug: string): (i: nat)
    ensures i <= |agents|
    ensures i < |agents| ==> agents[i].slug == slug
    ensures forall j | 0 <= j < i :: agents[j].slug != slug
  {
    if agents == [] then 0
    else if agents[0].slug == slug then 0
    else
      FindSlug(agents[1..], slug) + 1
  }

  function Upsert(agents: seq<Agent>, next: Agent): seq<Agent> {
    var i := FindSlug(agents, next.slug);
    if i < |agents| then agents[i := next] else agents + [next]
  }

  function UpsertAll(agents: seq<Agent>, nexts: seq<Agent>): seq<Agent> {
    if nexts == [] then agents
    else Upsert(UpsertAll(agents, nexts[..|nexts| - 1]), nexts[|nexts| - 1])
  }

  function Sync(agents: seq<Agent>, kinds: set<Kind>, nexts: seq<Agent>): seq<Agent> {
    UpsertAll(Prune(agents, kinds, SlugsOf(nexts)), nexts)
  }

  /** The local entry a remote agent becomes. */
  function Registered(remote: Agent, slug: string, kind: Kind): Agent {
    remote.(slug := slug, source := "local_registry", synced := true, managedKind := Some(kind),
            remoteSlug := Some(remote.remoteSlug.GetOr(remote.slug)))
  }

  function RegisteredAll(remotes: seq<Agent>, slugFor: Agent -> string, kindFor: Agent -> Kind): seq<Agent> {
    seq(|remotes|, i requires 0 <= i < |remotes| => Registered(remotes[i], slugFor(remotes[i]), kindFor(remotes[i])))
  }

  function SelfHostedKind(remote: Agent): Kind {
    if IsLoadBalanced(remote) then SelfHostedLoadBalanced else SelfHosted
  }

  // ----- the registry

  class Registry {
    var localAgents: seq<Agent>

    constructor (agents: seq<Agent>)
      ensures localAgents == agents
    {
      localAgents := agents;
    }

    method UpsertRemotes(nexts: seq<Agent>)
      modifies this
      ensures localAgents == UpsertAll(old(localAgents), nexts)
    {
      for i := 0 to |nexts|
        invariant localAgents == UpsertAll(old(localAgents), nexts[..i])
      {
        assert nexts[..i + 1][..i] == nexts[..i];
        var index := FindSlug(localAgents, nexts[i].slug);
        if index < |localAgents| {
          localAgents := localAgents[index := nexts[i]];
        } else {
          localAgents := localAgents + [nexts[i]];
        }
      }
      assert nexts[..|nexts|] == nexts;
    }

    /** `syncRemote`: cloud agents and workers. */
    method SyncRemote(remotes: seq<Agent>, slugFor: Agent -> string, kind: Kind) returns (shown: seq<Agent>)
      modifies this
      ensures localAgents == Sync(old(localAgents), {kind}, RegisteredAll(remotes, slugFor, _ => kind))
      ensures shown == Select(localAgents, (a: Agent) => OfKind(a, {kind}))
    {
      var nexts := RegisteredAll(remotes, slugFor, _ => kind);
      localAgents := Prune(localAgents, {kind}, SlugsOf(nexts));
      UpsertRemotes(nexts);
      shown := Select(localAgents, (a: Agent) => OfKind(a, {kind}));
    }

    /** `syncSelfHostedRemote`: both self-hosted kinds; load-balanced entries may be spared. */
    method SyncSelfHostedRemote(remotes: seq<Agent>, normalize: string -> string, includeLoadBalanced: bool)
      returns (shown: seq<Agent>)
      modifies this
      ensures localAgents ==
                Sync(old(localAgents), if includeLoadBalanced then {SelfHosted, SelfHostedLoadBalanced} else {SelfHosted},
                     RegisteredAll(remotes, (a: Agent) => SyncedSelfHostedSlug(a, normalize), SelfHostedKind))
      ensures shown == Select(localAgents, (a: Agent) => OfKind(a, {SelfHosted, SelfHostedLoadBalanced}))
    {
      var nexts := RegisteredAll(remotes, (a: Agent) => SyncedSelfHostedSlug(a, normalize), SelfHostedKind);
      var kinds := if includeLoadBalanced then {SelfHosted, SelfHostedLoadBalanced} else {SelfHosted};
      localAgents := Prune(localAgents, kinds, SlugsOf(nexts));
      UpsertRemotes(nexts);
      shown := Select(localAgents, (a: Agent) => OfKind(a, {SelfHosted, SelfHostedLoadBalanced}));
    }
  }

  // ----- what a synchronisation leaves behind

  lemma {:induction false} SelectHas(agents: seq<Agent>, keep: Agent -> bool, a: Agent)
    ensures a in Select(agents, keep) <==> a in agents && keep(a)
  {
    if agents != [] {
      SelectHas(agents[..|agents| - 1], keep, a);
      assert agents == agents[..|agents| - 1] + [agents[|agents| - 1]];
    }
  }

  /** The last of the entries with a slug wins. */
  function LastNamed(nexts: seq<Agent>, slug: string): (n: Agent)
    requires slug in SlugsOf(nexts)
    ensures n in nexts && n.slug == slug
  {
    var last := nexts[|nexts| - 1];
    if last.slug == slug then last
    else
      assert nexts == nexts[..|nexts| - 1] + [last];
      LastNamed(nexts[..|nexts| - 1], slug)
  }

  predicate FirstAt(agents: seq<Agent>, i: nat)
    requires i < |agents|
  {
    forall j | 0 <= j < i :: agents[j].slug != agents[i].slug
  }

  /** The first entry with a wanted slug is the wanted entry; any other is as before. */
  ghost predicate Placed(before: seq<Agent>, nexts: seq<Agent>, after: seq<Agent>, i: nat)
    requires i < |after|
  {
    if after[i].slug in SlugsOf(nexts) && FirstAt(after, i) then after[i] == LastNamed(nexts, after[i].slug)
    else i < |before| && after[i] == before[i]
  }

  /** Every entry of `after` is accounted for, in its place. */
  ghost predicate Reconciled(before: seq<Agent>, nexts: seq<Agent>, after: seq<Agent>) {
    && |before| <= |after|
    && (forall i | 0 <= i < |before| :: after[i].slug == before[i].slug)
    && (forall i | 0 <= i < |after| :: Placed(before, nexts, after, i))
    && SlugsOf(after) == SlugsOf(before) + SlugsOf(nexts)
  }

  lemma SlugsOfAppend(agents: seq<Agent>, n: Agent)
    ensures SlugsOf(agents + [n]) == SlugsOf(agents) + {n.slug}
  {
    assert (agents + [n])[|agents|] == n;
    assert forall a | a in agents :: a in agents + [n];
  }

  lemma UpsertPlaced(before: seq<Agent>, nexts: seq<Agent>, mid: seq<Agent>, n: Agent, i: nat)
    requires i < |Upsert(mid, n)|
    requires i < |mid| ==> Placed(before, nexts, mid, i)
    ensures Placed(before, nexts + [n], Upsert(mid, n), i)
  {
    assert (nexts + [n])[..|nexts|] == nexts;
    SlugsOfAppend(nexts, n);
    UpsertPlaces(mid, n);
    hide SlugsOf;
  }

  lemma UpsertReconciles(before: seq<Agent>, nexts: seq<Agent>, mid: seq<Agent>, n: Agent)
    requires Reconciled(before, nexts, mid)
    ensures Reconciled(before, nexts + [n], Upsert(mid, n))
  {
    hide SlugsOf, Placed;
    var after := Upsert(mid, n);
    SlugsOfAppend(nexts, n);
    UpsertSlugs(mid, n);
    forall i | 0 <= i < |after| ensures Placed(before, nexts + [n], after, i) {
      UpsertPlaced(before, nexts, mid, n, i);
    }
  }

  lemma UpsertPlaces(mid: seq<Agent>, n: Agent)
    ensures var after := Upsert(mid, n);
            forall i | 0 <= i < |mid| :: after[i].slug == mid[i].slug && FirstAt(after, i) == FirstAt(mid, i)
  {
    var after := Upsert(mid, n);
    forall i | 0 <= i < |mid|
      ensures after[i].slug == mid[i].slug && FirstAt(after, i) == FirstAt(mid, i)
    {
      assert forall j | 0 <= j <= i :: after[j].slug == mid[j].slug;
    }
  }

  lemma UpsertSlugs(agents: seq<Agent>, n: Agent)
    ensures SlugsOf(Upsert(agents, n)) == SlugsOf(agents) + {n.slug}
  {
    var after := Upsert(agents, n);
    var place := FindSlug(agents, n.slug);
    assert after[place] == n;
    forall slug ensures slug in SlugsOf(after) <==> slug in SlugsOf(agents) + {n.slug} {
      if slug in SlugsOf(agents) {
        var i :| 0 <= i < |agents| && agents[i].slug == slug;
        assert after[i].slug == slug;
      }
      if slug in SlugsOf(after) {
        var i :| 0 <= i < |after| && after[i].slug == slug;
        assert i < |agents| ==> agents[i].slug == slug;
      }
    }
  }

  lemma {:induction false} UpsertAllReconciles(before: seq<Agent>, nexts: seq<Agent>)
    ensures Reconciled(before, nexts, UpsertAll(before, nexts))
  {
    if nexts != [] {
      var init, n := nexts[..|nexts| - 1], nexts[|nexts| - 1];
      UpsertAllReconciles(before, init);
      UpsertReconciles(before, init, UpsertAll(before, init), n);
      assert nexts == init + [n];
    }
  }

  /** What is shown after a synchronisation: the remotes' local slugs, and those of the shown
      entries of a kind that was spared from pruning. */
  lemma SyncedSlugs(agents: seq<Agent>, kinds: set<Kind>, shown: set<Kind>, nexts: seq<Agent>, slug: string)
    requires kinds <= shown && forall n | n in nexts :: OfKind(n, shown)
    ensures slug in SlugsOf(Select(Sync(agents, kinds, nexts), (a: Agent) => OfKind(a, shown)))
            <==> slug in SlugsOf(nexts)
                 || exists a | a in agents :: a.slug == slug && OfKind(a, shown) && !OfKind(a, kinds)
  {
    var pruned := Prune(agents, kinds, SlugsOf(nexts));
    var after := UpsertAll(pruned, nexts);
    var chosen := Select(after, (a: Agent) => OfKind(a, shown));
    UpsertAllReconciles(pruned, nexts);
    if slug in SlugsOf(nexts) {
      var i := FindSlug(after, slug);
      assert slug in SlugsOf(after) && i < |after|;
      assert Placed(pruned, nexts, after, i);
      SelectHas(after, (a: Agent) => OfKind(a, shown), after[i]);
      assert after[i] in chosen;
    } else {
      forall a ensures a in after && a.slug == slug <==> a in pruned && a.slug == slug {
        if a in after && a.slug == slug {
          var i :| 0 <= i < |after| && after[i] == a;
          assert Placed(pruned, nexts, after, i);
        }
        if a in pruned && a.slug == slug {
          var i :| 0 <= i < |pruned| && pruned[i] == a;
          assert Placed(pruned, nexts, after, i);
        }
      }
      forall a ensures a in chosen && a.slug == slug <==> a in agents && a.slug == slug && OfKind(a, shown) && !OfKind(a, kinds) {
        SelectHas(after, (b: Agent) => OfKind(b, shown), a);
        SelectHas(agents, (b: Agent) => OfKind(b, kinds) ==> b.slug in SlugsOf(nexts), a);
      }
    }
  }

  lemma RegisteredSlugs(remotes: seq<Agent>, slugFor: Agent -> string, kindFor: Agent -> Kind, slug: string)
    ensures slug in SlugsOf(RegisteredAll(remotes, slugFor, kindFor)) <==> exists r | r in remotes :: slugFor(r) == slug
  {
    var nexts := RegisteredAll(remotes, slugFor, kindFor);
    if r :| r in remotes && slugFor(r) == slug {
      var i :| 0 <= i < |remotes| && remotes[i] == r;
      assert nexts[i].slug == slug;
    }
    if slug in SlugsOf(nexts) {
      var i :| 0 <= i < |nexts| && nexts[i].slug == slug;
      assert slugFor(remotes[i]) == slug;
    }
  }

  /** `syncRemote` shows exactly the remotes' local slugs. */
  lemma RemoteSlugsShown(agents: seq<Agent>, remotes: seq<Agent>, slugFor: Agent -> string, kind: Kind, slug: string)
    ensures var nexts := RegisteredAll(remotes, slugFor, _ => kind);
            slug in SlugsOf(Select(Sync(agents, {kind}, nexts), (a: Agent) => OfKind(a, {kind})))
            <==> exists r | r in remotes :: slugFor(r) == slug
  {
    var nexts := RegisteredAll(remotes, slugFor, _ => kind);
    SyncedSlugs(agents, {kind}, {kind}, nexts, slug);
    RegisteredSlugs(remotes, slugFor, _ => kind, slug);
  }

  ghost predicate UniqueSlugs(agents: seq<Agent>) {
    forall i, j | 0 <= i < j < |agents| :: agents[i].slug != agents[j].slug
  }

  lemma {:induction false} SelectUnique(agents: seq<Agent>, keep: Agent -> bool)
    requires UniqueSlugs(agents)
    ensures UniqueSlugs(Select(agents, keep))
  {
    if agents != [] {
      var init := agents[..|agents| - 1];
      SelectUnique(init, keep);
      forall a | a in Select(init, keep) ensures a.slug != agents[|agents| - 1].slug {
        SelectHas(init, keep, a);
      }
    }
  }

  lemma {:induction false} UpsertAllUnique(agents: seq<Agent>, nexts: seq<Agent>)
    requires UniqueSlugs(agents)
    ensures UniqueSlugs(UpsertAll(agents, nexts))
  {
    if nexts != [] {
      UpsertAllUnique(agents, nexts[..|nexts| - 1]);
    }
  }

  /** A registry without duplicate slugs stays one, whatever the catalog. */
  lemma SyncKeepsUnique(agents: seq<Agent>, kinds: set<Kind>, nexts: seq<Agent>)
    requires UniqueSlugs(agents)
    ensures UniqueSlugs(Sync(agents, kinds, nexts))
  {
    SelectUnique(agents, (a: Agent) => OfKind(a, kinds) ==> a.slug in SlugsOf(nexts));
    UpsertAllUnique(Prune(agents, kinds, SlugsOf(nexts)), nexts);
  }

  // ----- entries no remote maps to

  function Unmapped(agents: seq<Agent>, slugs: set<string>): seq<Agent> {
    Select(agents, (a: Agent) => a.slug !in slugs)
  }

  /** Entries outside the synchronised kinds that no remote maps to. */
  function Bystanders(agents: seq<Agent>, kinds: set<Kind>, slugs: set<string>): seq<Agent> {
    Select(agents, (a: Agent) => a.slug !in slugs && !OfKind(a, kinds))
  }

  lemma {:induction false} UpsertUnmapped(agents: seq<Agent>, place: nat, n: Agent, slugs: set<string>)
    requires place < |agents| && agents[place].slug == n.slug && n.slug in slugs
    ensures Unmapped(agents[place := n], slugs) == Unmapped(agents, slugs)
  {
    var last := |agents| - 1;
    var init, after := agents[..last], agents[place := n];
    if place < last {
      UpsertUnmapped(init, place, n, slugs);
      assert after[..last] == init[place := n];
    } else {
      assert after[..last] == init;
    }
  }

  lemma {:induction false} UpsertAllUnmapped(agents: seq<Agent>, nexts: seq<Agent>, slugs: set<string>)
    requires SlugsOf(nexts) <= slugs
    ensures Unmapped(UpsertAll(agents, nexts), slugs) == Unmapped(agents, slugs)
  {
    if nexts != [] {
      var init, n := nexts[..|nexts| - 1], nexts[|nexts| - 1];
      assert nexts == init + [n];
      SlugsOfAppend(init, n);
      UpsertAllUnmapped(agents, init, slugs);
      var mid := UpsertAll(agents, init);
      var place := FindSlug(mid, n.slug);
      if place < |mid| {
        UpsertUnmapped(mid, place, n, slugs);
      } else {
        assert (mid + [n])[..|mid|] == mid;
      }
    }
  }

  lemma {:induction false} PruneUnmapped(agents: seq<Agent>, kinds: set<Kind>, slugs: set<string>)
    ensures Unmapped(Prune(agents, kinds, slugs), slugs) == Bystanders(agents, kinds, slugs)
  {
    if agents != [] {
      var init, last := agents[..|agents| - 1], agents[|agents| - 1];
      PruneUnmapped(init, kinds, slugs);
      var kept := Prune(init, kinds, slugs);
      assert (kept + [last])[..|kept|] == kept && kept + [] == kept;
    }
  }

  /** Entries of other kinds that no remote maps to are untouched and keep their order; of the
      entries no remote maps to, nothing else is left. */
  lemma BystandersUntouched(agents: seq<Agent>, kinds: set<Kind>, nexts: seq<Agent>)
    ensures Unmapped(Sync(agents, kinds, nexts), SlugsOf(nexts)) == Bystanders(agents, kinds, SlugsOf(nexts))
  {
    PruneUnmapped(agents, kinds, SlugsOf(nexts));
    UpsertAllUnmapped(Prune(agents, kinds, SlugsOf(nexts)), nexts, SlugsOf(nexts));
  }

  /** Each remote's local slug names, at its first place, exactly the entry that the last remote
      with that slug becomes. */
  lemma RemotesRegistered(agents: seq<Agent>, kinds: set<Kind>, nexts: seq<Agent>, slug: string)
    requires slug in SlugsOf(nexts)
    ensures var after := Sync(agents, kinds, nexts);
            var i := FindSlug(after, slug);
            i < |after| && after[i] == LastNamed(nexts, slug)
  {
    var pruned := Prune(agents, kinds, SlugsOf(nexts));
    var after := Sync(agents, kinds, nexts);
    UpsertAllReconciles(pruned, nexts);
    assert slug in SlugsOf(after);
    assert Placed(pruned, nexts, after, FindSlug(after, slug));
  }

  /** What a registered entry says: where it came from, its kind, and all that the remote said. */
  ghost predicate IsEntryOf(entry: Agent, remote: Agent, kind: Kind) {
    && entry.remoteSlug == (if remote.remoteSlug.Some? then remote.remoteSlug else Some(remote.slug))
    && entry.source == "local_registry" && entry.synced && entry.managedKind == Some(kind)
    && entry.routingMode == remote.routingMode && entry.loadBalancedGroupId == remote.loadBalancedGroupId
    && entry.nodeId == remote.nodeId && entry.serverName == remote.serverName && entry.serverId == remote.serverId
    && entry.details == remote.details
  }

  ghost predicate IsLast(remotes: seq<Agent>, slugFor: Agent -> string, slug: string, k: nat) {
    k < |remotes| && slugFor(remotes[k]) == slug && forall j | k < j < |remotes| :: slugFor(remotes[j]) != slug
  }

  lemma {:induction false} LastIsRegistered(remotes: seq<Agent>, slugFor: Agent -> string, kindFor: Agent -> Kind,
                                            slug: string, k: nat)
    requires IsLast(remotes, slugFor, slug, k)
    ensures var nexts := RegisteredAll(remotes, slugFor, kindFor);
            slug in SlugsOf(nexts) && IsEntryOf(LastNamed(nexts, slug), remotes[k], kindFor(remotes[k]))
  {
    var nexts := RegisteredAll(remotes, slugFor, kindFor);
    assert nexts[k].slug == slug;
    if k < |remotes| - 1 {
      var init := remotes[..|remotes| - 1];
      LastIsRegistered(init, slugFor, kindFor, slug, k);
      assert nexts[..|nexts| - 1] == RegisteredAll(init, slugFor, kindFor);
    }
  }

  /** After self-hosted agents are synchronised, the last remote with a local slug is the entry
      found under it, and its kind is load-balanced exactly when the remote shows a sign of it. */
  lemma SelfHostedRegistered(agents: seq<Agent>, kinds: set<Kind>, remotes: seq<Agent>, normalize: string -> string, k: nat)
    requires k < |remotes|
    requires IsLast(remotes, (a: Agent) => SyncedSelfHostedSlug(a, normalize), SyncedSelfHostedSlug(remotes[k], normalize), k)
    ensures var r := remotes[k];
            var balanced := r.managedKind == Some(SelfHostedLoadBalanced) || r.routingMode == Some("auto")
                            || (r.loadBalancedGroupId.Some? && r.loadBalancedGroupId.value != "")
                            || "mswarm-self-hosted-auto-" <= r.slug;
            var after := Sync(agents, kinds, RegisteredAll(remotes, (a: Agent) => SyncedSelfHostedSlug(a, normalize), SelfHostedKind));
            var i := FindSlug(after, SyncedSelfHostedSlug(r, normalize));
            i < |after| && IsEntryOf(after[i], r, if balanced then SelfHostedLoadBalanced else SelfHosted)
  {
    hide Sync, IsEntryOf, SyncedSelfHostedSlug;
    var slugFor := (a: Agent) => SyncedSelfHostedSlug(a, normalize);
    var nexts := RegisteredAll(remotes, slugFor, SelfHostedKind);
    LastIsRegistered(remotes, slugFor, SelfHostedKind, slugFor(remotes[k]), k);
    RemotesRegistered(agents, kinds, nexts, slugFor(remotes[k]));
  }

  // ----- synchronising again

  lemma {:induction false} NothingAppended(agents: seq<Agent>, nexts: seq<Agent>)
    requires SlugsOf(nexts) <= SlugsOf(agents)
    ensures |UpsertAll(agents, nexts)| == |agents|
  {
    if nexts != [] {
      var init, n := nexts[..|nexts| - 1], nexts[|nexts| - 1];
      assert nexts == init + [n];
      SlugsOfAppend(init, n);
      NothingAppended(agents, init);
      UpsertAllReconciles(agents, init);
      assert n.slug in SlugsOf(UpsertAll(agents, init));
    }
  }

  lemma {:induction false} SelectAll(agents: seq<Agent>, keep: Agent -> bool)
    requires forall a | a in agents :: keep(a)
    ensures Select(agents, keep) == agents
  {
    if agents != [] {
      SelectAll(agents[..|agents| - 1], keep);
    }
  }

  /** Synchronising the same remotes again changes nothing, even when slugs collide. */
  lemma SyncIsIdempotent(agents: seq<Agent>, kinds: set<Kind>, nexts: seq<Agent>)
    ensures Sync(Sync(agents, kinds, nexts), kinds, nexts) == Sync(agents, kinds, nexts)
  {
    var pruned := Prune(agents, kinds, SlugsOf(nexts));
    var once := UpsertAll(pruned, nexts);
    UpsertAllReconciles(pruned, nexts);
    forall a | a in once ensures OfKind(a, kinds) ==> a.slug in SlugsOf(nexts) {
      var i :| 0 <= i < |once| && once[i] == a;
      assert Placed(pruned, nexts, once, i);
      if a.slug !in SlugsOf(nexts) {
        assert pruned[i] == a;
        SelectHas(agents, (b: Agent) => OfKind(b, kinds) ==> b.slug in SlugsOf(nexts), a);
      }
    }
    SelectAll(once, (a: Agent) => OfKind(a, kinds) ==> a.slug in SlugsOf(nexts));
    var twice := UpsertAll(once, nexts);
    UpsertAllReconciles(once, nexts);
    NothingAppended(once, nexts);
    forall i | 0 <= i < |once| ensures twice[i] == once[i] {
      assert FirstAt(twice, i) == FirstAt(once, i);
      assert Placed(pruned, nexts, once, i) && Placed(once, nexts, twice, i);
    }
  }
}
