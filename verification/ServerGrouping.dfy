/**
 The self-hosted agents grouped by server: each combined agent lands in exactly one group,
 and each group's header summarises its members.
 */
module ServerGrouping {
  import opened Prelude
  import opened AgentCatalog

  /** What one agent says about the server it runs on. */
  datatype ServerInfo = ServerInfo(
    id: string,
    caption: string,
    status: Option<string>,
    statusReason: Option<string>,
    clientIdentity: Option<string>,
    clientAllowlist: Option<seq<string>>,
    clientAllowlistCount: Option<int>,
    lifecycle: Option<string>)

  datatype Server = Server(info: ServerInfo, agents: seq<Agent>, agentCount: nat)

  // ----- merging headers, as the grouping loop does

  function Else<T>(current: Option<T>, next: Option<T>): Option<T> {
    if current.Some? then current else next
  }

  function MergeServerStatus(current: Option<string>, next: Option<string>): Option<string> {
    if current == Some("healthy") || next == Some("healthy") then Some("healthy")
    else if current == Some("degraded") || next == Some("degraded") then Some("degraded")
    else Else(current, next)
  }

  predicate NonEmpty(list: Option<seq<string>>) {
    list.Some? && list.value != []
  }

  function MergeInfo(existing: ServerInfo, next: ServerInfo): ServerInfo {
    existing.(
      status := MergeServerStatus(existing.status, next.status),
      statusReason := Else(existing.statusReason, next.statusReason),
      clientIdentity := Else(existing.clientIdentity, next.clientIdentity),
      clientAllowlist := if NonEmpty(existing.clientAllowlist) then existing.clientAllowlist else next.clientAllowlist,
      clientAllowlistCount := Else(existing.clientAllowlistCount, next.clientAllowlistCount),
      lifecycle := Else(existing.lifecycle, next.lifecycle))
  }

  // ----- what a group's header is to say, from all its members at once

  ghost predicate IsFirstSome<T>(values: seq<Option<T>>, r: Option<T>) {
    if r.None? then forall i | 0 <= i < |values| :: values[i].None?
    else exists i :: 0 <= i < |values| && values[i] == r && forall j | 0 <= j < i :: values[j].None?
  }

  /** Healthy if a member is, else degraded if a member is, else the first status there is. */
  ghost predicate IsGroupStatus(values: seq<Option<string>>, r: Option<string>) {
    if Some("healthy") in values then r == Some("healthy")
    else if Some("degraded") in values then r == Some("degraded")
    else IsFirstSome(values, r)
  }

  /** The first list with entries, else the last member's. */
  ghost predicate IsGroupAllowlist(values: seq<Option<seq<string>>>, r: Option<seq<string>>) {
    if exists i :: 0 <= i < |values| && NonEmpty(values[i])
    then exists i :: 0 <= i < |values| && NonEmpty(values[i]) && values[i] == r
                     && forall j | 0 <= j < i :: !NonEmpty(values[j])
    else |values| > 0 && r == values[|values| - 1]
  }

  function Column<T>(infos: seq<ServerInfo>, field: ServerInfo -> T): seq<T> {
    seq(|infos|, i requires 0 <= i < |infos| => field(infos[i]))
  }

  ghost predicate Summarises(infos: seq<ServerInfo>, r: ServerInfo) {
    && |infos| > 0
    && r.id == infos[0].id && r.caption == infos[0].caption
    && IsGroupStatus(Column(infos, (s: ServerInfo) => s.status), r.status)
    && IsFirstSome(Column(infos, (s: ServerInfo) => s.statusReason), r.statusReason)
    && IsFirstSome(Column(infos, (s: ServerInfo) => s.clientIdentity), r.clientIdentity)
    && IsGroupAllowlist(Column(infos, (s: ServerInfo) => s.clientAllowlist), r.clientAllowlist)
    && IsFirstSome(Column(infos, (s: ServerInfo) => s.clientAllowlistCount), r.clientAllowlistCount)
    && IsFirstSome(Column(infos, (s: ServerInfo) => s.lifecycle), r.lifecycle)
  }

  lemma FirstSomeExtends<T>(values: seq<Option<T>>, more: seq<Option<T>>, r: Option<T>, next: Option<T>)
    requires IsFirstSome(values, r) && more == values + [next]
    ensures IsFirstSome(more, Else(r, next))
  {
    if r.Some? {
      var i :| 0 <= i < |values| && values[i] == r && forall j | 0 <= j < i :: values[j].None?;
      assert more[i] == r && forall j | 0 <= j < i :: more[j] == values[j];
    } else {
      assert more[|values|] == next;
    }
  }

  lemma StatusExtends(values: seq<Option<string>>, more: seq<Option<string>>, r: Option<string>, next: Option<string>)
    requires IsGroupStatus(values, r) && more == values + [next]
    ensures IsGroupStatus(more, MergeServerStatus(r, next))
  {
    assert forall v :: v in more <==> v in values || v == next;
    if Some("healthy") !in values && Some("degraded") !in values {
      FirstSomeExtends(values, more, r, next);
    }
  }

  lemma AllowlistExtends(values: seq<Option<seq<string>>>, more: seq<Option<seq<string>>>,
                         r: Option<seq<string>>, next: Option<seq<string>>)
    requires IsGroupAllowlist(values, r) && more == values + [next]
    ensures IsGroupAllowlist(more, if NonEmpty(r) then r else next)
  {
    assert forall i | 0 <= i < |values| :: more[i] == values[i];
    assert more[|values|] == next;
    if i :| 0 <= i < |values| && NonEmpty(values[i]) {
      var f :| 0 <= f < |values| && NonEmpty(values[f]) && values[f] == r && forall j | 0 <= j < f :: !NonEmpty(values[j]);
      assert NonEmpty(more[f]) && forall j | 0 <= j < f :: !NonEmpty(more[j]);
    } else {
      assert forall i | 0 <= i < |values| :: !NonEmpty(more[i]);
    }
  }

  lemma FirstSomeOfOne<T>(values: seq<Option<T>>, v: Option<T>)
    requires values == [v]
    ensures IsFirstSome(values, v)
  {
    assert values[0] == v;
  }

  /** The loop's way of merging one more member keeps the header right. */
  lemma SummaryExtends(infos: seq<ServerInfo>, r: ServerInfo, next: ServerInfo)
    requires Summarises(infos, r)
    ensures Summarises(infos + [next], MergeInfo(r, next))
  {
    hide IsFirstSome, IsGroupStatus, IsGroupAllowlist, MergeServerStatus, Else, NonEmpty;
    var more := infos + [next];
    StatusExtends(Column(infos, (s: ServerInfo) => s.status), Column(more, (s: ServerInfo) => s.status), r.status, next.status);
    FirstSomeExtends(Column(infos, (s: ServerInfo) => s.statusReason), Column(more, (s: ServerInfo) => s.statusReason), r.statusReason, next.statusReason);
    FirstSomeExtends(Column(infos, (s: ServerInfo) => s.clientIdentity), Column(more, (s: ServerInfo) => s.clientIdentity), r.clientIdentity, next.clientIdentity);
    FirstSomeExtends(Column(infos, (s: ServerInfo) => s.clientAllowlistCount), Column(more, (s: ServerInfo) => s.clientAllowlistCount), r.clientAllowlistCount, next.clientAllowlistCount);
    FirstSomeExtends(Column(infos, (s: ServerInfo) => s.lifecycle), Column(more, (s: ServerInfo) => s.lifecycle), r.lifecycle, next.lifecycle);
    AllowlistExtends(Column(infos, (s: ServerInfo) => s.clientAllowlist), Column(more, (s: ServerInfo) => s.clientAllowlist), r.clientAllowlist, next.clientAllowlist);
  }

  lemma SummaryOfOne(info: ServerInfo)
    ensures Summarises([info], info)
  {
    FirstSomeOfOne(Column([info], (s: ServerInfo) => s.status), info.status);
    FirstSomeOfOne(Column([info], (s: ServerInfo) => s.statusReason), info.statusReason);
    FirstSomeOfOne(Column([info], (s: ServerInfo) => s.clientIdentity), info.clientIdentity);
    FirstSomeOfOne(Column([info], (s: ServerInfo) => s.clientAllowlistCount), info.clientAllowlistCount);
    FirstSomeOfOne(Column([info], (s: ServerInfo) => s.lifecycle), info.lifecycle);
    assert Column([info], (s: ServerInfo) => s.clientAllowlist) == [info.clientAllowlist];
  }

  // ----- the combined agents

  type Normalize = string -> string
  type MergeEntries = (Agent, Agent) -> Agent
  type Resolve = Agent -> ServerInfo

  /** The remote a local slug belongs to: the last, as a map from slugs would keep it. */
  function RemoteFor(remotes: seq<Agent>, slug: string, normalize: Normalize): Option<Agent> {
    if remotes == [] then None
    else
      var last := remotes[|remotes| - 1];
      if SyncedSelfHostedSlug(last, normalize) == slug then Some(last)
      else RemoteFor(remotes[..|remotes| - 1], slug, normalize)
  }

  function Merged(a: Agent, remotes: seq<Agent>, normalize: Normalize, merge: MergeEntries): Agent {
    match RemoteFor(remotes, a.slug, normalize)
    case None => a
    case Some(remote) => merge(a, remote)
  }

  function LocalOptions(locals: seq<Agent>, remotes: seq<Agent>, normalize: Normalize, merge: MergeEntries): seq<Agent> {
    if locals == [] then []
    else
      var last := locals[|locals| - 1];
      LocalOptions(locals[..|locals| - 1], remotes, normalize, merge)
      + if IsSelfHosted(last) then [Merged(last, remotes, normalize, merge)] else []
  }

  predicate IsRegistered(locals: seq<Agent>, remote: Agent, normalize: Normalize) {
    exists a | a in locals :: a.slug == SyncedSelfHostedSlug(remote, normalize)
  }

  function RemoteOptions(locals: seq<Agent>, remotes: seq<Agent>, normalize: Normalize): seq<Agent> {
    if remotes == [] then []
    else
      var last := remotes[|remotes| - 1];
      RemoteOptions(locals, remotes[..|remotes| - 1], normalize)
      + if IsRegistered(locals, last, normalize) then [] else [last.(synced := false)]
  }

  function Combined(locals: seq<Agent>, remotes: seq<Agent>, normalize: Normalize, merge: MergeEntries): seq<Agent> {
    LocalOptions(locals, remotes, normalize, merge) + RemoteOptions(locals, remotes, normalize)
  }

  ghost predicate KeepsLocalSlug(merge: MergeEntries) {
    forall a, b :: merge(a, b).slug == a.slug
  }

  lemma {:induction false} LocalListed(locals: seq<Agent>, remotes: seq<Agent>, normalize: Normalize, merge: MergeEntries, a: Agent)
    requires a in locals && IsSelfHosted(a)
    ensures Merged(a, remotes, normalize, merge) in LocalOptions(locals, remotes, normalize, merge)
  {
    var init := locals[..|locals| - 1];
    if a in init {
      LocalListed(init, remotes, normalize, merge, a);
    } else {
      assert a == locals[|locals| - 1];
    }
  }

  lemma {:induction false} RemoteListed(locals: seq<Agent>, remotes: seq<Agent>, normalize: Normalize, remote: Agent)
    requires remote in remotes && !IsRegistered(locals, remote, normalize)
    ensures remote.(synced := false) in RemoteOptions(locals, remotes, normalize)
  {
    var init := remotes[..|remotes| - 1];
    if remote in init {
      RemoteListed(locals, init, normalize, remote);
    } else {
      assert remote == remotes[|remotes| - 1];
    }
  }

  /** No remote is lost: it is listed itself, or under its local slug. A local entry that hides
      a remote is always self-hosted, because the slug alone makes it so. */
  lemma NoRemoteLost(locals: seq<Agent>, remotes: seq<Agent>, normalize: Normalize, merge: MergeEntries, remote: Agent)
    requires remote in remotes && KeepsLocalSlug(merge)
    ensures if IsRegistered(locals, remote, normalize)
            then exists a | a in Combined(locals, remotes, normalize, merge) ::
                   a.slug == SyncedSelfHostedSlug(remote, normalize)
            else remote.(synced := false) in Combined(locals, remotes, normalize, merge)
  {
    if IsRegistered(locals, remote, normalize) {
      var a :| a in locals && a.slug == SyncedSelfHostedSlug(remote, normalize);
      LocalListed(locals, remotes, normalize, merge, a);
      assert Merged(a, remotes, normalize, merge).slug == a.slug;
    } else {
      RemoteListed(locals, remotes, normalize, remote);
    }
  }

  lemma {:induction false} RemoteIsLast(remotes: seq<Agent>, slug: string, normalize: Normalize)
    ensures var found := RemoteFor(remotes, slug, normalize);
            if found.None? then forall r | r in remotes :: SyncedSelfHostedSlug(r, normalize) != slug
            else exists k :: IsLastFor(remotes, slug, normalize, found.value, k)
  {
    hide SyncedSelfHostedSlug;
    if remotes != [] {
      var init, last := remotes[..|remotes| - 1], remotes[|remotes| - 1];
      RemoteIsLast(init, slug, normalize);
      assert remotes == init + [last];
      if SyncedSelfHostedSlug(last, normalize) == slug {
        assert IsLastFor(remotes, slug, normalize, last, |init|);
      } else if RemoteFor(remotes, slug, normalize).Some? {
        var remote := RemoteFor(remotes, slug, normalize).value;
        var k :| IsLastFor(init, slug, normalize, remote, k);
        assert IsLastFor(remotes, slug, normalize, remote, k);
      }
    }
  }

  /** The remote at place `k` is the last one with a local slug. */
  ghost predicate IsLastFor(remotes: seq<Agent>, slug: string, normalize: Normalize, remote: Agent, k: nat) {
    && k < |remotes| && remotes[k] == remote && SyncedSelfHostedSlug(remote, normalize) == slug
    && forall j | k < j < |remotes| :: SyncedSelfHostedSlug(remotes[j], normalize) != slug
  }

  /** A self-hosted local entry as it is listed: merged with the last remote with its slug, if there is one. */
  ghost predicate IsListedAs(local: Agent, remotes: seq<Agent>, normalize: Normalize, merge: MergeEntries, a: Agent) {
    if forall r | r in remotes :: SyncedSelfHostedSlug(r, normalize) != local.slug then a == local
    else exists k, remote :: IsLastFor(remotes, local.slug, normalize, remote, k) && a == merge(local, remote)
  }

  lemma LastForUnique(remotes: seq<Agent>, slug: string, normalize: Normalize, r: Agent, k: nat, s: Agent, l: nat)
    requires IsLastFor(remotes, slug, normalize, r, k) && IsLastFor(remotes, slug, normalize, s, l)
    ensures k == l && r == s
  {
    hide SyncedSelfHostedSlug;
  }

  lemma MergedIff(local: Agent, remotes: seq<Agent>, normalize: Normalize, merge: MergeEntries, a: Agent)
    ensures IsListedAs(local, remotes, normalize, merge, a) <==> a == Merged(local, remotes, normalize, merge)
  {
    hide SyncedSelfHostedSlug;
    RemoteIsLast(remotes, local.slug, normalize);
    match RemoteFor(remotes, local.slug, normalize) {
      case None =>
      case Some(remote) =>
        var k :| IsLastFor(remotes, local.slug, normalize, remote, k);
        assert remote in remotes;
        forall l, other | IsLastFor(remotes, local.slug, normalize, other, l) ensures other == remote {
          LastForUnique(remotes, local.slug, normalize, remote, k, other, l);
        }
    }
  }

  lemma {:induction false} LocalsListed(locals: seq<Agent>, remotes: seq<Agent>, normalize: Normalize, merge: MergeEntries, a: Agent)
    ensures a in LocalOptions(locals, remotes, normalize, merge) <==>
              exists local | local in locals :: IsSelfHosted(local) && IsListedAs(local, remotes, normalize, merge, a)
  {
    hide IsSelfHosted, IsListedAs, Merged;
    if locals != [] {
      var init, last := locals[..|locals| - 1], locals[|locals| - 1];
      LocalsListed(init, remotes, normalize, merge, a);
      MergedIff(last, remotes, normalize, merge, a);
      assert forall local :: local in locals <==> local in init || local == last;
    }
  }

  lemma {:induction false} RemotesListed(locals: seq<Agent>, remotes: seq<Agent>, normalize: Normalize, a: Agent)
    ensures a in RemoteOptions(locals, remotes, normalize) <==>
              exists r | r in remotes :: !IsRegistered(locals, r, normalize) && a == r.(synced := false)
  {
    hide IsRegistered;
    if remotes != [] {
      var init, last := remotes[..|remotes| - 1], remotes[|remotes| - 1];
      RemotesListed(locals, init, normalize, a);
      assert forall r :: r in remotes <==> r in init || r == last;
    }
  }

  /** What is combined: the self-hosted local entries, each merged with the last remote with its slug, and the
      remotes whose local slug no local entry has, as not synchronised. Nothing else. */
  lemma CombinedIff(locals: seq<Agent>, remotes: seq<Agent>, normalize: Normalize, merge: MergeEntries, a: Agent)
    ensures a in Combined(locals, remotes, normalize, merge) <==>
              || (exists local | local in locals :: IsSelfHosted(local) && IsListedAs(local, remotes, normalize, merge, a))
              || exists r | r in remotes :: && (forall local | local in locals :: local.slug != SyncedSelfHostedSlug(r, normalize))
                                            && a == r.(synced := false)
  {
    hide IsSelfHosted, IsListedAs, SyncedSelfHostedSlug;
    LocalsListed(locals, remotes, normalize, merge, a);
    RemotesListed(locals, remotes, normalize, a);
  }

  // ----- groups

  function Members(combined: seq<Agent>, resolve: Resolve, id: string): seq<Agent> {
    if combined == [] then []
    else
      var last := combined[|combined| - 1];
      Members(combined[..|combined| - 1], resolve, id) + if resolve(last).id == id then [last] else []
  }

  function Infos(agents: seq<Agent>, resolve: Resolve): seq<ServerInfo> {
    seq(|agents|, i requires 0 <= i < |agents| => resolve(agents[i]))
  }

  ghost predicate IsGroup(combined: seq<Agent>, resolve: Resolve, id: string, server: Server) {
    && server.info.id == id
    && server.agents == Members(combined, resolve, id)
    && server.agentCount == |server.agents|
    && Summarises(Infos(server.agents, resolve), server.info)
  }

  ghost predicate DistinctIds(ids: seq<string>) {
    forall i, j | 0 <= i < j < |ids| :: ids[i] != ids[j]
  }

  ghost predicate Grouped(combined: seq<Agent>, resolve: Resolve, order: seq<string>, servers: map<string, Server>) {
    && DistinctIds(order)
    && (forall id :: id in order <==> id in servers)
    && (forall id | id in servers :: IsGroup(combined, resolve, id, servers[id]))
    && (forall a | a in combined :: resolve(a).id in servers)
  }

  lemma GroupGrows(combined: seq<Agent>, resolve: Resolve, a: Agent, server: Server)
    requires IsGroup(combined, resolve, resolve(a).id, server)
    ensures IsGroup(combined + [a], resolve, resolve(a).id,
                    Server(MergeInfo(server.info, resolve(a)), server.agents + [a], |server.agents + [a]|))
  {
    hide Summarises;
    assert (combined + [a])[..|combined|] == combined;
    SummaryExtends(Infos(server.agents, resolve), server.info, resolve(a));
    assert Infos(server.agents + [a], resolve) == Infos(server.agents, resolve) + [resolve(a)];
  }

  lemma GroupStays(combined: seq<Agent>, resolve: Resolve, a: Agent, id: string, server: Server)
    requires IsGroup(combined, resolve, id, server) && resolve(a).id != id
    ensures IsGroup(combined + [a], resolve, id, server)
  {
    assert (combined + [a])[..|combined|] == combined;
    assert server.agents + [] == server.agents;
  }

  lemma {:induction false} NoMembers(combined: seq<Agent>, resolve: Resolve, id: string)
    requires forall a | a in combined :: resolve(a).id != id
    ensures Members(combined, resolve, id) == []
  {
    if combined != [] {
      NoMembers(combined[..|combined| - 1], resolve, id);
    }
  }

  lemma GroupStarts(combined: seq<Agent>, resolve: Resolve, a: Agent)
    requires forall b | b in combined :: resolve(b).id != resolve(a).id
    ensures IsGroup(combined + [a], resolve, resolve(a).id, Server(resolve(a), [a], 1))
  {
    hide Summarises;
    NoMembers(combined, resolve, resolve(a).id);
    assert (combined + [a])[..|combined|] == combined;
    SummaryOfOne(resolve(a));
    assert Infos([a], resolve) == [resolve(a)];
  }

  /** The grouping loop: a map of servers, updated one agent at a time, in order of first mention. */
  method GroupByServer(combined: seq<Agent>, resolve: Resolve)
    returns (order: seq<string>, servers: map<string, Server>)
    ensures Grouped(combined, resolve, order, servers)
  {
    hide IsGroup, MergeInfo;
    order, servers := [], map[];
    for i := 0 to |combined|
      invariant Grouped(combined[..i], resolve, order, servers)
    {
      var a := combined[i];
      var info := resolve(a);
      ghost var seen := combined[..i];
      assert combined[..i + 1] == seen + [a];
      forall id | id in servers && id != info.id ensures IsGroup(seen + [a], resolve, id, servers[id]) {
        GroupStays(seen, resolve, a, id, servers[id]);
      }
      if info.id in servers {
        GroupGrows(seen, resolve, a, servers[info.id]);
        var existing := servers[info.id];
        var agents := existing.agents + [a];
        servers := servers[info.id := Server(MergeInfo(existing.info, info), agents, |agents|)];
      } else {
        GroupStarts(seen, resolve, a);
        servers := servers[info.id := Server(info, [a], 1)];
        order := order + [info.id];
      }
    }
    assert combined[..|combined|] == combined;
  }

  // ----- sorting by a given total preorder

  type Order<!T> = (T, T) -> bool

  ghost predicate TotalPreorder<T(!new)>(leq: Order<T>) {
    && (forall a, b :: leq(a, b) || leq(b, a))
    && (forall a, b, c :: leq(a, b) && leq(b, c) ==> leq(a, c))
  }

  ghost predicate Sorted<T>(s: seq<T>, leq: Order<T>) {
    forall i, j | 0 <= i < j < |s| :: leq(s[i], s[j])
  }

  function Insert<T>(s: seq<T>, x: T, leq: Order<T>): (r: seq<T>)
    ensures multiset(r) == multiset(s) + multiset{x}
  {
    if s == [] || leq(x, s[0]) then [x] + s
    else
      assert s == [s[0]] + s[1..];
      [s[0]] + Insert(s[1..], x, leq)
  }

  /** The library's stable `sort`. */
  function Sort<T>(s: seq<T>, leq: Order<T>): (r: seq<T>)
    ensures multiset(r) == multiset(s)
  {
    if s == [] then []
    else
      assert s == [s[0]] + s[1..];
      Insert(Sort(s[1..], leq), s[0], leq)
  }

  lemma {:induction false} InsertSorts<T(!new)>(s: seq<T>, x: T, leq: Order<T>)
    requires TotalPreorder(leq) && Sorted(s, leq)
    ensures Sorted(Insert(s, x, leq), leq)
  {
    if s != [] && !leq(x, s[0]) {
      var rest := Insert(s[1..], x, leq);
      InsertSorts(s[1..], x, leq);
      forall j | 0 <= j < |rest| ensures leq(s[0], rest[j]) {
        assert rest[j] in multiset(rest);
        assert rest[j] == x || rest[j] in s[1..];
      }
    }
  }

  lemma {:induction false} SortSorts<T(!new)>(s: seq<T>, leq: Order<T>)
    requires TotalPreorder(leq)
    ensures Sorted(Sort(s, leq), leq)
  {
    if s != [] {
      SortSorts(s[1..], leq);
      InsertSorts(Sort(s[1..], leq), s[0], leq);
    }
  }

  // ----- the whole list of servers

  predicate SameAgents(a: seq<Agent>, b: seq<Agent>) {
    multiset(a) == multiset(b)
  }

  /** One entry of the result: all the agents of one server, in order, under a true header. */
  ghost predicate IsOption(combined: seq<Agent>, resolve: Resolve, before: Order<Agent>, server: Server) {
    var members := Members(combined, resolve, server.info.id);
    && SameAgents(server.agents, members)
    && Sorted(server.agents, before)
    && server.agentCount == |server.agents|
    && Summarises(Infos(members, resolve), server.info)
  }

  ghost predicate DistinctServers(servers: seq<Server>) {
    forall i, j | 0 <= i < j < |servers| :: servers[i].info.id != servers[j].info.id
  }

  ghost predicate Listed(servers: seq<Server>, id: string) {
    exists s | s in servers :: s.info.id == id
  }

  ghost predicate IsPartition(combined: seq<Agent>, resolve: Resolve, before: Order<Agent>, servers: seq<Server>) {
    && DistinctServers(servers)
    && (forall s | s in servers :: IsOption(combined, resolve, before, s))
    && (forall a | a in combined :: Listed(servers, resolve(a).id))
  }

  lemma OptionFromGroup(combined: seq<Agent>, resolve: Resolve, before: Order<Agent>, id: string, server: Server)
    requires TotalPreorder(before) && IsGroup(combined, resolve, id, server)
    ensures IsOption(combined, resolve, before, server.(agents := Sort(server.agents, before)))
  {
    SortSorts(server.agents, before);
    assert |multiset(server.agents)| == |multiset(Sort(server.agents, before))|;
  }

  lemma OccursOnce(s: seq<Server>, k: nat)
    requires k < |s| && DistinctServers(s)
    ensures multiset(s)[s[k]] == 1
  {
    assert s == s[..k] + [s[k]] + s[k + 1..];
    assert s[k] !in s[..k] && s[k] !in s[k + 1..];
  }

  lemma OccursTwice(t: seq<Server>, i: nat, j: nat)
    requires i < j < |t| && t[i] == t[j]
    ensures multiset(t)[t[i]] >= 2
  {
    assert t == t[..j] + t[j..];
    assert t[i] in t[..j] && t[j..][0] == t[i];
  }

  lemma PermutedDistinct(s: seq<Server>, t: seq<Server>)
    requires multiset(s) == multiset(t) && DistinctServers(s)
    ensures DistinctServers(t)
  {
    forall i, j | 0 <= i < j < |t| ensures t[i].info.id != t[j].info.id {
      assert t[i] in multiset(s) && t[j] in multiset(s);
      var k :| 0 <= k < |s| && s[k] == t[i];
      var l :| 0 <= l < |s| && s[l] == t[j];
      OccursOnce(s, k);
      if t[i] == t[j] {
        OccursTwice(t, i, j);
      }
    }
  }

  lemma PermutedPartition(combined: seq<Agent>, resolve: Resolve, before: Order<Agent>, s: seq<Server>, t: seq<Server>)
    requires multiset(s) == multiset(t) && IsPartition(combined, resolve, before, s)
    ensures IsPartition(combined, resolve, before, t)
  {
    hide IsOption, DistinctServers;
    PermutedDistinct(s, t);
    assert forall x :: x in s <==> x in multiset(s);
    assert forall x :: x in t <==> x in multiset(t);
  }

  method BuildSelfHostedServerOptions(locals: seq<Agent>, remotes: seq<Agent>, normalize: Normalize,
                                      merge: MergeEntries, resolve: Resolve,
                                      agentOrder: Order<Agent>, captionOrder: Order<Server>)
    returns (options: seq<Server>)
    requires TotalPreorder(agentOrder) && TotalPreorder(captionOrder)
    ensures IsPartition(Combined(locals, remotes, normalize, merge), resolve, agentOrder, options)
    ensures Sorted(options, captionOrder)
  {
    hide IsGroup, IsPartition, TotalPreorder, Combined;
    var combined := Combined(locals, remotes, normalize, merge);
    var order, servers := GroupByServer(combined, resolve);
    assert forall i | 0 <= i < |order| :: order[i] in servers;
    var list := seq(|order|, i requires 0 <= i < |order| =>
      servers[order[i]].(agents := Sort(servers[order[i]].agents, agentOrder)));
    options := Sort(list, captionOrder);
    SortSorts(list, captionOrder);
    ListIsPartition(combined, resolve, agentOrder, order, servers, list);
    PermutedPartition(combined, resolve, agentOrder, list, options);
  }

  lemma ListIsPartition(combined: seq<Agent>, resolve: Resolve, before: Order<Agent>,
                        order: seq<string>, servers: map<string, Server>, list: seq<Server>)
    requires TotalPreorder(before) && Grouped(combined, resolve, order, servers)
    requires |list| == |order| && forall i | 0 <= i < |order| ::
               order[i] in servers && list[i] == servers[order[i]].(agents := Sort(servers[order[i]].agents, before))
    ensures IsPartition(combined, resolve, before, list)
  {
    hide IsOption, TotalPreorder, Summarises;
    assert forall i | 0 <= i < |order| :: IsGroup(combined, resolve, order[i], servers[order[i]]);
    forall s | s in list ensures IsOption(combined, resolve, before, s) {
      var i :| 0 <= i < |list| && list[i] == s;
      OptionFromGroup(combined, resolve, before, order[i], servers[order[i]]);
    }
    forall a | a in combined ensures Listed(list, resolve(a).id) {
      var i :| 0 <= i < |order| && order[i] == resolve(a).id;
      assert list[i] in list && list[i].info.id == order[i];
    }
  }

  // ----- conservation

  function Gathered(servers: seq<Server>): multiset<Agent> {
    if servers == [] then multiset{}
    else Gathered(servers[..|servers| - 1]) + multiset(servers[|servers| - 1].agents)
  }

  function CountSum(servers: seq<Server>): nat {
    if servers == [] then 0
    else CountSum(servers[..|servers| - 1]) + servers[|servers| - 1].agentCount
  }

  /** The members of every listed server, taken together. */
  function Total(servers: seq<Server>, combined: seq<Agent>, resolve: Resolve): multiset<Agent> {
    if servers == [] then multiset{}
    else
      Total(servers[..|servers| - 1], combined, resolve)
      + multiset(Members(combined, resolve, servers[|servers| - 1].info.id))
  }

  lemma {:induction false} TotalStep(servers: seq<Server>, combined: seq<Agent>, resolve: Resolve, a: Agent)
    requires DistinctServers(servers)
    ensures Total(servers, combined + [a], resolve)
            == Total(servers, combined, resolve) + if Listed(servers, resolve(a).id) then multiset{a} else multiset{}
  {
    if servers != [] {
      var init, last := servers[..|servers| - 1], servers[|servers| - 1];
      TotalStep(init, combined, resolve, a);
      assert (combined + [a])[..|combined|] == combined;
      assert servers == init + [last];
      assert Listed(servers, resolve(a).id) <==> Listed(init, resolve(a).id) || last.info.id == resolve(a).id;
    }
  }

  lemma {:induction false} TotalIsAll(servers: seq<Server>, combined: seq<Agent>, resolve: Resolve)
    requires DistinctServers(servers) && forall a | a in combined :: Listed(servers, resolve(a).id)
    ensures Total(servers, combined, resolve) == multiset(combined)
  {
    if combined == [] {
      TotalOfNone(servers, resolve);
    } else {
      var init, last := combined[..|combined| - 1], combined[|combined| - 1];
      assert combined == init + [last];
      TotalIsAll(servers, init, resolve);
      TotalStep(servers, init, resolve, last);
    }
  }

  lemma {:induction false} TotalOfNone(servers: seq<Server>, resolve: Resolve)
    ensures Total(servers, [], resolve) == multiset{}
  {
    if servers != [] {
      TotalOfNone(servers[..|servers| - 1], resolve);
    }
  }

  lemma {:induction false} GatheredIsTotal(servers: seq<Server>, combined: seq<Agent>, resolve: Resolve)
    requires forall s | s in servers ::
               SameAgents(s.agents, Members(combined, resolve, s.info.id)) && s.agentCount == |s.agents|
    ensures Gathered(servers) == Total(servers, combined, resolve)
    ensures CountSum(servers) == |Gathered(servers)|
  {
    if servers != [] {
      GatheredIsTotal(servers[..|servers| - 1], combined, resolve);
    }
  }

  /** Every combined agent is in the list exactly as often as it was combined, in no server but
      its own, and the counts add up. */
  lemma NothingLostInGroups(combined: seq<Agent>, resolve: Resolve, before: Order<Agent>, servers: seq<Server>)
    requires IsPartition(combined, resolve, before, servers)
    ensures Gathered(servers) == multiset(combined)
    ensures CountSum(servers) == |combined|
    ensures forall s, a | s in servers && a in s.agents :: resolve(a).id == s.info.id
  {
    hide Summarises, Sorted;
    TotalIsAll(servers, combined, resolve);
    GatheredIsTotal(servers, combined, resolve);
    forall s, a | s in servers && a in s.agents ensures resolve(a).id == s.info.id {
      assert a in multiset(s.agents);
      MembersBelong(combined, resolve, s.info.id, a);
    }
  }

  lemma {:induction false} MembersBelong(combined: seq<Agent>, resolve: Resolve, id: string, a: Agent)
    ensures a in Members(combined, resolve, id) <==> a in combined && resolve(a).id == id
  {
    if combined != [] {
      MembersBelong(combined[..|combined| - 1], resolve, id, a);
      assert combined == combined[..|combined| - 1] + [combined[|combined| - 1]];
    }
  }
}
