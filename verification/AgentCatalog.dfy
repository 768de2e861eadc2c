/**
 Catalog entries of agents, and the local slug under which a remote self-hosted agent
 is registered. The normalisation of a slug part is a given function on strings.
 */
module AgentCatalog {
  import opened Prelude

  datatype Kind = Cloud | SelfHosted | SelfHostedLoadBalanced | Worker

  /** `details` stands for the fields that are carried along unread. */
  datatype Agent = Agent(
    slug: string,
    remoteSlug: Option<string>,
    source: string,
    synced: bool,
    managedKind: Option<Kind>,
    routingMode: Option<string>,
    loadBalancedGroupId: Option<string>,
    nodeId: Option<string>,
    serverName: Option<string>,
    serverId: Option<string>,
    details: string)

  const SELF_HOSTED_PREFIX := "mswarm-self-hosted-"
  const SELF_HOSTED_AUTO_PREFIX := "mswarm-self-hosted-auto-"

  predicate Truthy(text: Option<string>) {
    text.Some? && text.value != ""
  }

  predicate IsSelfHosted(a: Agent) {
    || a.source == "self_hosted_catalog"
    || a.managedKind == Some(SelfHosted)
    || a.managedKind == Some(SelfHostedLoadBalanced)
    || SELF_HOSTED_PREFIX <= a.slug
    || Truthy(a.nodeId) || Truthy(a.serverName) || Truthy(a.serverId)
  }

  predicate IsLoadBalanced(a: Agent) {
    || a.managedKind == Some(SelfHostedLoadBalanced)
    || a.routingMode == Some("auto")
    || Truthy(a.loadBalancedGroupId)
    || SELF_HOSTED_AUTO_PREFIX <= a.slug
  }

  /** The slug a remote agent gets in the local registry; a slug that is local already is kept. */
  function SyncedSelfHostedSlug(a: Agent, normalize: string -> string): (slug: string)
    ensures "mswarm-self-hosted-" <= slug
    ensures "mswarm-self-hosted-" <= a.slug ==> slug == a.slug
    ensures !("mswarm-self-hosted-" <= a.slug) && IsLoadBalanced(a) ==> "mswarm-self-hosted-auto-" <= slug
    ensures slug != "mswarm-self-hosted-" || a.slug == "mswarm-self-hosted-"
  {
    if SELF_HOSTED_PREFIX <= a.slug then a.slug
    else
      var remote := a.remoteSlug.GetOr(a.slug);
      var part := normalize(remote);
      (if IsLoadBalanced(a) then SELF_HOSTED_AUTO_PREFIX else SELF_HOSTED_PREFIX)
      + (if part == "" then "agent" else part)
  }

  /** What is appended to the prefix: the normalised remote slug, or "agent" if nothing is left of it. */
  lemma SyncedSlugEnds(a: Agent, normalize: string -> string, slug: string)
    requires slug == SyncedSelfHostedSlug(a, normalize) && !("mswarm-self-hosted-" <= a.slug)
    ensures var part := normalize(match a.remoteSlug case Some(remote) => remote case None => a.slug);
            var balanced := a.managedKind == Some(SelfHostedLoadBalanced) || a.routingMode == Some("auto")
                            || (a.loadBalancedGroupId.Some? && a.loadBalancedGroupId.value != "");
            slug == (if balanced then "mswarm-self-hosted-auto-" else "mswarm-self-hosted-")
                    + if part == "" then "agent" else part
  {
    assert "mswarm-self-hosted-auto-"[..19] == "mswarm-self-hosted-";
  }

  /** Synchronising a registered agent again finds it under the same slug. */
  lemma SyncedSlugIsStable(a: Agent, b: Agent, normalize: string -> string)
    requires b.slug == SyncedSelfHostedSlug(a, normalize)
    ensures SyncedSelfHostedSlug(b, normalize) == b.slug
    ensures IsSelfHosted(b)
  {
  }
}
