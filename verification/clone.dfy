/**
 `ConfigSnapshot.Clone`: a copy for another consumer with the watch
 cancellation handles of the active block removed, so that the receiver can
 never cancel the owner's watches. Snapshots are immutable values here, so
 the structural deep copy is the identity and cannot fail; what remains to
 model is which handles are removed.

 `Clone` follows the source exactly. It leaves the mesh gateway's
 discovery-chain watch handles in the copy; `CloneSealed` removes those as
 well. Both clones are proved to change nothing but handles and to keep
 readiness and the accessors' answers.
 */
module Cloning {
  import opened Payloads
  import opened Snapshot
  import opened Readiness

  predicate UpstreamsHoldNoHandles(u: UpstreamsState) {
    && |u.watchedUpstreams| == 0
    && |u.watchedGateways| == 0
    && |u.watchedDiscoveryChains| == 0
    && |u.watchedPeerTrustBundles| == 0
  }

  predicate TerminatingHoldsNoHandles(t: TerminatingGatewayState) {
    && |t.watchedServices| == 0
    && |t.watchedIntentions| == 0
    && |t.watchedLeaves| == 0
    && |t.watchedConfigs| == 0
    && |t.watchedResolvers| == 0
  }

  predicate MeshHoldsNoHandles(m: MeshGatewayState) {
    && |m.watchedServices| == 0
    && |m.watchedGateways| == 0
    && |m.watchedDiscoveryChains| == 0
  }

  predicate IngressHoldsNoHandles(i: IngressGatewayState) {
    UpstreamsHoldNoHandles(i.upstreams) && i.leafCertWatchCancel.None?
  }

  /** No cancellation handle is reachable through the block `kind` selects. */
  predicate ActiveHoldsNoHandles(s: ConfigSnapshot) {
    match s.kind
    case ConnectProxy => UpstreamsHoldNoHandles(s.connectProxy.upstreams)
    case TerminatingGateway => TerminatingHoldsNoHandles(s.terminatingGateway)
    case MeshGateway => MeshHoldsNoHandles(s.meshGateway)
    case IngressGateway => IngressHoldsNoHandles(s.ingressGateway)
    case OtherKind(_) => true
  }

  function EraseUpstreamHandles(u: UpstreamsState): (r: UpstreamsState)
    ensures UpstreamsHoldNoHandles(r)
  {
    u.(watchedUpstreams := map[], watchedGateways := map[],
       watchedDiscoveryChains := map[], watchedPeerTrustBundles := map[])
  }

  function EraseConnectProxyHandles(c: ConnectProxyState): ConnectProxyState {
    c.(upstreams := EraseUpstreamHandles(c.upstreams))
  }

  function EraseTerminatingHandles(t: TerminatingGatewayState): TerminatingGatewayState {
    t.(watchedServices := map[], watchedIntentions := map[], watchedLeaves := map[],
       watchedConfigs := map[], watchedResolvers := map[])
  }

  function EraseMeshHandles(m: MeshGatewayState): MeshGatewayState {
    m.(watchedServices := map[], watchedGateways := map[], watchedDiscoveryChains := map[])
  }

  function EraseIngressHandles(i: IngressGatewayState): IngressGatewayState {
    i.(upstreams := EraseUpstreamHandles(i.upstreams), leafCertWatchCancel := None)
  }

  /** `s` with every cancellation handle of every block removed: the state a
      clone must preserve. */
  function EraseAllHandles(s: ConfigSnapshot): ConfigSnapshot {
    s.(connectProxy := EraseConnectProxyHandles(s.connectProxy),
       terminatingGateway := EraseTerminatingHandles(s.terminatingGateway),
       meshGateway := EraseMeshHandles(s.meshGateway),
       ingressGateway := EraseIngressHandles(s.ingressGateway))
  }

  /** The blocks `kind` does not select are the same in `s` and `r`. */
  predicate InactiveBlocksUnchanged(s: ConfigSnapshot, r: ConfigSnapshot) {
    && (s.kind != ConnectProxy ==> r.connectProxy == s.connectProxy)
    && (s.kind != TerminatingGateway ==> r.terminatingGateway == s.terminatingGateway)
    && (s.kind != MeshGateway ==> r.meshGateway == s.meshGateway)
    && (s.kind != IngressGateway ==> r.ingressGateway == s.ingressGateway)
  }

  /** `ConfigSnapshot.Clone`, as written. */
  function Clone(s: ConfigSnapshot): (r: ConfigSnapshot)
    ensures r.kind == s.kind && InactiveBlocksUnchanged(s, r)
    ensures s.kind == ConnectProxy ==> UpstreamsHoldNoHandles(r.connectProxy.upstreams)
    ensures s.kind == TerminatingGateway ==> TerminatingHoldsNoHandles(r.terminatingGateway)
    ensures s.kind == MeshGateway ==>
              && |r.meshGateway.watchedServices| == 0
              && |r.meshGateway.watchedGateways| == 0
              && r.meshGateway.watchedDiscoveryChains == s.meshGateway.watchedDiscoveryChains
    ensures s.kind == IngressGateway ==> IngressHoldsNoHandles(r.ingressGateway)
  {
    match s.kind
    case ConnectProxy => s.(connectProxy := EraseConnectProxyHandles(s.connectProxy))
    case TerminatingGateway => s.(terminatingGateway := EraseTerminatingHandles(s.terminatingGateway))
    case MeshGateway => s.(meshGateway := s.meshGateway.(watchedGateways := map[], watchedServices := map[]))
    case IngressGateway => s.(ingressGateway := EraseIngressHandles(s.ingressGateway))
    case OtherKind(_) => s
  }

  /** The clone as written changes nothing but cancellation handles. */
  lemma CloneChangesOnlyHandles(s: ConfigSnapshot)
    ensures EraseAllHandles(Clone(s)) == EraseAllHandles(s)
  {
    match s.kind
    case ConnectProxy => CloneConnectProxyChangesOnlyHandles(s);
    case TerminatingGateway => CloneTerminatingChangesOnlyHandles(s);
    case MeshGateway => CloneMeshChangesOnlyHandles(s);
    case IngressGateway => CloneIngressChangesOnlyHandles(s);
    case OtherKind(_) =>
  }

  lemma CloneConnectProxyChangesOnlyHandles(s: ConfigSnapshot)
    requires s.kind == ConnectProxy
    ensures EraseAllHandles(Clone(s)) == EraseAllHandles(s)
  {
    var r := Clone(s);
    assert EraseConnectProxyHandles(r.connectProxy) == EraseConnectProxyHandles(s.connectProxy);
    EraseAllHandlesCongruent(r, s);
  }

  lemma CloneTerminatingChangesOnlyHandles(s: ConfigSnapshot)
    requires s.kind == TerminatingGateway
    ensures EraseAllHandles(Clone(s)) == EraseAllHandles(s)
  {
    var r := Clone(s);
    assert EraseTerminatingHandles(r.terminatingGateway) == EraseTerminatingHandles(s.terminatingGateway);
    EraseAllHandlesCongruent(r, s);
  }

  lemma CloneMeshChangesOnlyHandles(s: ConfigSnapshot)
    requires s.kind == MeshGateway
    ensures EraseAllHandles(Clone(s)) == EraseAllHandles(s)
  {
    var r := Clone(s);
    assert EraseMeshHandles(r.meshGateway) == EraseMeshHandles(s.meshGateway);
    EraseAllHandlesCongruent(r, s);
  }

  lemma CloneIngressChangesOnlyHandles(s: ConfigSnapshot)
    requires s.kind == IngressGateway
    ensures EraseAllHandles(Clone(s)) == EraseAllHandles(s)
  {
    var r := Clone(s);
    assert EraseIngressHandles(r.ingressGateway) == EraseIngressHandles(s.ingressGateway);
    EraseAllHandlesCongruent(r, s);
  }

  /** Two snapshots that differ at most in their blocks' handles erase alike. */
  lemma EraseAllHandlesCongruent(r: ConfigSnapshot, s: ConfigSnapshot)
    requires r.(connectProxy := s.connectProxy, terminatingGateway := s.terminatingGateway,
                meshGateway := s.meshGateway, ingressGateway := s.ingressGateway) == s
    requires EraseConnectProxyHandles(r.connectProxy) == EraseConnectProxyHandles(s.connectProxy)
    requires EraseTerminatingHandles(r.terminatingGateway) == EraseTerminatingHandles(s.terminatingGateway)
    requires EraseMeshHandles(r.meshGateway) == EraseMeshHandles(s.meshGateway)
    requires EraseIngressHandles(r.ingressGateway) == EraseIngressHandles(s.ingressGateway)
    ensures EraseAllHandles(r) == EraseAllHandles(s)
  {
  }

  /** The clone as written leaves a mesh gateway's discovery-chain watch
      handles usable by the receiver. */
  lemma CloneLeaksMeshChainHandles(s: ConfigSnapshot)
    requires s.kind == MeshGateway && |s.meshGateway.watchedDiscoveryChains| > 0
    ensures !ActiveHoldsNoHandles(Clone(s))
  {
  }

  /** Cloning the source's clone changes nothing. */
  lemma CloneIdempotent(s: ConfigSnapshot)
    ensures Clone(Clone(s)) == Clone(s)
  {
  }

  /** The source's clone is exactly as ready as its original and keeps the
      block invariant. */
  lemma ClonePreservesReadiness(s: ConfigSnapshot)
    ensures Valid(Clone(s)) == Valid(s)
    ensures Missing(Clone(s)) == Missing(s)
    ensures WellFormed(s) ==> WellFormed(Clone(s))
  {
    CloneKeepsReadinessInputs(s);
    ReadinessDependsOnInputs(Clone(s), s);
    CloneKeepsWellFormed(s);
  }

  lemma CloneKeepsReadinessInputs(s: ConfigSnapshot)
    ensures SameReadinessInputs(Clone(s), s)
  {
    CloneChangesOnlyHandles(s);
    EraseKeepsReadinessInputs(s);
    EraseKeepsReadinessInputs(Clone(s));
  }

  /** Readiness never looks at a cancellation handle. */
  lemma EraseKeepsReadinessInputs(s: ConfigSnapshot)
    ensures SameReadinessInputs(EraseAllHandles(s), s)
  {
  }

  lemma CloneKeepsWellFormed(s: ConfigSnapshot)
    ensures WellFormed(s) ==> WellFormed(Clone(s))
  {
  }

  /** The clone with every handle of the active block removed. */
  function CloneSealed(s: ConfigSnapshot): (r: ConfigSnapshot)
    ensures r.kind == s.kind && InactiveBlocksUnchanged(s, r)
    ensures ActiveHoldsNoHandles(r)
  {
    match s.kind
    case MeshGateway => s.(meshGateway := EraseMeshHandles(s.meshGateway))
    case _ => Clone(s)
  }

  /** The corrected clone, too, changes nothing but cancellation handles. */
  lemma CloneSealedChangesOnlyHandles(s: ConfigSnapshot)
    ensures EraseAllHandles(CloneSealed(s)) == EraseAllHandles(s)
  {
    CloneChangesOnlyHandles(s);
  }

  /** The corrected clone differs from the source's only in the mesh
      gateway's discovery-chain handles. */
  lemma CloneSealedAgreesWithClone(s: ConfigSnapshot)
    ensures s.kind != MeshGateway ==> CloneSealed(s) == Clone(s)
    ensures CloneSealed(s) == Clone(s).(meshGateway := Clone(s).meshGateway.(
              watchedDiscoveryChains := CloneSealed(s).meshGateway.watchedDiscoveryChains))
  {
  }

  /** The clone removes handles and nothing else: a snapshot whose active
      block already holds none is its own clone. */
  lemma CloneSealedFixesHandleFree(s: ConfigSnapshot)
    ensures CloneSealed(s) == s <==> ActiveHoldsNoHandles(s)
  {
    if ActiveHoldsNoHandles(s) {
      match s.kind
      case ConnectProxy => UpstreamsErasureFixesHandleFree(s.connectProxy.upstreams);
      case TerminatingGateway => TerminatingErasureFixesHandleFree(s.terminatingGateway);
      case MeshGateway => MeshErasureFixesHandleFree(s.meshGateway);
      case IngressGateway => UpstreamsErasureFixesHandleFree(s.ingressGateway.upstreams);
      case OtherKind(_) =>
    }
  }

  lemma UpstreamsErasureFixesHandleFree(u: UpstreamsState)
    ensures EraseUpstreamHandles(u) == u <==> UpstreamsHoldNoHandles(u)
  {
    if UpstreamsHoldNoHandles(u) {
      assert u.watchedUpstreams == map[] && u.watchedGateways == map[];
      assert u.watchedDiscoveryChains == map[] && u.watchedPeerTrustBundles == map[];
    }
  }

  lemma TerminatingErasureFixesHandleFree(t: TerminatingGatewayState)
    ensures EraseTerminatingHandles(t) == t <==> TerminatingHoldsNoHandles(t)
  {
    if TerminatingHoldsNoHandles(t) {
      assert t.watchedServices == map[] && t.watchedIntentions == map[] && t.watchedLeaves == map[];
      assert t.watchedConfigs == map[] && t.watchedResolvers == map[];
    }
  }

  lemma MeshErasureFixesHandleFree(m: MeshGatewayState)
    ensures EraseMeshHandles(m) == m <==> MeshHoldsNoHandles(m)
  {
    if MeshHoldsNoHandles(m) {
      assert m.watchedServices == map[] && m.watchedGateways == map[] && m.watchedDiscoveryChains == map[];
    }
  }

  /** Cloning a clone changes nothing. */
  lemma CloneSealedIdempotent(s: ConfigSnapshot)
    ensures CloneSealed(CloneSealed(s)) == CloneSealed(s)
  {
    CloneSealedFixesHandleFree(CloneSealed(s));
  }

  /** A clone is exactly as ready as its original and keeps the block invariant. */
  lemma CloneSealedPreservesReadiness(s: ConfigSnapshot)
    ensures Valid(CloneSealed(s)) == Valid(s)
    ensures Missing(CloneSealed(s)) == Missing(s)
    ensures WellFormed(s) ==> WellFormed(CloneSealed(s))
  {
    CloneSealedKeepsReadinessInputs(s);
    ReadinessDependsOnInputs(CloneSealed(s), s);
    CloneSealedKeepsWellFormed(s);
  }

  lemma CloneSealedKeepsReadinessInputs(s: ConfigSnapshot)
    ensures SameReadinessInputs(CloneSealed(s), s)
  {
    if s.kind == MeshGateway {
      assert CloneSealed(s) == s.(meshGateway := EraseMeshHandles(s.meshGateway));
    } else {
      assert CloneSealed(s) == Clone(s);
      CloneKeepsReadinessInputs(s);
    }
  }

  lemma CloneSealedKeepsWellFormed(s: ConfigSnapshot)
    ensures WellFormed(s) ==> WellFormed(CloneSealed(s))
  {
  }
}
