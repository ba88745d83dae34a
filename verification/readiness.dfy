/**
 Readiness: whether a snapshot holds enough answered watches to drive
 config generation. `Valid` is the source's per-kind predicate; `Missing`
 lists the outstanding watches by name, an independent formulation the two
 are proved equivalent against.
 */
module Readiness {
  import opened Payloads
  import opened Snapshot
  import opened EmptyChecks

  /** Service-meta key marking a mesh gateway that carries WAN federation traffic. */
  const MetaWANFederationKey: string := "consul-wan-federation"

  /** A missing meta key reads as the empty string, which is not "1". */
  predicate IsWANFederationGateway(s: ConfigSnapshot) {
    MetaWANFederationKey in s.serviceMeta && s.serviceMeta[MetaWANFederationKey] == "1"
  }

  /** `ConfigSnapshot.Valid`. */
  predicate Valid(s: ConfigSnapshot)
    ensures Valid(s) ==> s.roots.Some?
    ensures Valid(s) ==> !s.kind.OtherKind?
  {
    match s.kind
    case ConnectProxy =>
      if s.proxy.mode == TransparentMode && !s.connectProxy.upstreams.meshConfigSet then false
      else
        && s.roots.Some?
        && s.connectProxy.upstreams.leaf.Some?
        && s.connectProxy.intentionsSet
        && s.connectProxy.upstreams.meshConfigSet
    case TerminatingGateway =>
      s.roots.Some? && s.terminatingGateway.meshConfigSet
    case MeshGateway =>
      if IsWANFederationGateway(s) && |s.meshGateway.consulServers| == 0 then false
      else
        && s.roots.Some?
        && (s.meshGateway.watchedServicesSet || |s.meshGateway.serviceGroups| > 0)
        && s.meshGateway.watchedExportedServicesSet
    case IngressGateway =>
      && s.roots.Some?
      && s.ingressGateway.upstreams.leaf.Some?
      && s.ingressGateway.gatewayConfigLoaded
      && s.ingressGateway.hostsSet
      && s.ingressGateway.upstreams.meshConfigSet
    case OtherKind(_) => false
  }

  /** What a snapshot can still be waiting for. */
  datatype Requirement =
    | CARoots
    | LeafCert
    | IntentionsAnswer
    | MeshConfigAnswer
    | ServicesAnswer
    | ExportedServicesAnswer
    | ConsulServers
    | GatewayConfig
    | HostsAnswer
    | KnownKind

  function When(b: bool, r: Requirement): set<Requirement> {
    if b then {r} else {}
  }

  /** The watches a snapshot of its kind still lacks. */
  function Missing(s: ConfigSnapshot): set<Requirement> {
    match s.kind
    case ConnectProxy =>
      When(s.roots.None?, CARoots)
      + When(s.connectProxy.upstreams.leaf.None?, LeafCert)
      + When(!s.connectProxy.intentionsSet, IntentionsAnswer)
      + When(!s.connectProxy.upstreams.meshConfigSet, MeshConfigAnswer)
    case TerminatingGateway =>
      When(s.roots.None?, CARoots)
      + When(!s.terminatingGateway.meshConfigSet, MeshConfigAnswer)
    case MeshGateway =>
      When(s.roots.None?, CARoots)
      + When(!s.meshGateway.watchedServicesSet && |s.meshGateway.serviceGroups| == 0, ServicesAnswer)
      + When(!s.meshGateway.watchedExportedServicesSet, ExportedServicesAnswer)
      + When(IsWANFederationGateway(s) && |s.meshGateway.consulServers| == 0, ConsulServers)
    case IngressGateway =>
      When(s.roots.None?, CARoots)
      + When(s.ingressGateway.upstreams.leaf.None?, LeafCert)
      + When(!s.ingressGateway.gatewayConfigLoaded, GatewayConfig)
      + When(!s.ingressGateway.hostsSet, HostsAnswer)
      + When(!s.ingressGateway.upstreams.meshConfigSet, MeshConfigAnswer)
    case OtherKind(_) => {KnownKind}
  }

  /** `a` and `b` agree on every field that `Valid` and `Missing` read. */
  predicate SameReadinessInputs(a: ConfigSnapshot, b: ConfigSnapshot) {
    && a.kind == b.kind
    && a.proxy.mode == b.proxy.mode
    && a.serviceMeta == b.serviceMeta
    && a.roots.Some? == b.roots.Some?
    && a.connectProxy.upstreams.leaf.Some? == b.connectProxy.upstreams.leaf.Some?
    && a.connectProxy.intentionsSet == b.connectProxy.intentionsSet
    && a.connectProxy.upstreams.meshConfigSet == b.connectProxy.upstreams.meshConfigSet
    && a.terminatingGateway.meshConfigSet == b.terminatingGateway.meshConfigSet
    && a.meshGateway.watchedServicesSet == b.meshGateway.watchedServicesSet
    && |a.meshGateway.serviceGroups| == |b.meshGateway.serviceGroups|
    && a.meshGateway.watchedExportedServicesSet == b.meshGateway.watchedExportedServicesSet
    && |a.meshGateway.consulServers| == |b.meshGateway.consulServers|
    && a.ingressGateway.upstreams.leaf.Some? == b.ingressGateway.upstreams.leaf.Some?
    && a.ingressGateway.gatewayConfigLoaded == b.ingressGateway.gatewayConfigLoaded
    && a.ingressGateway.hostsSet == b.ingressGateway.hostsSet
    && a.ingressGateway.upstreams.meshConfigSet == b.ingressGateway.upstreams.meshConfigSet
  }

  /** Readiness is decided by those fields alone. */
  lemma ReadinessDependsOnInputs(a: ConfigSnapshot, b: ConfigSnapshot)
    requires SameReadinessInputs(a, b)
    ensures Valid(a) == Valid(b)
    ensures Missing(a) == Missing(b)
  {
    ValidDependsOnInputs(a, b);
    MissingDependsOnInputs(a, b);
  }

  lemma ValidDependsOnInputs(a: ConfigSnapshot, b: ConfigSnapshot)
    requires SameReadinessInputs(a, b)
    ensures Valid(a) == Valid(b)
  {
    assert IsWANFederationGateway(a) == IsWANFederationGateway(b);
  }

  lemma MissingDependsOnInputs(a: ConfigSnapshot, b: ConfigSnapshot)
    requires SameReadinessInputs(a, b)
    ensures Missing(a) == Missing(b)
  {
    if a.kind == ConnectProxy { ConnectProxyMissingDependsOnInputs(a, b); }
    else if a.kind == TerminatingGateway { TerminatingGatewayMissingDependsOnInputs(a, b); }
    else if a.kind == MeshGateway { MeshGatewayMissingDependsOnInputs(a, b); }
    else if a.kind == IngressGateway { IngressGatewayMissingDependsOnInputs(a, b); }
    else { OtherKindMissingDependsOnInputs(a, b); }
  }

  lemma ConnectProxyMissingDependsOnInputs(a: ConfigSnapshot, b: ConfigSnapshot)
    requires SameReadinessInputs(a, b) && a.kind == ConnectProxy
    ensures Missing(a) == Missing(b)
  {
  }

  lemma TerminatingGatewayMissingDependsOnInputs(a: ConfigSnapshot, b: ConfigSnapshot)
    requires SameReadinessInputs(a, b) && a.kind == TerminatingGateway
    ensures Missing(a) == Missing(b)
  {
  }

  lemma MeshGatewayMissingDependsOnInputs(a: ConfigSnapshot, b: ConfigSnapshot)
    requires SameReadinessInputs(a, b) && a.kind == MeshGateway
    ensures Missing(a) == Missing(b)
  {
    assert IsWANFederationGateway(a) == IsWANFederationGateway(b);
  }

  lemma IngressGatewayMissingDependsOnInputs(a: ConfigSnapshot, b: ConfigSnapshot)
    requires SameReadinessInputs(a, b) && a.kind == IngressGateway
    ensures Missing(a) == Missing(b)
  {
  }

  lemma OtherKindMissingDependsOnInputs(a: ConfigSnapshot, b: ConfigSnapshot)
    requires SameReadinessInputs(a, b) && a.kind.OtherKind?
    ensures Missing(a) == Missing(b)
  {
  }

  /** A snapshot is valid exactly when it waits for nothing. */
  lemma ValidIffNothingMissing(s: ConfigSnapshot)
    ensures Valid(s) <==> Missing(s) == {}
  {
    match s.kind
    case ConnectProxy =>
      if !Valid(s) {
        assert s.roots.None? || s.connectProxy.upstreams.leaf.None? || !s.connectProxy.intentionsSet
               || !s.connectProxy.upstreams.meshConfigSet;
        if s.roots.None? { assert CARoots in Missing(s); }
        else if s.connectProxy.upstreams.leaf.None? { assert LeafCert in Missing(s); }
        else if !s.connectProxy.intentionsSet { assert IntentionsAnswer in Missing(s); }
        else { assert MeshConfigAnswer in Missing(s); }
      }
    case TerminatingGateway =>
      if s.roots.None? { assert CARoots in Missing(s); }
      else if !s.terminatingGateway.meshConfigSet { assert MeshConfigAnswer in Missing(s); }
    case MeshGateway =>
      if s.roots.None? { assert CARoots in Missing(s); }
      else if !s.meshGateway.watchedServicesSet && |s.meshGateway.serviceGroups| == 0 {
        assert ServicesAnswer in Missing(s);
      } else if !s.meshGateway.watchedExportedServicesSet {
        assert ExportedServicesAnswer in Missing(s);
      } else if IsWANFederationGateway(s) && |s.meshGateway.consulServers| == 0 {
        assert ConsulServers in Missing(s);
      }
    case IngressGateway =>
      if s.roots.None? { assert CARoots in Missing(s); }
      else if s.ingressGateway.upstreams.leaf.None? { assert LeafCert in Missing(s); }
      else if !s.ingressGateway.gatewayConfigLoaded { assert GatewayConfig in Missing(s); }
      else if !s.ingressGateway.hostsSet { assert HostsAnswer in Missing(s); }
      else if !s.ingressGateway.upstreams.meshConfigSet { assert MeshConfigAnswer in Missing(s); }
    case OtherKind(_) =>
      assert KnownKind in Missing(s);
  }

  /** The transparent-proxy early exit adds no condition of its own: a
      connect proxy's readiness does not depend on its proxy mode. */
  lemma ProxyModeIrrelevant(s: ConfigSnapshot, mode: ProxyMode)
    ensures Valid(s.(proxy := s.proxy.(mode := mode))) == Valid(s)
  {
  }

  /** Without trust roots no snapshot of any kind is valid. */
  lemma RootsRequired(s: ConfigSnapshot)
    requires s.roots.None?
    ensures !Valid(s)
    ensures CARoots in Missing(s) || s.kind.OtherKind?
  {
  }

  /** A freshly created snapshot is never valid, whatever its kind. */
  lemma NewSnapshotNotValid(kind: ServiceKind, service: string, proxyID: ProxyID,
                            proxy: ConnectProxyConfig, meta: map<string, string>)
    ensures !Valid(NewSnapshot(kind, service, proxyID, proxy, meta))
  {
  }

  /** A snapshot whose active block passes its `isEmpty` check is not valid. */
  lemma EmptyActiveBlockNotValid(s: ConfigSnapshot)
    requires
      || (s.kind == ConnectProxy && ConnectProxyIsEmpty(s.connectProxy))
      || (s.kind == TerminatingGateway && TerminatingGatewayIsEmpty(s.terminatingGateway))
      || (s.kind == MeshGateway && MeshGatewayIsEmpty(s.meshGateway))
      || (s.kind == IngressGateway && IngressGatewayIsEmpty(s.ingressGateway))
    ensures !Valid(s)
  {
  }

  /** A WAN-federation mesh gateway is never valid before it knows at least one server. */
  lemma FederationNeedsServers(s: ConfigSnapshot)
    requires s.kind == MeshGateway && IsWANFederationGateway(s)
    ensures Valid(s) ==> |s.meshGateway.consulServers| > 0
  {
  }

  /** `t` is `s` after further watch answers: same kind, proxy and meta, and
      every answer `s` had, `t` still has. */
  predicate Extends(s: ConfigSnapshot, t: ConfigSnapshot) {
    && t.kind == s.kind
    && t.proxy == s.proxy
    && t.serviceMeta == s.serviceMeta
    && (s.roots.Some? ==> t.roots.Some?)
    && (s.connectProxy.upstreams.leaf.Some? ==> t.connectProxy.upstreams.leaf.Some?)
    && (s.connectProxy.intentionsSet ==> t.connectProxy.intentionsSet)
    && (s.connectProxy.upstreams.meshConfigSet ==> t.connectProxy.upstreams.meshConfigSet)
    && (s.terminatingGateway.meshConfigSet ==> t.terminatingGateway.meshConfigSet)
    && (s.meshGateway.watchedServicesSet ==> t.meshGateway.watchedServicesSet)
    && s.meshGateway.serviceGroups.Keys <= t.meshGateway.serviceGroups.Keys
    && (s.meshGateway.watchedExportedServicesSet ==> t.meshGateway.watchedExportedServicesSet)
    && (|s.meshGateway.consulServers| > 0 ==> |t.meshGateway.consulServers| > 0)
    && (s.ingressGateway.upstreams.leaf.Some? ==> t.ingressGateway.upstreams.leaf.Some?)
    && (s.ingressGateway.gatewayConfigLoaded ==> t.ingressGateway.gatewayConfigLoaded)
    && (s.ingressGateway.hostsSet ==> t.ingressGateway.hostsSet)
    && (s.ingressGateway.upstreams.meshConfigSet ==> t.ingressGateway.upstreams.meshConfigSet)
  }

  /** Further answers never add to what a snapshot is waiting for, whether
      or not it is ready yet. */
  lemma MissingMonotone(s: ConfigSnapshot, t: ConfigSnapshot)
    requires Extends(s, t)
    ensures Missing(t) <= Missing(s)
  {
    if s.kind == MeshGateway && |s.meshGateway.serviceGroups| > 0 {
      assert s.meshGateway.serviceGroups.Keys != {} by {
        var k :| k in s.meshGateway.serviceGroups;
      }
      assert |t.meshGateway.serviceGroups.Keys| > 0;
    }
  }

  /** Readiness is monotone: further answers never make a valid snapshot invalid. */
  lemma ValidMonotone(s: ConfigSnapshot, t: ConfigSnapshot)
    requires Extends(s, t)
    requires Valid(s)
    ensures Valid(t)
    ensures Missing(t) <= Missing(s)
  {
    MissingMonotone(s, t);
    ValidIffNothingMissing(s);
    ValidIffNothingMissing(t);
  }

  /** A connect proxy becomes ready only once roots, leaf, intentions and mesh
      config have all been answered, in whatever order, and stays ready. */
  lemma ConnectProxyReadinessSequence(s0: ConfigSnapshot, roots: IndexedCARoots, leaf: IssuedCert,
                                      later: ConfigSnapshot)
    requires s0 == NewSnapshot(ConnectProxy, s0.service, s0.proxyID, s0.proxy, s0.serviceMeta)
    ensures !Valid(s0.(roots := Some(roots)))
    ensures !Valid(s0.(roots := Some(roots),
                       connectProxy := s0.connectProxy.(upstreams := s0.connectProxy.upstreams.(leaf := Some(leaf)))))
    ensures
      var ready := s0.(roots := Some(roots),
                       connectProxy := s0.connectProxy.(
                         upstreams := s0.connectProxy.upstreams.(leaf := Some(leaf), meshConfigSet := true),
                         intentionsSet := true));
      Valid(ready) && (Extends(ready, later) ==> Valid(later))
  {
    var ready := s0.(roots := Some(roots),
                     connectProxy := s0.connectProxy.(
                       upstreams := s0.connectProxy.upstreams.(leaf := Some(leaf), meshConfigSet := true),
                       intentionsSet := true));
    if Extends(ready, later) {
      ValidMonotone(ready, later);
    }
  }
}
