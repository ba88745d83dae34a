/**
 The configuration snapshot of one proxy: identity and addressing, the trust
 roots, and four topology blocks of which the one named by `kind` is
 meaningful. Go maps become `map`s (a nil map and an empty map are the same
 value here), Go maps to `struct{}` become `set`s, pointers that may be nil
 become `Option`s, and each `X` / `XSet` pair keeps both fields, because an
 empty answer and no answer yet are different states.
 */
module Snapshot {
  import opened Payloads
  import opened Gateway
  import opened Listeners

  /** Watch results shared by every topology that dials upstreams
      (connect proxies and ingress gateways). */
  datatype UpstreamsState = UpstreamsState(
    leaf: Option<IssuedCert>,
    meshConfig: Option<MeshConfigEntry>,
    meshConfigSet: bool,
    discoveryChain: map<UpstreamID, CompiledDiscoveryChain>,
    watchedDiscoveryChains: map<UpstreamID, CancelHandle>,
    watchedUpstreams: map<UpstreamID, map<string, CancelHandle>>,
    watchedUpstreamEndpoints: map<UpstreamID, map<string, CheckServiceNodes>>,
    watchedPeerTrustBundles: map<string, CancelHandle>,
    peerTrustBundles: map<string, PeeringTrustBundle>,
    watchedGateways: map<UpstreamID, map<string, CancelHandle>>,
    watchedGatewayEndpoints: map<UpstreamID, map<string, CheckServiceNodes>>,
    upstreamConfig: map<UpstreamID, Upstream>,
    passthroughUpstreams: map<UpstreamID, map<string, set<string>>>,
    passthroughIndices: map<string, IndexedTarget>,
    intentionUpstreams: set<UpstreamID>,
    peerUpstreamEndpoints: map<UpstreamID, CheckServiceNodes>,
    peerUpstreamEndpointsUseHostnames: set<UpstreamID>)

  datatype ConnectProxyState = ConnectProxyState(
    upstreams: UpstreamsState,
    peeringTrustBundlesSet: bool,
    peeringTrustBundles: seq<PeeringTrustBundle>,
    watchedServiceChecks: map<ServiceID, seq<CheckType>>,
    preparedQueryEndpoints: map<UpstreamID, CheckServiceNodes>,
    intentions: Intentions,
    intentionsSet: bool)

  /** Per linked service: one watch (and its handle) for instances,
      intentions, the leaf certificate, the service config and the resolver. */
  datatype TerminatingGatewayState = TerminatingGatewayState(
    meshConfig: Option<MeshConfigEntry>,
    meshConfigSet: bool,
    watchedServices: map<ServiceName, CancelHandle>,
    watchedIntentions: map<ServiceName, CancelHandle>,
    intentions: map<ServiceName, Intentions>,
    watchedLeaves: map<ServiceName, CancelHandle>,
    serviceLeaves: map<ServiceName, Option<IssuedCert>>,
    watchedConfigs: map<ServiceName, CancelHandle>,
    serviceConfigs: map<ServiceName, Option<ServiceConfigResponse>>,
    watchedResolvers: map<ServiceName, CancelHandle>,
    serviceResolvers: map<ServiceName, Option<ServiceResolverConfigEntry>>,
    serviceResolversSet: map<ServiceName, bool>,
    serviceGroups: map<ServiceName, CheckServiceNodes>,
    gatewayServices: map<ServiceName, GatewayService>,
    hostnameServices: map<ServiceName, CheckServiceNodes>)

  /** `gatewayGroups` is keyed by encoded gateway keys, `fedStateGateways`
      by datacenter name. */
  datatype MeshGatewayState = MeshGatewayState(
    watchedServices: map<ServiceName, CancelHandle>,
    watchedServicesSet: bool,
    watchedGateways: map<string, CancelHandle>,
    serviceGroups: map<ServiceName, CheckServiceNodes>,
    serviceResolvers: map<ServiceName, Option<ServiceResolverConfigEntry>>,
    gatewayGroups: map<string, CheckServiceNodes>,
    fedStateGateways: map<string, CheckServiceNodes>,
    consulServers: CheckServiceNodes,
    hostnameDatacenters: map<string, CheckServiceNodes>,
    exportedServicesSlice: seq<ServiceName>,
    exportedServicesWithPeers: map<ServiceName, seq<string>>,
    watchedExportedServices: map<string, seq<ServiceName>>,
    watchedExportedServicesSet: bool,
    discoveryChain: map<ServiceName, CompiledDiscoveryChain>,
    watchedDiscoveryChains: map<ServiceName, CancelHandle>)

  datatype IngressGatewayState = IngressGatewayState(
    upstreams: UpstreamsState,
    tlsConfig: GatewayTLSConfig,
    gatewayConfigLoaded: bool,
    hosts: seq<string>,
    hostsSet: bool,
    leafCertWatchCancel: Option<CancelHandle>,
    listenerUpstreams: map<IngressListenerKey, seq<Upstream>>,
    upstreamsSet: set<UpstreamID>,
    listeners: map<IngressListenerKey, IngressListener>)

  datatype ConfigSnapshot = ConfigSnapshot(
    kind: ServiceKind,
    service: string,
    proxyID: ProxyID,
    address: string,
    port: int,
    serviceMeta: map<string, string>,
    taggedAddresses: map<string, ServiceAddress>,
    proxy: ConnectProxyConfig,
    datacenter: string,
    intentionDefaultAllow: bool,
    locality: GatewayKey,
    roots: Option<IndexedCARoots>,
    connectProxy: ConnectProxyState,
    terminatingGateway: TerminatingGatewayState,
    meshGateway: MeshGatewayState,
    ingressGateway: IngressGatewayState)

  const ZeroUpstreams: UpstreamsState :=
    UpstreamsState(None, None, false, map[], map[], map[], map[], map[], map[], map[], map[],
                   map[], map[], map[], {}, map[], {})

  const ZeroConnectProxy: ConnectProxyState :=
    ConnectProxyState(ZeroUpstreams, false, [], map[], map[], [], false)

  const ZeroTerminatingGateway: TerminatingGatewayState :=
    TerminatingGatewayState(None, false, map[], map[], map[], map[], map[], map[], map[], map[],
                            map[], map[], map[], map[], map[])

  const ZeroMeshGateway: MeshGatewayState :=
    MeshGatewayState(map[], false, map[], map[], map[], map[], map[], [], map[], [], map[], map[],
                     false, map[], map[])

  const ZeroIngressGateway: IngressGatewayState :=
    IngressGatewayState(ZeroUpstreams, GatewayTLSConfig(false), false, [], false, None, map[], {}, map[])

  /** A freshly created snapshot of the given kind: every watch still unanswered. */
  function NewSnapshot(kind: ServiceKind, service: string, proxyID: ProxyID, proxy: ConnectProxyConfig,
                       serviceMeta: map<string, string>): (s: ConfigSnapshot)
    ensures WellFormed(s)
    ensures s.kind == kind && s.roots.None?
  {
    ConfigSnapshot(kind, service, proxyID, "", 0, serviceMeta, map[], proxy, "", false,
                   GatewayKey("", ""), None,
                   ZeroConnectProxy, ZeroTerminatingGateway, ZeroMeshGateway, ZeroIngressGateway)
  }

  /** Only the block selected by `kind` may hold state; the other three stay zero. */
  predicate WellFormed(s: ConfigSnapshot) {
    && (s.kind != ConnectProxy ==> s.connectProxy == ZeroConnectProxy)
    && (s.kind != TerminatingGateway ==> s.terminatingGateway == ZeroTerminatingGateway)
    && (s.kind != MeshGateway ==> s.meshGateway == ZeroMeshGateway)
    && (s.kind != IngressGateway ==> s.ingressGateway == ZeroIngressGateway)
  }
}
