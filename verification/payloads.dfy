/**
 The values a snapshot stores but does not look into. Each external record
 (certificates, intentions, discovery chains, catalog entries, config
 entries) is reduced to the fields the snapshot's own operations read, plus
 an identifying field so that distinct payloads stay distinct. A Go pointer
 that may be nil is an `Option`.
 */
module Payloads {

  datatype Option<+T> = None | Some(value: T)

  /** A watch's cancellation capability (`context.CancelFunc`). Only its
      identity matters here; cancelling is the owner's business. */
  datatype CancelHandle = CancelHandle(watch: nat)

  /** An unsigned 64-bit Raft modify index. */
  newtype Uint64 = x: int | 0 <= x < 0x1_0000_0000_0000_0000

  datatype ServiceName = ServiceName(name: string, namespace: string, partition: string)

  datatype ServiceID = ServiceID(id: string, namespace: string, partition: string)

  /** Identifies one upstream; `peer` is non-empty for an upstream imported from a peered cluster. */
  datatype UpstreamID = UpstreamID(kind: string, name: string, datacenter: string, peer: string)

  datatype ProxyID = ProxyID(service: ServiceID, nodeName: string, token: string)

  datatype ServiceKind =
    | ConnectProxy
    | TerminatingGateway
    | MeshGateway
    | IngressGateway
    | OtherKind(name: string)

  datatype ProxyMode = DefaultMode | TransparentMode | DirectMode

  datatype ConnectProxyConfig = ConnectProxyConfig(destinationServiceName: string, mode: ProxyMode)

  datatype ServiceAddress = ServiceAddress(address: string, port: int)

  datatype IssuedCert = IssuedCert(serialNumber: string, certPEM: string)

  datatype CARoot = CARoot(id: string, rootCert: string)

  datatype IndexedCARoots = IndexedCARoots(activeRootID: string, roots: seq<CARoot>)

  datatype MeshDirectionalTLSConfig =
    MeshDirectionalTLSConfig(tlsMinVersion: string, tlsMaxVersion: string, cipherSuites: seq<string>)

  datatype MeshTLSConfig =
    MeshTLSConfig(incoming: Option<MeshDirectionalTLSConfig>, outgoing: Option<MeshDirectionalTLSConfig>)

  datatype MeshConfigEntry = MeshConfigEntry(tls: Option<MeshTLSConfig>)

  /** Replicated metadata about a service exported by a peer cluster. */
  datatype PeeringServiceMeta = PeeringServiceMeta(sni: seq<string>, spiffeID: seq<string>, protocol: string)

  const ZeroPeeringServiceMeta: PeeringServiceMeta := PeeringServiceMeta([], [], "")

  datatype ServiceConnect = ServiceConnect(native: bool, peerMeta: Option<PeeringServiceMeta>)

  datatype NodeService = NodeService(id: string, service: string, address: string, port: int, connect: ServiceConnect)

  /** One catalog entry of a health query; `service` may be nil in the source. */
  datatype CheckServiceNode = CheckServiceNode(node: string, service: Option<NodeService>)

  type CheckServiceNodes = seq<CheckServiceNode>

  datatype CheckType = CheckType(checkID: string)

  datatype Intention = Intention(id: string)

  type Intentions = seq<Intention>

  datatype CompiledDiscoveryChain = CompiledDiscoveryChain(serviceName: string, protocol: string)

  datatype PeeringTrustBundle = PeeringTrustBundle(peerName: string, rootPEMs: seq<string>)

  datatype Upstream = Upstream(destinationName: string, destinationPeer: string, localBindPort: int)

  datatype ServiceConfigResponse = ServiceConfigResponse(protocol: string)

  datatype ServiceResolverConfigEntry = ServiceResolverConfigEntry(name: string)

  datatype GatewayTLSConfig = GatewayTLSConfig(enabled: bool)

  /** A gateway-to-service association; an ingress gateway's entries carry the listener's protocol and port. */
  datatype GatewayService = GatewayService(gateway: ServiceName, service: ServiceName, protocol: string, port: int)

  /** One listener of an ingress-gateway config entry. */
  datatype IngressListener = IngressListener(port: int, protocol: string, services: seq<ServiceName>)

  /** Associates a passthrough address with the upstream target that produced it. */
  datatype IndexedTarget = IndexedTarget(upstreamID: UpstreamID, targetID: string, idx: Uint64)
}
