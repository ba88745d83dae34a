# Proxy configuration snapshot

A Dafny model of the Consul agent's proxy configuration snapshot
(`agent/proxycfg/snapshot.go`). The snapshot is the point-in-time state that
the proxy configuration manager builds for one connect proxy, terminating
gateway, mesh gateway or ingress gateway. It holds the answers to the
manager's watches and the cancellation handles of those watches. The model
covers:

- **Gateway keys.** The (datacenter, partition) key, its `partition.datacenter`
  encoding (the partition is left out when it is the default one), the
  permissive decoder, `IsEmpty`, `Matches`, and the order used to sort keys
  (`gateway_key.dfy`, `key_sort.dfy`).
- **Snapshot shape.** The snapshot and its four topology blocks, all present,
  with a `kind` tag that selects the active one (`snapshot.dfy`, `payloads.dfy`).
- **isEmpty helpers.** The per-block emptiness helpers (`empty_checks.dfy`).
- **Readiness.** `Valid`, with an independent list of missing answers proved
  equivalent to it (`readiness.dfy`).
- **Clone.** `Clone`, which removes the active block's watch cancellation
  handles, except the mesh gateway's discovery-chain handles (see
  "## Findings"); `CloneSealed` removes those too (`clone.dfy`).
- **Accessors.** `Leaf`, `MeshConfig`, the two TLS accessors and `RootPEMs`
  (`accessors.dfy`).
- **Terminating gateway.** `ValidServices`, the per-service readiness filter
  (`terminating.dfy`).
- **Mesh gateway.** `IsServiceExported` and `GatewayKeys` (`mesh_keys.dfy`).
- **Peering.** `UpstreamPeerMeta` and `PeeredUpstreamIDs` (`peering.dfy`).
- **Ingress listener keys.** The constructors and `RouteName` (`listeners.dfy`).

Go's map iteration order is unspecified. It is modelled by nondeterministic
choice (`:|`) in the methods that iterate maps. Their contracts therefore hold
for every visiting order. Go `nil` maps and empty maps are both the empty
`map`. A map to `struct{}` is a `set`. A nullable pointer is an `Option`. A
cancel function is an opaque `CancelHandle`.

Two helpers from other packages are part of the behaviour. Neither package's
source is part of this model, so their behaviour is an assumption:

- From `acl`: the model assumes the partition rules of a build with admin
  partitions, without case folding. The default partition is named
  `"default"`. A partition is the default one when its name is `""` or
  `"default"`. Two partitions are equal when they are equal after `""` is read
  as `"default"` (`partitions.dfy`).
- From `lib`: `EnsureTrailingNewline` leaves `""` alone and otherwise appends
  `"\n"` unless the text already ends in one (`strings.dfy`).

## Model

| member | source | states |
|---|---|---|
| Gateway.KeyString | agent/proxycfg/snapshot.go:103-109 | A key in the default partition (either spelling) encodes as its bare datacenter; any other key encodes as its partition, a dot, then its datacenter |
| Gateway.KeyFromString | agent/proxycfg/snapshot.go:119-126 | A string without a dot decodes to that datacenter in the default partition; otherwise the partition is the dot-free text before the first dot and the datacenter is the rest |
| Gateway.DecodeEncode | agent/proxycfg/snapshot.go:103-126 | Decoding an encoded key gives back the key (with the default partition spelled canonically) and the result `Matches` the original, when the partition has no dot and a default-partition datacenter has none either |
| Gateway.DecodeEncodeDottedDatacenter | agent/proxycfg/snapshot.go:103-126 | The round trip fails without that condition: datacenter "east.one" in the default partition decodes as datacenter "one" in partition "east" |
| Gateway.DecodeBareDatacenter | agent/proxycfg/snapshot.go:119-126 | A dot-free string decodes to the default partition and re-encodes to itself |
| Gateway.EncodeDecode | agent/proxycfg/snapshot.go:103-126 | Re-encoding a decoded string gives the string back if and only if the string is canonical: it has no dot, or its text before the first dot is not a default partition name |
| Gateway.DecodeIsEmpty | agent/proxycfg/snapshot.go:111-126 | A decoded key is empty if and only if the string was a lone "." |
| Gateway.MatchesDefaultAlias | agent/proxycfg/snapshot.go:115-117 | `Matches` treats partition "" and "default" alike, and matching "" means same datacenter and a default partition |
| Gateway.IsEmpty | agent/proxycfg/snapshot.go:111-113 | The empty key encodes as "" and matches the empty datacenter name in the default partition; decoding its encoding gives the default partition spelled out |
| Gateway.Matches | agent/proxycfg/snapshot.go:115-117 | A key matches (dc, p) exactly when dc is its datacenter and p names its partition up to the default alias |
| Gateway.KeyLessStrictTotal | agent/proxycfg/snapshot.go:386-391 | The comparator (datacenter, then partition) is irreflexive, asymmetric, transitive and total on keys |
| KeySort.Sort | agent/proxycfg/snapshot.go:386-391 | Sorting yields a sequence ordered by the comparator that is a permutation of its input |
| KeySort.SortedUnique | agent/proxycfg/snapshot.go:384-391 | Two sorted permutations of the same keys are equal, so sorting makes the output independent of the input order |
| EmptyChecks.ConnectProxyIsEmpty | agent/proxycfg/snapshot.go:145-168 | The zero block is empty, and an empty block has no leaf, no intentions answer and no mesh config answer |
| EmptyChecks.TerminatingGatewayIsEmpty | agent/proxycfg/snapshot.go:273-291 | The zero block is empty, and an empty block has no mesh config answer and no linked services |
| EmptyChecks.MeshGatewayIsEmptyPeering | agent/proxycfg/snapshot.go:413-424 | The zero block passes, and a block that passes has no exported-services answer and exports nothing |
| EmptyChecks.MeshGatewayIsEmpty | agent/proxycfg/snapshot.go:396-410 | The zero block is empty, and an empty block has no services answer, no service groups, no exported-services answer, no gateway groups and no federation state |
| EmptyChecks.IngressGatewayIsEmpty | agent/proxycfg/snapshot.go:459-469 | The zero block is empty, and an empty block has no mesh config answer and no listener upstreams |
| EmptyChecks.ConnectProxyZeroIsEmpty | agent/proxycfg/snapshot.go:145-168 | The zero connect-proxy block passes `isEmpty`; a block with intentions answered does not |
| EmptyChecks.TerminatingZeroIsEmpty | agent/proxycfg/snapshot.go:273-291 | The zero terminating-gateway block passes `isEmpty`; a block with linked services does not |
| EmptyChecks.MeshGatewayEmptyIsZero | agent/proxycfg/snapshot.go:396-424 | The mesh-gateway `isEmpty` (with `isEmptyPeering`) holds if and only if the block is the zero block |
| EmptyChecks.IngressZeroIsEmpty | agent/proxycfg/snapshot.go:459-469 | The zero ingress block passes `isEmpty` and still passes with a leaf certificate, loaded gateway config and hosts, which the helper does not inspect |
| TerminatingServices.ValidServices | agent/proxycfg/snapshot.go:241-270 | In any visiting order, the result lists each linked service exactly once and exactly when its resolver answer, a non-nil leaf, its intentions and its service config are all present |
| TerminatingServices.AnyMissingAnswerExcludes | agent/proxycfg/snapshot.go:245-264 | Removing any one of the four answers, or nil-ing the leaf, makes a service not ready |
| TerminatingServices.ResolverAnswerAdmits | agent/proxycfg/snapshot.go:245-248 | The resolver answer counts by presence, so a recorded `false` admits the service as well as `true` |
| TerminatingServices.ReadinessIsPerService | agent/proxycfg/snapshot.go:241-270 | Changing one service's leaf or resolver answer leaves every other service's readiness unchanged |
| MeshGatewayKeys.IsServiceExported | agent/proxycfg/snapshot.go:356-363 | A service is exported exactly when it is a key of the exported-services-with-peers map; the empty-map early return changes nothing |
| MeshGatewayKeys.CollectDecoded | agent/proxycfg/snapshot.go:374-382 | One collection loop yields, in any visiting order, the multiset of decoded keys whose datacenter is not suppressed |
| MeshGatewayKeys.GatewayKeys | agent/proxycfg/snapshot.go:365-393 | The result is sorted, is a permutation of every federation-state key plus every gateway-group key whose datacenter has no federation state, and contains a key exactly when it is so listed |
| MeshGatewayKeys.ExpectedKeysMembers | agent/proxycfg/snapshot.go:374-382 | A key is in the expected multiset if and only if some federation-state entry decodes to it, or some gateway-group entry decodes to it and its datacenter has no federation state |
| MeshGatewayKeys.GatewayKeysDeterministic | agent/proxycfg/snapshot.go:384-392 | Any two results for the same state are equal, whatever order the maps are visited in |
| MeshGatewayKeys.GatewayKeysStrictlySorted | agent/proxycfg/snapshot.go:365-393 | With dot-free federation-state keys and canonical gateway-group keys, the result is strictly sorted and so free of duplicates |
| MeshGatewayKeys.FederationStateHidesPartitions | agent/proxycfg/snapshot.go:377-382 | Federation state for dc1 hides the groups "dc1" and "p1.dc1": with a group for dc2 as well, the expected keys are dc1 and dc2 in the default partition, and a result is exactly [dc1, dc2] |
| Listeners.RouteName | agent/proxycfg/snapshot.go:476-478 | The route name is a decimal numeral in `%d` spelling (no leading zero, no "-0") that parses back to the port, negative exactly when the port is |
| Listeners.RouteNameUnique | agent/proxycfg/snapshot.go:476-478 | Any numeral in `%d` spelling that parses to the port is the route name, so the spelling is fully determined |
| Listeners.RouteNameInjective | agent/proxycfg/snapshot.go:476-478 | Two listener keys share a route name if and only if they share a port |
| Listeners.KeyFromGatewayService | agent/proxycfg/snapshot.go:480-482 | The key carries the gateway service's protocol, and its route name reads back as the service's port |
| Listeners.KeyFromListener | agent/proxycfg/snapshot.go:484-486 | The key carries the listener's protocol, and its route name reads back as the listener's port |
| Listeners.ListenerKeysAgree | agent/proxycfg/snapshot.go:480-486 | A gateway service and a listener map to the same key if and only if they agree on protocol and port |
| Readiness.Valid | agent/proxycfg/snapshot.go:521-555 | A valid snapshot has roots and is one of the four known kinds |
| Readiness.ReadinessDependsOnInputs | agent/proxycfg/snapshot.go:521-555 | Two snapshots that agree on kind, proxy mode, service meta, roots presence and the per-kind answers the source checks are equally valid and lack the same answers |
| Readiness.ValidIffNothingMissing | agent/proxycfg/snapshot.go:521-555 | `Valid` holds if and only if the independently stated set of outstanding watch answers for the snapshot's kind is empty |
| Readiness.ProxyModeIrrelevant | agent/proxycfg/snapshot.go:523-529 | The transparent-mode early return adds no condition: validity does not depend on the proxy mode |
| Readiness.RootsRequired | agent/proxycfg/snapshot.go:521-555 | Without CA roots no snapshot is valid, and for every known kind the roots are listed as missing |
| Readiness.NewSnapshotNotValid | agent/proxycfg/snapshot.go:521-555 | A snapshot with no answers yet is not valid, whatever its kind |
| Readiness.EmptyActiveBlockNotValid | agent/proxycfg/snapshot.go:521-555 | A snapshot whose active block passes its `isEmpty` helper is not valid |
| Readiness.FederationNeedsServers | agent/proxycfg/snapshot.go:536-541 | A mesh gateway whose service meta marks it for WAN federation is valid only with at least one Consul server |
| Readiness.MissingMonotone | agent/proxycfg/snapshot.go:521-555 | Further watch answers never add to the missing answers, whether or not the snapshot is ready yet |
| Readiness.ValidMonotone | agent/proxycfg/snapshot.go:521-555 | Further watch answers never make a valid snapshot invalid |
| Readiness.ConnectProxyReadinessSequence | agent/proxycfg/snapshot.go:522-529 | A new connect proxy is not valid with roots alone, nor with roots and leaf, is valid once intentions and mesh config arrive too, and stays valid |
| Cloning.Clone | agent/proxycfg/snapshot.go:559-595 | The clone as written keeps the kind and the inactive blocks; it removes the active block's handles, except that a mesh gateway keeps its discovery-chain watch handles |
| Cloning.CloneChangesOnlyHandles | agent/proxycfg/snapshot.go:559-595 | Erasing all handles from the clone and from the original gives the same snapshot: the clone changes nothing but handles |
| Cloning.CloneIdempotent | agent/proxycfg/snapshot.go:559-595 | Cloning the source's clone again changes nothing |
| Cloning.ClonePreservesReadiness | agent/proxycfg/snapshot.go:559-595 | The source's clone is valid exactly when the original is, lacks the same answers, and keeps the block well-formedness invariant |
| Cloning.CloneLeaksMeshChainHandles | agent/proxycfg/snapshot.go:581-583 | A mesh-gateway clone still holds cancellation handles when the original watched any discovery chain |
| Cloning.CloneSealed | agent/proxycfg/snapshot.go:559-595 | The corrected clone keeps the kind and the inactive blocks, and the active block holds no cancellation handle |
| Cloning.CloneSealedChangesOnlyHandles | agent/proxycfg/snapshot.go:559-595 | The corrected clone changes nothing but handles |
| Cloning.CloneSealedAgreesWithClone | agent/proxycfg/snapshot.go:559-595 | The corrected clone equals the source's clone except for the mesh gateway's discovery-chain handles |
| Cloning.CloneSealedFixesHandleFree | agent/proxycfg/snapshot.go:559-595 | A snapshot is its own clone if and only if its active block holds no handles |
| Cloning.CloneSealedIdempotent | agent/proxycfg/snapshot.go:559-595 | Cloning the corrected clone again changes nothing |
| Cloning.CloneSealedPreservesReadiness | agent/proxycfg/snapshot.go:559-595 | The corrected clone is valid exactly when the original is, lacks the same answers, and keeps the block well-formedness invariant |
| Accessors.Leaf | agent/proxycfg/snapshot.go:597-606 | Only connect proxies and ingress gateways report a leaf certificate |
| Accessors.ValidHasLeaf | agent/proxycfg/snapshot.go:597-606 | For a valid snapshot, a leaf is reported if and only if the kind is connect proxy or ingress gateway |
| Accessors.MeshConfig | agent/proxycfg/snapshot.go:617-628 | Only connect proxies, ingress gateways and terminating gateways report a mesh config |
| Accessors.MeshConfigTLSIncoming | agent/proxycfg/snapshot.go:630-636 | Incoming TLS settings are reported only when a mesh config with a TLS section exists |
| Accessors.MeshConfigTLSOutgoing | agent/proxycfg/snapshot.go:638-644 | Outgoing TLS settings are reported only when a mesh config with a TLS section exists |
| Accessors.MeshGatewayHasNoMeshConfig | agent/proxycfg/snapshot.go:617-644 | A mesh gateway reports no mesh config and no TLS settings |
| Accessors.TLSFromMeshConfig | agent/proxycfg/snapshot.go:630-644 | When the mesh config has a TLS section, the accessors return its incoming and outgoing parts |
| Accessors.AccessorsSurviveClone | agent/proxycfg/snapshot.go:559-644 | The source's clone answers every accessor, and carries the roots, exactly as the original does |
| Accessors.AccessorsSurviveCloneSealed | agent/proxycfg/snapshot.go:559-644 | The corrected clone answers every accessor, and carries the roots, exactly as the original does |
| Accessors.RootPEMs | agent/proxycfg/snapshot.go:609-615 | The result is the roots' certificates in order, each non-empty certificate ending in a newline, and is empty or ends in a newline |
| Accessors.PemBundleEndsInNewline | agent/proxycfg/snapshot.go:609-615 | A concatenated bundle never ends mid-line, so appending a certificate cannot join two on one line |
| Peering.UpstreamPeerMeta | agent/proxycfg/snapshot.go:646-668 | With no endpoints, or a first endpoint without a service, the result is the zero peering metadata; otherwise it is the first endpoint's peer metadata |
| Peering.PeerMetaOfAnyEndpoint | agent/proxycfg/snapshot.go:655-667 | When all endpoints carry the same replicated metadata, the result is the metadata of any endpoint with a service |
| Peering.PeeredUpstreamIDs | agent/proxycfg/snapshot.go:670-685 | In any visiting order, the result lists each configured upstream once and exactly when it names a peer whose trust bundle has arrived |
| Peering.UnpeeredNeverReady | agent/proxycfg/snapshot.go:673-675 | An upstream without a peer is never reported |
| Peering.TrustBundleAdmits | agent/proxycfg/snapshot.go:677-680 | A peered upstream is withheld without its peer's trust bundle and reported once it arrives |

## Left out

- Clone's deep copy cannot fail here. Snapshots are immutable values, so the copy is the identity and the `copystructure` error path is not modelled.
- Cancel functions are opaque handles. Calling them, and the watches they stop, are not modelled.
- `ServerSNIFn` is a function value in the snapshot. It is not modelled, and no modelled operation reads it.
- Case-insensitive partition names are not modelled. Only the assumed `acl` rules above are.
- A build without admin partitions, which treats every partition as the default one, is not modelled. In such a build `KeyString` never writes a partition prefix.
- Nil receivers are not modelled. The blocks are embedded by value in the snapshot, so the `c == nil` branches of the `isEmpty` helpers and `IsServiceExported` cannot be reached from a snapshot.
- Accessors.RootPEMs: requires the roots to be present, because the source dereferences them without a nil check.
- Peering.UpstreamPeerMeta: requires the first endpoint's peer metadata to be present when that endpoint has a service, because the source dereferences it without a check.
- The `PassthroughIndices` tie-breaking by modify index is done by the code that fills the snapshot, not by this file. The field is kept but no behaviour of it is modelled.
- Concurrency (handing clones to other goroutines) is not modelled. The model works on values.
- Go strings are compared byte-wise. The model compares `char` sequences (Unicode scalar values) lexicographically. This is the same order as comparing their UTF-8 bytes.
- Listeners.RouteName: ports are unbounded integers. The source's `int` is 64-bit and formats the same way for every value it can hold.

## Findings

| source | as written | input that shows it | evidently intended | confidence | as-written member | corrected member |
|---|---|---|---|---|---|---|
| agent/proxycfg/snapshot.go:581-583 | For a mesh gateway, `Clone` clears the watched services and watched gateways but not `WatchedDiscoveryChains`, which also maps to cancel functions | a mesh-gateway snapshot with one entry in its discovery-chain watch map: the clone still holds that cancel function | Every cancellation handle of the active block is removed, as the comment above the switch says, so a clone's holder can never cancel the owner's watches | medium, not executed | Cloning.Clone, with Cloning.CloneLeaksMeshChainHandles | Cloning.CloneSealed |
