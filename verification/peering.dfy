/**
 Peering helpers on the shared upstream state: the replicated metadata of a
 peered upstream, and the peered upstreams whose trust bundle has arrived.
 */
module Peering {
  import opened Payloads
  import opened Snapshot
  import opened Collections

  /** The endpoints recorded for `uid`; a missing entry reads as none. */
  function PeerEndpoints(u: UpstreamsState, uid: UpstreamID): CheckServiceNodes {
    if uid in u.peerUpstreamEndpoints then u.peerUpstreamEndpoints[uid] else []
  }

  /** The source dereferences the first endpoint's peer metadata unchecked
      once that endpoint has a service; callers must not reach that case
      with the metadata missing. */
  predicate PeerMetaReadable(u: UpstreamsState, uid: UpstreamID) {
    var nodes := PeerEndpoints(u, uid);
    |nodes| > 0 && nodes[0].service.Some? ==> nodes[0].service.value.connect.peerMeta.Some?
  }

  /** `ConfigSnapshotUpstreams.UpstreamPeerMeta`. */
  function UpstreamPeerMeta(u: UpstreamsState, uid: UpstreamID): (meta: PeeringServiceMeta)
    requires PeerMetaReadable(u, uid)
    ensures |PeerEndpoints(u, uid)| == 0 ==> meta == ZeroPeeringServiceMeta
    ensures |PeerEndpoints(u, uid)| > 0 && PeerEndpoints(u, uid)[0].service.None? ==> meta == ZeroPeeringServiceMeta
    ensures |PeerEndpoints(u, uid)| > 0 && PeerEndpoints(u, uid)[0].service.Some? ==>
              Some(meta) == PeerEndpoints(u, uid)[0].service.value.connect.peerMeta
  {
    var nodes := PeerEndpoints(u, uid);
    if |nodes| == 0 then ZeroPeeringServiceMeta
    else if nodes[0].service.None? then ZeroPeeringServiceMeta
    else nodes[0].service.value.connect.peerMeta.value
  }

  /** Every endpoint with a service carries `meta`: the replication
      guarantee the source relies on. */
  predicate EndpointsAgreeOn(nodes: CheckServiceNodes, meta: PeeringServiceMeta) {
    forall i :: 0 <= i < |nodes| && nodes[i].service.Some? ==> nodes[i].service.value.connect.peerMeta == Some(meta)
  }

  /** When all endpoints carry the same metadata, reading the first one gives
      the metadata of any of them. */
  lemma PeerMetaOfAnyEndpoint(u: UpstreamsState, uid: UpstreamID, meta: PeeringServiceMeta, i: nat)
    requires EndpointsAgreeOn(PeerEndpoints(u, uid), meta)
    requires |PeerEndpoints(u, uid)| > 0 && PeerEndpoints(u, uid)[0].service.Some?
    requires i < |PeerEndpoints(u, uid)| && PeerEndpoints(u, uid)[i].service.Some?
    ensures PeerMetaReadable(u, uid)
    ensures UpstreamPeerMeta(u, uid) == PeerEndpoints(u, uid)[i].service.value.connect.peerMeta.value
  {
  }

  /** `uid` is a peered upstream whose peer's trust bundle has arrived. */
  predicate PeerReady(u: UpstreamsState, uid: UpstreamID) {
    uid.peer != "" && uid.peer in u.peerTrustBundles
  }

  /** `ConfigSnapshotUpstreams.PeeredUpstreamIDs`, visiting the configured
      upstreams in an arbitrary order. */
  method PeeredUpstreamIDs(u: UpstreamsState) returns (out: seq<UpstreamID>)
    ensures forall uid :: uid in out <==> uid in u.upstreamConfig && uid.peer != "" && uid.peer in u.peerTrustBundles
    ensures Distinct(out)
    ensures |out| == |set uid | uid in u.upstreamConfig && PeerReady(u, uid)|
  {
    out := [];
    var pending := u.upstreamConfig.Keys;
    while pending != {}
      invariant pending <= u.upstreamConfig.Keys
      invariant forall uid :: uid in out <==> uid in u.upstreamConfig.Keys - pending && PeerReady(u, uid)
      invariant Distinct(out)
      decreases |pending|
    {
      var uid :| uid in pending;
      pending := pending - {uid};
      if uid.peer == "" {
        continue;
      }
      if uid.peer != "" && uid.peer !in u.peerTrustBundles {
        continue;
      }
      assert uid !in out;
      out := out + [uid];
    }
    DistinctCardinality(out, set uid | uid in u.upstreamConfig && PeerReady(u, uid));
  }

  /** An upstream with no peer is never reported, whatever bundles exist. */
  lemma UnpeeredNeverReady(u: UpstreamsState, uid: UpstreamID)
    requires uid.peer == ""
    ensures !PeerReady(u, uid)
  {
  }

  /** A peered upstream is held back only until its peer's trust bundle arrives. */
  lemma TrustBundleAdmits(u: UpstreamsState, uid: UpstreamID, bundle: PeeringTrustBundle)
    requires uid.peer != ""
    ensures !PeerReady(u.(peerTrustBundles := u.peerTrustBundles - {uid.peer}), uid)
    ensures PeerReady(u.(peerTrustBundles := u.peerTrustBundles[uid.peer := bundle]), uid)
  {
  }
}
