/**
 Per-service readiness of a terminating gateway: a linked service is emitted
 only once every one of its watches has answered.
 */
module TerminatingServices {
  import opened Payloads
  import opened Snapshot
  import opened Collections

  /** All four per-service watches of `svc` have answered: the resolver
      watch (any recorded answer, whatever its flag value), a non-nil leaf
      certificate, intentions and the service config. */
  predicate ServiceReady(t: TerminatingGatewayState, svc: ServiceName) {
    && svc in t.serviceResolversSet
    && svc in t.serviceLeaves && t.serviceLeaves[svc].Some?
    && svc in t.intentions
    && svc in t.serviceConfigs
  }

  /** The services a terminating gateway can emit. */
  function ReadyServices(t: TerminatingGatewayState): (ready: set<ServiceName>)
    ensures ready <= t.serviceGroups.Keys
  {
    set svc | svc in t.serviceGroups && ServiceReady(t, svc)
  }

  /** `configSnapshotTerminatingGateway.ValidServices`. The service groups are
      visited in an arbitrary order, as Go's map iteration does, so only the
      contents of the result are determined. */
  method ValidServices(t: TerminatingGatewayState) returns (out: seq<ServiceName>)
    ensures forall svc :: svc in out <==> svc in t.serviceGroups && ServiceReady(t, svc)
    ensures Distinct(out)
    ensures |out| == |ReadyServices(t)|
  {
    out := [];
    var pending := t.serviceGroups.Keys;
    while pending != {}
      invariant pending <= t.serviceGroups.Keys
      invariant forall svc :: svc in out <==> svc in t.serviceGroups.Keys - pending && ServiceReady(t, svc)
      invariant Distinct(out)
      decreases |pending|
    {
      var svc :| svc in pending;
      pending := pending - {svc};
      if svc !in t.serviceResolversSet {
        continue;
      }
      if svc !in t.serviceLeaves || t.serviceLeaves[svc].None? {
        continue;
      }
      if svc !in t.intentions {
        continue;
      }
      if svc !in t.serviceConfigs {
        continue;
      }
      assert svc !in out;
      out := out + [svc];
    }
    DistinctCardinality(out, ReadyServices(t));
  }

  /** Dropping any one of a service's four answers makes it not ready. */
  lemma AnyMissingAnswerExcludes(t: TerminatingGatewayState, svc: ServiceName)
    ensures !ServiceReady(t.(serviceResolversSet := t.serviceResolversSet - {svc}), svc)
    ensures !ServiceReady(t.(serviceLeaves := t.serviceLeaves - {svc}), svc)
    ensures !ServiceReady(t.(serviceLeaves := t.serviceLeaves[svc := None]), svc)
    ensures !ServiceReady(t.(intentions := t.intentions - {svc}), svc)
    ensures !ServiceReady(t.(serviceConfigs := t.serviceConfigs - {svc}), svc)
  {
  }

  /** The resolver answer makes ready a service whose other answers are in,
      even when it records that there is no resolver. */
  lemma ResolverAnswerAdmits(t: TerminatingGatewayState, svc: ServiceName, hasResolver: bool)
    requires svc in t.serviceLeaves && t.serviceLeaves[svc].Some?
    requires svc in t.intentions && svc in t.serviceConfigs
    ensures ServiceReady(t.(serviceResolversSet := t.serviceResolversSet[svc := hasResolver]), svc)
  {
  }

  /** One service's answers never affect whether another service is ready. */
  lemma ReadinessIsPerService(t: TerminatingGatewayState, svc: ServiceName, other: ServiceName,
                              cert: Option<IssuedCert>, hasResolver: bool)
    requires other != svc
    ensures ServiceReady(t.(serviceLeaves := t.serviceLeaves[svc := cert]), other) == ServiceReady(t, other)
    ensures ServiceReady(t.(serviceResolversSet := t.serviceResolversSet[svc := hasResolver]), other)
            == ServiceReady(t, other)
  {
  }
}
