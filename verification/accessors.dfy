/**
 Read accessors that pick a value out of whichever block `kind` selects,
 and the concatenated PEM text of the trust roots.
 */
module Accessors {
  import opened Payloads
  import opened Strings
  import opened Snapshot
  import opened Readiness
  import opened Cloning

  /** `ConfigSnapshot.Leaf`: only connect proxies and ingress gateways have one. */
  function Leaf(s: ConfigSnapshot): (leaf: Option<IssuedCert>)
    ensures leaf.Some? ==> s.kind == ConnectProxy || s.kind == IngressGateway
  {
    match s.kind
    case ConnectProxy => s.connectProxy.upstreams.leaf
    case IngressGateway => s.ingressGateway.upstreams.leaf
    case _ => None
  }

  /** `ConfigSnapshot.MeshConfig`: mesh gateways and other kinds have none. */
  function MeshConfig(s: ConfigSnapshot): (mesh: Option<MeshConfigEntry>)
    ensures mesh.Some? ==> s.kind in {ConnectProxy, IngressGateway, TerminatingGateway}
  {
    match s.kind
    case ConnectProxy => s.connectProxy.upstreams.meshConfig
    case IngressGateway => s.ingressGateway.upstreams.meshConfig
    case TerminatingGateway => s.terminatingGateway.meshConfig
    case _ => None
  }

  /** `ConfigSnapshot.MeshConfigTLSIncoming`: absent whenever the mesh
      config or its TLS section is. */
  function MeshConfigTLSIncoming(s: ConfigSnapshot): (tls: Option<MeshDirectionalTLSConfig>)
    ensures tls.Some? ==> MeshConfig(s).Some? && MeshConfig(s).value.tls.Some?
  {
    var mesh := MeshConfig(s);
    if mesh.None? || mesh.value.tls.None? then None
    else mesh.value.tls.value.incoming
  }

  /** `ConfigSnapshot.MeshConfigTLSOutgoing`. */
  function MeshConfigTLSOutgoing(s: ConfigSnapshot): (tls: Option<MeshDirectionalTLSConfig>)
    ensures tls.Some? ==> MeshConfig(s).Some? && MeshConfig(s).value.tls.Some?
  {
    var mesh := MeshConfig(s);
    if mesh.None? || mesh.value.tls.None? then None
    else mesh.value.tls.value.outgoing
  }

  /** A ready connect proxy or ingress gateway always has its leaf certificate. */
  lemma ValidHasLeaf(s: ConfigSnapshot)
    requires Valid(s)
    ensures s.kind == ConnectProxy || s.kind == IngressGateway <==> Leaf(s).Some?
  {
  }

  /** Mesh gateways expose neither a mesh config nor its TLS settings. */
  lemma MeshGatewayHasNoMeshConfig(s: ConfigSnapshot)
    requires s.kind == MeshGateway
    ensures MeshConfig(s).None? && MeshConfigTLSIncoming(s).None? && MeshConfigTLSOutgoing(s).None?
  {
  }

  /** The directional TLS settings are read from the active block's mesh config. */
  lemma TLSFromMeshConfig(s: ConfigSnapshot, mesh: MeshConfigEntry, tls: MeshTLSConfig)
    requires MeshConfig(s) == Some(mesh) && mesh.tls == Some(tls)
    ensures MeshConfigTLSIncoming(s) == tls.incoming
    ensures MeshConfigTLSOutgoing(s) == tls.outgoing
  {
  }

  /** The source's clone answers every accessor as its original does. */
  lemma AccessorsSurviveClone(s: ConfigSnapshot)
    ensures Leaf(Clone(s)) == Leaf(s)
    ensures MeshConfig(Clone(s)) == MeshConfig(s)
    ensures MeshConfigTLSIncoming(Clone(s)) == MeshConfigTLSIncoming(s)
    ensures MeshConfigTLSOutgoing(Clone(s)) == MeshConfigTLSOutgoing(s)
    ensures Clone(s).roots == s.roots
  {
  }

  /** So does the corrected clone. */
  lemma AccessorsSurviveCloneSealed(s: ConfigSnapshot)
    ensures Leaf(CloneSealed(s)) == Leaf(s)
    ensures MeshConfig(CloneSealed(s)) == MeshConfig(s)
    ensures MeshConfigTLSIncoming(CloneSealed(s)) == MeshConfigTLSIncoming(s)
    ensures MeshConfigTLSOutgoing(CloneSealed(s)) == MeshConfigTLSOutgoing(s)
    ensures CloneSealed(s).roots == s.roots
  {
  }

  /** The roots' PEM texts, each normalised to end in a newline, front to back. */
  function PemBundle(roots: seq<CARoot>): string {
    if |roots| == 0 then ""
    else EnsureTrailingNewline(roots[0].rootCert) + PemBundle(roots[1..])
  }

  lemma {:induction false} PemBundleAppend(roots: seq<CARoot>, root: CARoot)
    ensures PemBundle(roots + [root]) == PemBundle(roots) + EnsureTrailingNewline(root.rootCert)
  {
    if |roots| > 0 {
      assert (roots + [root])[1..] == roots[1..] + [root];
      PemBundleAppend(roots[1..], root);
    } else {
      assert roots + [root] == [root];
    }
  }

  /** A bundle is empty or ends in a newline, so appending to it never joins two certificates on one line. */
  lemma {:induction false} PemBundleEndsInNewline(roots: seq<CARoot>)
    ensures PemBundle(roots) == "" || PemBundle(roots)[|PemBundle(roots)| - 1] == '\n'
  {
    if |roots| > 0 {
      PemBundleEndsInNewline(roots[1..]);
    }
  }

  /** `ConfigSnapshot.RootPEMs`. The source dereferences the roots without a
      nil check, hence the precondition. */
  method RootPEMs(s: ConfigSnapshot) returns (pems: string)
    requires s.roots.Some?
    ensures pems == PemBundle(s.roots.value.roots)
    ensures pems == "" || pems[|pems| - 1] == '\n'
  {
    var roots := s.roots.value.roots;
    pems := "";
    var i := 0;
    while i < |roots|
      invariant 0 <= i <= |roots|
      invariant pems == PemBundle(roots[..i])
    {
      assert roots[..i + 1] == roots[..i] + [roots[i]];
      PemBundleAppend(roots[..i], roots[i]);
      pems := pems + EnsureTrailingNewline(roots[i].rootCert);
      i := i + 1;
    }
    assert roots[..i] == roots;
    PemBundleEndsInNewline(roots);
  }
}
