/**
 `IngressListenerKey`: the (protocol, port) pair an ingress gateway uses to
 index both its per-listener upstream lists and its original listener
 config, and the route name derived from it.
 */
module Listeners {
  import opened Payloads
  import opened Strings

  datatype IngressListenerKey = IngressListenerKey(protocol: string, port: int)

  /** `IngressListenerKey.RouteName`: the port in decimal. */
  function RouteName(k: IngressListenerKey): (name: string)
    ensures IsDecimal(name) && ParseInt(name) == k.port
    ensures CanonicalDecimal(name)
    ensures |name| > 0 && (name[0] == '-' <==> k.port < 0)
  {
    ParseFormatInt(k.port);
    FormatInt(k.port)
  }

  /** The route name is the only canonical decimal spelling of the port, so
      no other rendering ("007", "+7") can stand for the same listener. */
  lemma RouteNameUnique(k: IngressListenerKey, name: string)
    requires CanonicalDecimal(name) && ParseInt(name) == k.port
    ensures name == RouteName(k)
  {
    CanonicalDecimalUnique(name);
  }

  /** Keys on the same port share a route name, and only they do. */
  lemma RouteNameInjective(a: IngressListenerKey, b: IngressListenerKey)
    ensures RouteName(a) == RouteName(b) <==> a.port == b.port
  {
    if RouteName(a) == RouteName(b) {
      FormatIntInjective(a.port, b.port);
    }
  }

  /** `IngressListenerKeyFromGWService`. */
  function KeyFromGatewayService(s: GatewayService): (key: IngressListenerKey)
    ensures key.protocol == s.protocol && ParseInt(RouteName(key)) == s.port
  {
    IngressListenerKey(s.protocol, s.port)
  }

  /** `IngressListenerKeyFromListener`. */
  function KeyFromListener(l: IngressListener): (key: IngressListenerKey)
    ensures key.protocol == l.protocol && ParseInt(RouteName(key)) == l.port
  {
    IngressListenerKey(l.protocol, l.port)
  }

  /** A gateway-service association and a listener land under the same key
      exactly when they agree on protocol and port, so the upstream lists and
      the listener configs are indexed consistently. */
  lemma ListenerKeysAgree(s: GatewayService, l: IngressListener)
    ensures KeyFromGatewayService(s) == KeyFromListener(l) <==> s.protocol == l.protocol && s.port == l.port
  {
  }
}
