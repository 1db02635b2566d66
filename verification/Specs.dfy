/** The specification of a published web application and the router entry it asks for. */
module Specs {
  import opened Text
  import opened Validation
  import opened Proxies

  datatype Spec = Spec(
    name: string, domain: string, ndns: bool,
    address: string, port: int, scheme: string,
    level: string, auth: bool)

  const ALL_FLAGS: set<Flag> := {SslRedirect, XRealIp, PreserveHost, PreserveReferer, PreserveOrigin}

  /** The entry a specification asks for; objects older than the defaults are filled in here. */
  function ProxyFromSpec(s: Spec): Proxy {
    Proxy(s.name, ZoneOf(s.domain), s.ndns,
          if s.scheme == "" then "http" else s.scheme, s.address, s.port,
          if s.level == "" then "public" else s.level,
          ALL_FLAGS, s.auth, false)
  }

  /** The name under which the router serves an entry: the entry name and a zone. */
  function PublishedName(s: Spec, keenZone: string): string {
    s.name + "." + if s.ndns then keenZone else ZoneOf(s.domain)
  }

  lemma LowerJoin(a: string, b: string)
    ensures Lower(a + "." + b) == Lower(a) + ['.'] + Lower(b)
  {}

  lemma LowerKeepsDots(a: string)
    requires '.' !in a
    ensures '.' !in Lower(a)
  {
    forall c | c in Lower(a) ensures c != '.' {}
  }

  lemma SameBeforeDot(a: string, b: string, u: string, v: string)
    requires '.' !in a && '.' !in b
    requires a + ['.'] + u == b + ['.'] + v
    ensures a == b
  {
    IndexOfFirst(a, '.', u);
    IndexOfFirst(b, '.', v);
    assert a == (a + ['.'] + u)[..|a|];
  }

  /**
   * An entry is served under the host it was meant for exactly when its name is the first label of
   * that host; a name chosen by annotation publishes something else.
   */
  lemma PublishedUnderItsHost(s: Spec, keenZone: string)
    requires '.' in s.domain && NameOk(s.name)
    requires s.ndns ==> EqualFold(ZoneOf(s.domain), keenZone)
    ensures EqualFold(PublishedName(s, keenZone), s.domain) <==> EqualFold(s.name, FirstLabel(s.domain))
  {
    var n := IndexOf(s.domain, '.');
    var host, zone := FirstLabel(s.domain), ZoneOf(s.domain);
    assert s.domain[..|s.domain|] == s.domain;
    assert '.' !in s.name;
    assert s.domain == host + "." + zone;
    var z := if s.ndns then keenZone else zone;
    LowerJoin(host, zone);
    LowerJoin(s.name, z);
    LowerKeepsDots(s.name);
    LowerKeepsDots(host);
    if EqualFold(PublishedName(s, keenZone), s.domain) {
      SameBeforeDot(Lower(s.name), Lower(host), Lower(z), Lower(zone));
    }
  }
}
