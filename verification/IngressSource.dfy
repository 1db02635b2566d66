/**
 * The ingress source: what each Ingress asks for, the views in which all of them are compared, and
 * the reconcile that turns them into shared records and publications.
 */
module IngressSource {
  import opened Text
  import opened Validation
  import opened RouterCli
  import opened Specs
  import opened SharedOwnership

  datatype Ingress = Ingress(
    annotations: map<string, string>,
    hosts: seq<string>,
    tls: seq<seq<string>>,
    addresses: seq<string>)

  datatype Config = Config(
    address: string,
    upstreamAddress: string, upstreamPort: int, upstreamScheme: string,
    level: string, publish: bool, keenZone: string)

  const PUBLISH: string := "keenetic.whitediver.com/publish"
  const UPSTREAM: string := "keenetic.whitediver.com/upstream"
  const UPSTREAM_PORT: string := "keenetic.whitediver.com/upstream-port"
  const UPSTREAM_SCHEME: string := "keenetic.whitediver.com/upstream-scheme"
  const SECURITY_LEVEL: string := "keenetic.whitediver.com/security-level"
  const AUTH: string := "keenetic.whitediver.com/auth"
  const PROXY_NAME: string := "keenetic.whitediver.com/proxy-name"
  const FORCE_SSL_REDIRECT: string := "nginx.ingress.kubernetes.io/force-ssl-redirect"
  const SSL_REDIRECT: string := "nginx.ingress.kubernetes.io/ssl-redirect"

  // ----- what one Ingress says -----

  /** An annotation, or nothing when it is not there. */
  function Ann(ing: Ingress, key: string): string {
    if key in ing.annotations then ing.annotations[key] else ""
  }

  /** The hosts of some rules, in lower case; a rule without a host names none. */
  function HostsIn(rules: seq<string>): set<string> { set r | r in rules && r != "" :: Lower(r) }

  function HostsOf(ing: Ingress): set<string> { HostsIn(ing.hosts) }

  function ParseBool(v: string): Option<bool> {
    if v in {"1", "t", "T", "TRUE", "true", "True"} then Some(true)
    else if v in {"0", "f", "F", "FALSE", "false", "False"} then Some(false)
    else None
  }

  /** A decimal number of 32 bits with an optional sign. */
  function ParseInt(v: string): Option<int> {
    var digits := if v != "" && (v[0] == '+' || v[0] == '-') then v[1..] else v;
    if !IsDigits(digits) then None else
      var n: int := if v[0] == '-' then -(DecimalValue(digits) as int) else DecimalValue(digits);
      if -0x8000_0000 <= n < 0x8000_0000 then Some(n) else None
  }

  function FirstAddress(addresses: seq<string>, default: string): string {
    if addresses == [] then default
    else if addresses[0] != "" then addresses[0]
    else FirstAddress(addresses[1..], default)
  }

  function AddressFor(cfg: Config, ing: Ingress): string { FirstAddress(ing.addresses, cfg.address) }

  /** A value that cannot be understood does not publish. */
  predicate Publishes(cfg: Config, ing: Ingress) {
    if Ann(ing, PUBLISH) == "" then cfg.publish else ParseBool(Ann(ing, PUBLISH)) == Some(true)
  }

  predicate CoversHost(section: seq<string>, host: string) {
    section == [] || exists h <- section :: EqualFold(h, host)
  }

  /** An understandable redirect annotation decides; otherwise any TLS section for the host does. */
  predicate RequiresTls(ing: Ingress, host: string) {
    if FORCE_SSL_REDIRECT in ing.annotations && ParseBool(ing.annotations[FORCE_SSL_REDIRECT]).Some?
    then ParseBool(ing.annotations[FORCE_SSL_REDIRECT]).value
    else if SSL_REDIRECT in ing.annotations && ParseBool(ing.annotations[SSL_REDIRECT]).Some?
    then ParseBool(ing.annotations[SSL_REDIRECT]).value
    else exists section <- ing.tls :: CoversHost(section, host)
  }

  function InKeenZone(cfg: Config, host: string): bool {
    cfg.keenZone != "" && EqualFold(ZoneOf(host), cfg.keenZone)
  }

  function Or(v: string, default: string): string { if v == "" then default else v }

  /** The annotated port, if any; None when it is not a port. */
  function AnnotatedPort(ing: Ingress): Option<Option<int>> {
    var v := Ann(ing, UPSTREAM_PORT);
    if v == "" then Some(None) else
    match ParseInt(v)
    case Some(n) => if 1 <= n <= 65535 then Some(Some(n)) else None
    case None => None
  }

  /** The publication one host asks for; None when there is nothing, or nothing usable, to publish. */
  function WebAppSpec(cfg: Config, ing: Ingress, host: string, tls: bool): Option<Spec> {
    var name := Or(Ann(ing, PROXY_NAME), FirstLabel(host));
    var address := Or(Ann(ing, UPSTREAM), cfg.upstreamAddress);
    var annotated := AnnotatedPort(ing);
    var derived := Ann(ing, UPSTREAM_SCHEME) == "" && tls;
    var scheme := if derived then "https"
                  else Or(Or(Ann(ing, UPSTREAM_SCHEME), cfg.upstreamScheme), "http");
    var level := Or(Or(Ann(ing, SECURITY_LEVEL), cfg.level), "public");
    var auth := if Ann(ing, AUTH) == "" then Some(false) else ParseBool(Ann(ing, AUTH));
    if !NameOk(name) || !Ipv4Ok(address) || annotated.None? || auth.None? then None
    else if scheme != "http" && scheme != "https" then None
    else if level != "public" && level != "private" then None
    else
      var port := if annotated.value.Some? then annotated.value.value
                  else if derived then 443
                  else if cfg.upstreamPort == 0 then 80 else cfg.upstreamPort;
      Some(Spec(name, host, InKeenZone(cfg, host), address, port, scheme, level, auth.value))
  }

  /**
   * Every publication derived from an Ingress with a proper host is accepted by the actuator that
   * shares its zone, exactly when the host has a second label.
   */
  lemma SpecAccepted(cfg: Config, ing: Ingress, host: string, tls: bool)
    requires WebAppSpec(cfg, ing, host, tls).Some?
    requires 0 <= cfg.upstreamPort <= 65535
    requires HostnameOk(host)
    ensures !Refused(ProxyFromSpec(WebAppSpec(cfg, ing, host, tls).value), cfg.keenZone) <==> '.' in host
  {
    hide NameOk, Ipv4Ok, HostnameOk, ParseBool, ParseInt, EqualFold;
    ZoneOk(host);
    if InKeenZone(cfg, host) && '.' !in host {
      NoZone(host);
      NoZoneFolds(cfg.keenZone);
    }
  }

  lemma NoZone(host: string)
    requires '.' !in host
    ensures ZoneOf(host) == ""
  {}

  lemma NoZoneFolds(zone: string)
    ensures EqualFold("", zone) ==> zone == ""
  {
    assert |Lower("")| == 0 && |Lower(zone)| == |zone|;
  }

  // ----- the views in which all Ingresses are compared -----

  ghost function AddressView(cfg: Config, items: seq<Ingress>, h: string): set<string> {
    set ing | ing in items && AddressFor(cfg, ing) != "" && h in HostsOf(ing) :: AddressFor(cfg, ing)
  }

  ghost predicate TlsView(items: seq<Ingress>, h: string) {
    exists ing <- items :: h in HostsOf(ing) && RequiresTls(ing, h)
  }

  function TlsOf(tls: map<string, bool>, h: string): bool { h in tls && tls[h] }

  function ListAt<V>(m: map<string, seq<V>>, h: string): seq<V> { if h in m then m[h] else [] }

  lemma HostsSnoc(rules: seq<string>, j: nat)
    requires j < |rules|
    ensures HostsIn(rules[..j + 1]) == HostsIn(rules[..j]) + if rules[j] == "" then {} else {Lower(rules[j])}
  {
    hide Lower;
    assert rules[..j + 1] == rules[..j] + [rules[j]];
  }

  lemma NoHosts(rules: seq<string>)
    ensures HostsIn(rules[..0]) == {}
  {}

  /** Adds a value to the list of a host unless it is there already. */
  function AddOnce<V(==)>(m: map<string, seq<V>>, h: string, v: V): map<string, seq<V>> {
    if v in ListAt(m, h) then m else m[h := ListAt(m, h) + [v]]
  }

  lemma AddOnceLists<V>(m: map<string, seq<V>>, h: string, v: V, k: string, s: set<V>)
    requires Lists(ListAt(m, k), s)
    ensures Lists(ListAt(AddOnce(m, h, v), k), s + if k == h then {v} else {})
  {}

  method AddressesByHost(cfg: Config, items: seq<Ingress>) returns (byHost: map<string, seq<string>>)
    ensures forall h :: Lists(ListAt(byHost, h), AddressView(cfg, items, h))
  {
    hide AddressFor, Lower, HostsIn, Lists, AddOnce, AddressView;
    byHost := map[];
    NothingListed<string>();
    forall h { NoAddresses(cfg, items, h); }
    for i := 0 to |items|
      invariant forall h :: Lists(ListAt(byHost, h), AddressView(cfg, items[..i], h))
    {
      forall h { AddressViewSnoc(cfg, items, i, h); }
      var addr := AddressFor(cfg, items[i]);
      if addr == "" { continue; }
      var rules := items[i].hosts;
      NoHosts(rules);
      forall h ensures AddressesUpTo(cfg, items[..i], addr, rules[..0], h) == AddressView(cfg, items[..i], h) {}
      for j := 0 to |rules|
        invariant forall h :: Lists(ListAt(byHost, h), AddressesUpTo(cfg, items[..i], addr, rules[..j], h))
      {
        HostsSnoc(rules, j);
        if rules[j] == "" { continue; }
        var host := Lower(rules[j]);
        forall h ensures Lists(ListAt(AddOnce(byHost, host, addr), h),
                               AddressesUpTo(cfg, items[..i], addr, rules[..j + 1], h)) {
          AddOnceLists(byHost, host, addr, h, AddressesUpTo(cfg, items[..i], addr, rules[..j], h));
          assert AddressesUpTo(cfg, items[..i], addr, rules[..j + 1], h)
              == AddressesUpTo(cfg, items[..i], addr, rules[..j], h) + if h == host then {addr} else {};
        }
        byHost := AddOnce(byHost, host, addr);
      }
      assert rules[..|rules|] == rules;
    }
    assert items[..|items|] == items;
  }

  lemma NoAddresses(cfg: Config, items: seq<Ingress>, h: string)
    ensures AddressView(cfg, items[..0], h) == {}
  {}

  lemma NoSpecs(cfg: Config, items: seq<Ingress>, h: string, needsTls: bool)
    ensures SpecView(cfg, items[..0], h, needsTls) == {}
  {}

  lemma NothingListed<V>()
    ensures Lists<V>([], {})
  {}

  /** The addresses met once some Ingresses and part of the rules of the next one have been seen. */
  ghost function AddressesUpTo(cfg: Config, items: seq<Ingress>, addr: string, rules: seq<string>, h: string): set<string> {
    AddressView(cfg, items, h) + if h in HostsIn(rules) then {addr} else {}
  }

  lemma AddressViewSnoc(cfg: Config, items: seq<Ingress>, i: nat, h: string)
    requires i < |items|
    ensures var addr := AddressFor(cfg, items[i]);
            AddressView(cfg, items[..i + 1], h)
            == if addr == "" then AddressView(cfg, items[..i], h)
               else AddressesUpTo(cfg, items[..i], addr, items[i].hosts, h)
  {
    hide AddressFor, HostsIn;
    assert items[..i + 1] == items[..i] + [items[i]];
  }

  method HostsRequiringTls(items: seq<Ingress>) returns (out: map<string, bool>)
    ensures forall h :: TlsOf(out, h) <==> TlsView(items, h)
  {
    hide RequiresTls, Lower, HostsIn;
    out := map[];
    for i := 0 to |items|
      invariant forall h :: TlsOf(out, h) <==> TlsView(items[..i], h)
    {
      assert items[..i + 1] == items[..i] + [items[i]];
      var rules := items[i].hosts;
      NoHosts(rules);
      ghost var before := out;
      for j := 0 to |rules|
        invariant forall h :: TlsOf(out, h) <==> TlsOf(before, h) || (h in HostsIn(rules[..j]) && RequiresTls(items[i], h))
      {
        HostsSnoc(rules, j);
        if rules[j] == "" { continue; }
        var host := Lower(rules[j]);
        out := out[host := TlsOf(out, host) || RequiresTls(items[i], host)];
      }
      assert rules[..|rules|] == rules;
      forall h ensures TlsView(items[..i + 1], h)
                   <==> TlsView(items[..i], h) || (h in HostsOf(items[i]) && RequiresTls(items[i], h)) {
        TlsSnoc(items, i, h);
      }
    }
    assert items[..|items|] == items;
  }

  lemma TlsSnoc(items: seq<Ingress>, i: nat, h: string)
    requires i < |items|
    ensures TlsView(items[..i + 1], h)
       <==> TlsView(items[..i], h) || (h in HostsOf(items[i]) && RequiresTls(items[i], h))
  {
    hide RequiresTls, HostsOf;
    assert items[..i + 1] == items[..i] + [items[i]];
  }

  /** The publication an Ingress asks for on a host, when it asks for one at all. */
  function Wanted(cfg: Config, ing: Ingress, h: string, needsTls: bool): Option<Spec> {
    if Publishes(cfg, ing) && h in HostsOf(ing) then WebAppSpec(cfg, ing, h, needsTls) else None
  }

  ghost function SpecView(cfg: Config, items: seq<Ingress>, h: string, needsTls: bool): set<Spec> {
    set ing | ing in items && Wanted(cfg, ing, h, needsTls).Some? :: Wanted(cfg, ing, h, needsTls).value
  }

  /** The specifications met once some Ingresses and part of the rules of the next one have been seen. */
  ghost function SpecsUpTo(cfg: Config, items: seq<Ingress>, ing: Ingress, rules: seq<string>,
                           h: string, needsTls: bool): set<Spec>
  {
    SpecView(cfg, items, h, needsTls)
    + if h in HostsIn(rules) && WebAppSpec(cfg, ing, h, needsTls).Some?
      then {WebAppSpec(cfg, ing, h, needsTls).value} else {}
  }

  lemma SpecViewSnoc(cfg: Config, items: seq<Ingress>, i: nat, h: string, needsTls: bool)
    requires i < |items|
    ensures SpecView(cfg, items[..i + 1], h, needsTls)
         == if Publishes(cfg, items[i]) then SpecsUpTo(cfg, items[..i], items[i], items[i].hosts, h, needsTls)
            else SpecView(cfg, items[..i], h, needsTls)
  {
    hide WebAppSpec, Publishes, HostsIn;
    assert items[..i + 1] == items[..i] + [items[i]];
    var w := Wanted(cfg, items[i], h, needsTls);
    assert SpecView(cfg, items[..i + 1], h, needsTls)
        == SpecView(cfg, items[..i], h, needsTls) + if w.Some? then {w.value} else {};
  }

  method WebAppSpecsByHost(cfg: Config, items: seq<Ingress>, tls: map<string, bool>)
    returns (byHost: map<string, seq<Spec>>)
    ensures forall h :: Lists(ListAt(byHost, h), SpecView(cfg, items, h, TlsOf(tls, h)))
  {
    hide WebAppSpec, Publishes, Lower, HostsIn, Lists, AddOnce, TlsOf, SpecView;
    byHost := map[];
    NothingListed<Spec>();
    forall h { NoSpecs(cfg, items, h, TlsOf(tls, h)); }
    for i := 0 to |items|
      invariant forall h :: Lists(ListAt(byHost, h), SpecView(cfg, items[..i], h, TlsOf(tls, h)))
    {
      forall h { SpecViewSnoc(cfg, items, i, h, TlsOf(tls, h)); }
      var ing := items[i];
      if !Publishes(cfg, ing) { continue; }
      var rules := ing.hosts;
      NoHosts(rules);
      forall h ensures SpecsUpTo(cfg, items[..i], ing, rules[..0], h, TlsOf(tls, h))
                    == SpecView(cfg, items[..i], h, TlsOf(tls, h)) {}
      for j := 0 to |rules|
        invariant forall h :: Lists(ListAt(byHost, h), SpecsUpTo(cfg, items[..i], ing, rules[..j], h, TlsOf(tls, h)))
      {
        HostsSnoc(rules, j);
        if rules[j] == "" { continue; }
        var host := Lower(rules[j]);
        var spec := WebAppSpec(cfg, ing, host, TlsOf(tls, host));
        if spec.None? {
          forall h ensures SpecsUpTo(cfg, items[..i], ing, rules[..j + 1], h, TlsOf(tls, h))
                        == SpecsUpTo(cfg, items[..i], ing, rules[..j], h, TlsOf(tls, h)) {}
          continue;
        }
        forall h ensures Lists(ListAt(AddOnce(byHost, host, spec.value), h),
                               SpecsUpTo(cfg, items[..i], ing, rules[..j + 1], h, TlsOf(tls, h))) {
          AddOnceLists(byHost, host, spec.value, h, SpecsUpTo(cfg, items[..i], ing, rules[..j], h, TlsOf(tls, h)));
          assert SpecsUpTo(cfg, items[..i], ing, rules[..j + 1], h, TlsOf(tls, h))
              == SpecsUpTo(cfg, items[..i], ing, rules[..j], h, TlsOf(tls, h))
                 + if h == host then {spec.value} else {};
        }
        byHost := AddOnce(byHost, host, spec.value);
      }
      assert rules[..|rules|] == rules;
    }
    assert items[..|items|] == items;
  }

  // ----- the views do not depend on any order -----

  /** Two Ingresses that differ at most in the order and repetition of their rules. */
  predicate Twins(a: Ingress, b: Ingress) {
    a.annotations == b.annotations && a.tls == b.tls && a.addresses == b.addresses && HostsOf(a) == HostsOf(b)
  }

  predicate Covers(a: seq<Ingress>, b: seq<Ingress>) { forall x <- a :: exists y <- b :: Twins(x, y) }

  lemma ViewsWithin(cfg: Config, a: seq<Ingress>, b: seq<Ingress>, h: string, needsTls: bool)
    requires Covers(a, b)
    ensures AddressView(cfg, a, h) <= AddressView(cfg, b, h)
    ensures TlsView(a, h) ==> TlsView(b, h)
    ensures SpecView(cfg, a, h, needsTls) <= SpecView(cfg, b, h, needsTls)
  {
    hide HostsOf;
    forall x | x in a
      ensures exists y <- b :: Twins(x, y) && AddressFor(cfg, x) == AddressFor(cfg, y)
                               && Wanted(cfg, x, h, needsTls) == Wanted(cfg, y, h, needsTls)
                               && RequiresTls(x, h) == RequiresTls(y, h)
    {
      var y :| y in b && Twins(x, y);
      TwinsAgree(cfg, x, y, h, needsTls);
    }
    hide AddressFor, Wanted, RequiresTls;
  }

  /** Apart from its hosts only the annotations of an Ingress decide what it publishes. */
  lemma AlikeWants(cfg: Config, x: Ingress, y: Ingress, h: string, needsTls: bool)
    requires x.annotations == y.annotations && h in HostsOf(x) && h in HostsOf(y)
    ensures Wanted(cfg, x, h, needsTls) == Wanted(cfg, y, h, needsTls)
  {
    hide HostsOf, ParseBool, ParseInt, NameOk, Ipv4Ok, InKeenZone;
  }

  lemma TwinsAgree(cfg: Config, x: Ingress, y: Ingress, h: string, needsTls: bool)
    requires Twins(x, y)
    ensures AddressFor(cfg, x) == AddressFor(cfg, y)
    ensures Wanted(cfg, x, h, needsTls) == Wanted(cfg, y, h, needsTls)
    ensures RequiresTls(x, h) == RequiresTls(y, h)
  {
    hide ParseBool, Wanted;
    if h in HostsOf(x) {
      AlikeWants(cfg, x, y, h, needsTls);
    } else {
      NotListed(cfg, x, h, needsTls);
      NotListed(cfg, y, h, needsTls);
    }
  }

  lemma NotListed(cfg: Config, x: Ingress, h: string, needsTls: bool)
    requires h !in HostsOf(x)
    ensures Wanted(cfg, x, h, needsTls).None?
  {}

  /** However Ingresses and rules are listed, repeated or ordered, the views are the same. */
  lemma ViewsOrderFree(cfg: Config, a: seq<Ingress>, b: seq<Ingress>, h: string)
    requires Covers(a, b) && Covers(b, a)
    ensures AddressView(cfg, a, h) == AddressView(cfg, b, h)
    ensures TlsView(a, h) <==> TlsView(b, h)
    ensures SpecView(cfg, a, h, TlsView(a, h)) == SpecView(cfg, b, h, TlsView(b, h))
  {
    hide AddressView, TlsView, SpecView, Covers;
    ViewsWithin(cfg, a, b, h, TlsView(a, h));
    ViewsWithin(cfg, b, a, h, TlsView(a, h));
  }

  /** Two lists of one view have the same length, and are the same list when it is settled. */
  lemma SameVerdict<V>(a: seq<V>, b: seq<V>, view: set<V>)
    requires Lists(a, view) && Lists(b, view)
    ensures |a| == |b| == |view|
    ensures |a| == 1 ==> a == b
  {
    ListsSize(a, view);
    ListsSize(b, view);
    if |a| == 1 { OnlyMember(view, a[0]); }
  }
}
