/**
 * What an Ingress asks for, told by its annotations, rules and status alone, and that this is what
 * the reconcile collects, compares and publishes.
 */
module IngressOutcomes {
  import opened Text
  import opened Validation
  import opened Specs
  import opened SharedOwnership
  import opened IngressSource
  import opened IngressReconcile

  // ----- what annotations mean -----

  predicate Given(ing: Ingress, key: string) { key in ing.annotations && ing.annotations[key] != "" }

  predicate Yes(v: string) { v == "1" || v == "t" || v == "T" || v == "true" || v == "TRUE" || v == "True" }

  predicate No(v: string) { v == "0" || v == "f" || v == "F" || v == "false" || v == "FALSE" || v == "False" }

  lemma BoolExactly(v: string)
    ensures ParseBool(v) == Some(true) <==> Yes(v)
    ensures ParseBool(v) == Some(false) <==> No(v)
  {}

  /** A text that is read as this number: digits, perhaps with a plus sign before them. */
  predicate Denotes(v: string, n: nat) {
    var digits := if v != "" && v[0] == '+' then v[1..] else v;
    digits != "" && (forall c <- digits :: IsDigit(c)) && DecimalValue(digits) == n
  }

  lemma PortExactly(v: string, n: nat)
    requires 1 <= n <= 65535
    ensures ParseInt(v) == Some(n) <==> Denotes(v, n)
  {
    if v == "" {
    } else if v[0] == '-' {
      assert v[0] in v && !IsDigit(v[0]);
      assert !Denotes(v, n);
    } else {
      var digits := if v[0] == '+' then v[1..] else v;
      assert IsDigits(digits) ==>
          ParseInt(v) == if DecimalValue(digits) < 0x8000_0000 then Some(DecimalValue(digits)) else None;
    }
  }

  /** Ports as they are usually written are read as what they are. */
  lemma PrintedPort(n: nat)
    ensures Denotes(Decimal(n), n)
  {
    DecimalRoundTrip(n);
    assert Decimal(n)[0] in Decimal(n);
  }

  // ----- hosts, addresses and TLS -----

  /** A rule names the host, in whatever case. */
  predicate ListsHost(ing: Ingress, h: string) { exists r <- ing.hosts :: r != "" && Lower(r) == h }

  lemma ListsHostExactly(ing: Ingress, h: string)
    ensures h in HostsOf(ing) <==> ListsHost(ing, h)
  {
    hide Lower;
    if r :| r in ing.hosts && r != "" && Lower(r) == h { assert h in HostsIn(ing.hosts); }
  }

  /** The first of several texts that is not empty. */
  predicate FirstFilled(texts: seq<string>, i: nat) {
    i < |texts| && texts[i] != "" && forall j | 0 <= j < i :: texts[j] == ""
  }

  /** The first address a load balancer reports, or the default where none does. */
  predicate HasAddress(cfg: Config, ing: Ingress, a: string) {
    a != "" && if exists x <- ing.addresses :: x != ""
               then exists i | 0 <= i < |ing.addresses| :: FirstFilled(ing.addresses, i) && ing.addresses[i] == a
               else a == cfg.address
  }

  lemma NextFilled(texts: seq<string>, k: nat)
    requires texts != [] && texts[0] == "" && FirstFilled(texts[1..], k)
    ensures FirstFilled(texts, k + 1) && texts[k + 1] == texts[1..][k]
  {
    assert forall j | 0 < j < |texts| :: texts[j] == texts[1..][j - 1];
  }

  lemma {:induction false} FirstExactly(addresses: seq<string>, default: string) returns (i: nat)
    ensures (exists x <- addresses :: x != "") ==>
              FirstFilled(addresses, i) && addresses[i] == FirstAddress(addresses, default)
    ensures (forall x <- addresses :: x == "") ==> FirstAddress(addresses, default) == default
  {
    i := 0;
    if addresses != [] {
      var rest := addresses[1..];
      assert addresses == [addresses[0]] + rest;
      assert addresses[0] in addresses && forall x <- rest :: x in addresses;
      if addresses[0] == "" {
        var k := FirstExactly(rest, default);
        i := k + 1;
        if FirstFilled(rest, k) { NextFilled(addresses, k); }
      }
    }
  }

  lemma AddressExactly(cfg: Config, ing: Ingress, a: string)
    ensures AddressFor(cfg, ing) == a && a != "" <==> HasAddress(cfg, ing, a)
  {
    var k := FirstExactly(ing.addresses, cfg.address);
    if HasAddress(cfg, ing, a) && exists x <- ing.addresses :: x != "" {
      var i :| 0 <= i < |ing.addresses| && FirstFilled(ing.addresses, i) && ing.addresses[i] == a;
      assert i == k;
    }
  }

  /** The addresses collected for a host are those the Ingresses listing it have. */
  lemma AddressesExactly(cfg: Config, items: seq<Ingress>, h: string, a: string)
    ensures a in AddressView(cfg, items, h) <==> exists ing <- items :: ListsHost(ing, h) && HasAddress(cfg, ing, a)
  {
    hide HostsOf, AddressFor, ListsHost, HasAddress;
    forall ing: Ingress ensures h in HostsOf(ing) <==> ListsHost(ing, h) { ListsHostExactly(ing, h); }
    forall ing: Ingress ensures AddressFor(cfg, ing) == a && a != "" <==> HasAddress(cfg, ing, a) {
      AddressExactly(cfg, ing, a);
    }
    if ing :| ing in items && ListsHost(ing, h) && HasAddress(cfg, ing, a) { assert h in HostsOf(ing); }
  }

  predicate Readable(ing: Ingress, key: string) {
    key in ing.annotations && (Yes(ing.annotations[key]) || No(ing.annotations[key]))
  }

  /** A readable redirect annotation decides; without one, a TLS section for the host or for every host. */
  predicate ServesTls(ing: Ingress, h: string) {
    if Readable(ing, "nginx.ingress.kubernetes.io/force-ssl-redirect")
    then Yes(ing.annotations["nginx.ingress.kubernetes.io/force-ssl-redirect"])
    else if Readable(ing, "nginx.ingress.kubernetes.io/ssl-redirect")
    then Yes(ing.annotations["nginx.ingress.kubernetes.io/ssl-redirect"])
    else exists section <- ing.tls :: section == [] || exists x <- section :: EqualFold(x, h)
  }

  lemma TlsExactly(ing: Ingress, h: string)
    ensures RequiresTls(ing, h) <==> ServesTls(ing, h)
  {
    hide ParseBool, EqualFold, Yes, No;
    forall v { BoolExactly(v); }
    forall v { BoolReadable(v); }
  }

  lemma BoolReadable(v: string)
    ensures ParseBool(v).Some? <==> Yes(v) || No(v)
  {}

  /** A host counts as served over TLS when some Ingress of the cluster that lists it says so. */
  lemma ClusterTlsExactly(everyone: set<Ingress>, h: string)
    ensures NeedsTls(everyone, h) <==> exists ing <- everyone :: ListsHost(ing, h) && ServesTls(ing, h)
  {
    hide HostsOf, RequiresTls, ListsHost, ServesTls;
    forall ing: Ingress ensures h in HostsOf(ing) <==> ListsHost(ing, h) { ListsHostExactly(ing, h); }
    forall ing: Ingress ensures RequiresTls(ing, h) <==> ServesTls(ing, h) { TlsExactly(ing, h); }
  }

  // ----- publications -----

  predicate WantsPublishing(cfg: Config, ing: Ingress) {
    if Given(ing, "keenetic.whitediver.com/publish") then Yes(ing.annotations["keenetic.whitediver.com/publish"])
    else cfg.publish
  }

  /** The value of an annotation, or what stands in for it. */
  predicate TakenFrom(ing: Ingress, key: string, v: string, default: string) {
    if Given(ing, key) then v == ing.annotations[key] else v == default
  }

  /** The first of the labels of a host. */
  ghost predicate FirstOf(h: string, first: string) {
    '.' !in first && (h == first || exists rest :: h == first + "." + rest)
  }

  /** What each field of a publication is, by the annotations and, where they are silent, the defaults. */
  ghost predicate SpecFor(cfg: Config, ing: Ingress, h: string, tls: bool, s: Spec) {
    var schemeGiven := Given(ing, "keenetic.whitediver.com/upstream-scheme");
    var portGiven := Given(ing, "keenetic.whitediver.com/upstream-port");
    && s.domain == h
    && (s.ndns <==> cfg.keenZone != "" && RightBelow(h, cfg.keenZone))
    && (if Given(ing, "keenetic.whitediver.com/proxy-name")
        then s.name == ing.annotations["keenetic.whitediver.com/proxy-name"] else FirstOf(h, s.name))
    && TakenFrom(ing, "keenetic.whitediver.com/upstream", s.address, cfg.upstreamAddress)
    && TakenFrom(ing, "keenetic.whitediver.com/security-level", s.level,
                 if cfg.level == "" then "public" else cfg.level)
    && TakenFrom(ing, "keenetic.whitediver.com/upstream-scheme", s.scheme,
                 if tls then "https" else if cfg.upstreamScheme == "" then "http" else cfg.upstreamScheme)
    && (portGiven ==> 1 <= s.port <= 65535 && Denotes(ing.annotations["keenetic.whitediver.com/upstream-port"], s.port))
    && (!portGiven && !schemeGiven && tls ==> s.port == 443)
    && (!portGiven && (schemeGiven || !tls) ==> s.port == if cfg.upstreamPort == 0 then 80 else cfg.upstreamPort)
    && (s.auth <==> Given(ing, "keenetic.whitediver.com/auth") && Yes(ing.annotations["keenetic.whitediver.com/auth"]))
  }

  /** What it takes for the fields to be used at all. */
  predicate Usable(ing: Ingress, s: Spec) {
    && NameOk(s.name) && Ipv4Ok(s.address)
    && (s.scheme == "http" || s.scheme == "https") && (s.level == "public" || s.level == "private")
    && (Given(ing, "keenetic.whitediver.com/auth") ==> Readable(ing, "keenetic.whitediver.com/auth"))
  }

  /** An Ingress asks for exactly this publication of a host. */
  ghost predicate AsksFor(cfg: Config, ing: Ingress, h: string, tls: bool, s: Spec) {
    WantsPublishing(cfg, ing) && ListsHost(ing, h) && SpecFor(cfg, ing, h, tls, s) && Usable(ing, s)
  }

  lemma FirstLabelExactly(h: string, first: string)
    ensures FirstOf(h, first) <==> first == FirstLabel(h)
  {
    var n := IndexOf(h, '.');
    if n < |h| {
      assert h == h[..n] + "." + h[n + 1..];
    } else {
      assert h[..n] == h;
    }
    assert '.' in h <==> n < |h| by { assert h[..|h|] == h; }
    if FirstOf(h, first) && h != first {
      var rest :| h == first + "." + rest;
      assert h == first + ['.'] + rest;
      IndexOfFirst(first, '.', rest);
    }
  }

  lemma PublishesExactly(cfg: Config, ing: Ingress)
    ensures Publishes(cfg, ing) <==> WantsPublishing(cfg, ing)
  {
    hide ParseBool, Yes, No;
    BoolExactly(Ann(ing, PUBLISH));
  }

  lemma ZoneExactly(cfg: Config, h: string)
    ensures InKeenZone(cfg, h) <==> cfg.keenZone != "" && RightBelow(h, cfg.keenZone)
  {
    hide EqualFold;
    RightBelowExactly(h, cfg.keenZone);
    if '.' !in h {
      NoZone(h);
      NoZoneFolds(cfg.keenZone);
    }
  }

  /** Of an annotated port, exactly the numbers from 1 to 65535 are used. */
  lemma AnnotatedPortExactly(ing: Ingress, n: nat)
    ensures AnnotatedPort(ing) == Some(Some(n)) <==>
              && Given(ing, "keenetic.whitediver.com/upstream-port") && 1 <= n <= 65535
              && Denotes(ing.annotations["keenetic.whitediver.com/upstream-port"], n)
    ensures AnnotatedPort(ing) == Some(None) <==> !Given(ing, "keenetic.whitediver.com/upstream-port")
  {
    hide ParseInt, Denotes;
    if 1 <= n <= 65535 { PortExactly(Ann(ing, UPSTREAM_PORT), n); }
  }

  lemma SpecDescribed(cfg: Config, ing: Ingress, h: string, tls: bool)
    requires WebAppSpec(cfg, ing, h, tls).Some?
    ensures var s := WebAppSpec(cfg, ing, h, tls).value;
            SpecFor(cfg, ing, h, tls, s) && Usable(ing, s)
  {
    hide NameOk, Ipv4Ok, ParseBool, ParseInt, InKeenZone, RightBelow, Denotes;
    hide FirstOf, FirstLabel, AnnotatedPort, Yes, No;
    FirstLabelExactly(h, WebAppSpec(cfg, ing, h, tls).value.name);
    ZoneExactly(cfg, h);
    BoolExactly(Ann(ing, AUTH));
    BoolReadable(Ann(ing, AUTH));
    PortRange(ing);
    var port := AnnotatedPort(ing);
    if port.Some? && port.value.Some? { AnnotatedPortExactly(ing, port.value.value); }
    AnnotatedPortExactly(ing, 0);
  }

  lemma DescribedDerived(cfg: Config, ing: Ingress, h: string, tls: bool, s: Spec)
    requires SpecFor(cfg, ing, h, tls, s) && Usable(ing, s)
    ensures WebAppSpec(cfg, ing, h, tls) == Some(s)
  {
    hide NameOk, Ipv4Ok, ParseBool, ParseInt, InKeenZone, RightBelow, Denotes;
    hide FirstOf, FirstLabel, AnnotatedPort, Yes, No;
    FirstLabelExactly(h, s.name);
    ZoneExactly(cfg, h);
    BoolExactly(Ann(ing, AUTH));
    BoolReadable(Ann(ing, AUTH));
    if 0 <= s.port { AnnotatedPortExactly(ing, s.port); }
    AnnotatedPortExactly(ing, 0);
  }

  /** The publication derived for a host is the one the annotations and defaults describe, if usable. */
  lemma SpecExactly(cfg: Config, ing: Ingress, h: string, tls: bool, s: Spec)
    ensures WebAppSpec(cfg, ing, h, tls) == Some(s) <==> SpecFor(cfg, ing, h, tls, s) && Usable(ing, s)
  {
    hide WebAppSpec, SpecFor, Usable;
    if WebAppSpec(cfg, ing, h, tls).Some? { SpecDescribed(cfg, ing, h, tls); }
    if SpecFor(cfg, ing, h, tls, s) && Usable(ing, s) { DescribedDerived(cfg, ing, h, tls, s); }
  }

  lemma PortRange(ing: Ingress)
    ensures AnnotatedPort(ing).Some? && AnnotatedPort(ing).value.Some? ==> 1 <= AnnotatedPort(ing).value.value <= 65535
  {
    hide ParseInt;
  }

  /** An Ingress's wish is what it asks for. */
  lemma WishExactly(cfg: Config, ing: Ingress, h: string, tls: bool, s: Spec)
    ensures Wanted(cfg, ing, h, tls) == Some(s) <==> AsksFor(cfg, ing, h, tls, s)
  {
    hide WebAppSpec, Publishes, HostsOf, WantsPublishing, ListsHost, SpecFor, Usable;
    SpecExactly(cfg, ing, h, tls, s);
    PublishesExactly(cfg, ing);
    ListsHostExactly(ing, h);
  }

  /** A publication is collected for a host exactly when some Ingress asks for it. */
  lemma CollectedExactly(cfg: Config, items: seq<Ingress>, h: string, tls: bool, s: Spec)
    ensures s in SpecView(cfg, items, h, tls) <==> exists ing <- items :: AsksFor(cfg, ing, h, tls, s)
  {
    hide Wanted, AsksFor;
    forall ing: Ingress ensures Wanted(cfg, ing, h, tls) == Some(s) <==> AsksFor(cfg, ing, h, tls, s) {
      WishExactly(cfg, ing, h, tls, s);
    }
    if ing :| ing in items && AsksFor(cfg, ing, h, tls, s) {
      assert Wanted(cfg, ing, h, tls).value == s;
    }
  }

  /** The collecting loop, in those terms. */
  method CollectPublications(cfg: Config, items: seq<Ingress>, everyone: seq<Ingress>)
    returns (byHost: map<string, seq<Spec>>)
    ensures forall h, s :: s in ListAt(byHost, h) <==>
              exists ing <- items :: AsksFor(cfg, ing, h, exists x <- everyone :: ListsHost(x, h) && ServesTls(x, h), s)
    ensures forall h, i, j | 0 <= i < j < |ListAt(byHost, h)| :: ListAt(byHost, h)[i] != ListAt(byHost, h)[j]
  {
    hide AsksFor, SpecView, TlsView, TlsOf, ListsHost, ServesTls;
    var tls := HostsRequiringTls(everyone);
    byHost := WebAppSpecsByHost(cfg, items, tls);
    forall h ensures TlsOf(tls, h) <==> exists x <- everyone :: ListsHost(x, h) && ServesTls(x, h) {
      TlsViewExactly(everyone, h);
    }
    forall h, s
      ensures s in ListAt(byHost, h) <==>
              exists ing <- items :: AsksFor(cfg, ing, h, exists x <- everyone :: ListsHost(x, h) && ServesTls(x, h), s)
    {
      CollectedExactly(cfg, items, h, TlsOf(tls, h), s);
    }
  }

  lemma TlsViewExactly(items: seq<Ingress>, h: string)
    ensures TlsView(items, h) <==> exists x <- items :: ListsHost(x, h) && ServesTls(x, h)
  {
    hide HostsOf, RequiresTls, ListsHost, ServesTls;
    forall x: Ingress ensures h in HostsOf(x) <==> ListsHost(x, h) { ListsHostExactly(x, h); }
    forall x: Ingress ensures RequiresTls(x, h) <==> ServesTls(x, h) { TlsExactly(x, h); }
  }

  // ----- what comes of it -----

  /**
   * What a namespace has settled on for a host, after any pass over its Ingresses, is what one of them
   * asks for, with TLS taken over the whole cluster, and what nobody contradicts.
   */
  lemma PublishedAsAnnotated(cfg: Config, ings: Namespace, everyone: set<Ingress>, order: seq<Owner>,
                             s: Store<Spec>, h: string, i: Owner)
    requires forall k <- s :: s[k].owners <= ings.Keys
    requires forall j :: j in order <==> j in ings
    ensures var done := Pass(WebClaims(cfg, ings, everyone), order, s);
            var tls := exists x <- everyone :: ListsHost(x, h) && ServesTls(x, h);
            Settled(WebClaims(cfg, ings, everyone), h) && i in ings ==>
              && h in done
              && (exists j <- ings :: AsksFor(cfg, ings[j], h, tls, done[h].value))
              && (forall v | AsksFor(cfg, ings[i], h, tls, v) :: v == done[h].value)
  {
    hide Pass, Settled, WebClaims, Stable, AsksFor, ListsHost, ServesTls, NeedsTls, Agreed;
    var c := WebClaims(cfg, ings, everyone);
    WebOwners(cfg, ings, everyone);
    AnyPassStabilises(c, order, s);
    ClusterTlsExactly(everyone, h);
    if Settled(c, h) && i in ings {
      var done := Pass(c, order, s);
      var j := StableValue(c, done, h);
      OfferIsWish(cfg, ings, everyone, j, h, done[h].value);
      forall v | AsksFor(cfg, ings[i], h, NeedsTls(everyone, h), v) ensures v == done[h].value {
        OfferIsWish(cfg, ings, everyone, i, h, v);
        OnlyOffer(c, done, i, h, v);
      }
    }
  }

  lemma OfferIsWish(cfg: Config, ings: Namespace, everyone: set<Ingress>, i: Owner, h: string, v: Spec)
    requires i in ings
    ensures var c := WebClaims(cfg, ings, everyone);
            i in c && (h in c[i] && c[i][h] == Some(v) <==> AsksFor(cfg, ings[i], h, NeedsTls(everyone, h), v))
  {
    hide AsksFor, NeedsTls, HostsOf, WebAppSpec, Publishes;
    WishExactly(cfg, ings[i], h, NeedsTls(everyone, h), v);
  }

  lemma OnlyOffer<V>(c: Claims<V>, s: Store<V>, i: Owner, h: Key, v: V)
    requires Stable(c, s) && Settled(c, h) && i in c && h in c[i] && c[i][h] == Some(v)
    ensures h in s && s[h].value == v
  {
    hide Settled;
    assert v in Votes(c, h);
    assert v in {s[h].value};
  }
}
