/**
 * The reconcile of Ingresses: how what they say becomes claims on shared records and publications,
 * and what follows for whole namespaces and for hosts that several namespaces serve.
 */
module IngressReconcile {
  import opened Text
  import opened Validation
  import opened RouterCli
  import opened Specs
  import opened SharedOwnership
  import opened IngressSource

  /** The Ingresses of one namespace, by name. */
  type Namespace = map<Owner, Ingress>

  function Offer(cfg: Config, ing: Ingress): Option<string> {
    if AddressFor(cfg, ing) == "" then None else Some(AddressFor(cfg, ing))
  }

  /** Each Ingress declares its hosts, with an address as soon as it has one. */
  function HostClaims(cfg: Config, ings: Namespace): Claims<string> {
    map i | i in ings :: map h | h in HostsOf(ings[i]) :: Offer(cfg, ings[i])
  }

  /** Whether some Ingress of the whole cluster serves the host over TLS. */
  predicate NeedsTls(everyone: set<Ingress>, h: string) {
    exists ing <- everyone :: h in HostsOf(ing) && RequiresTls(ing, h)
  }

  /** Each Ingress declares the hosts for which it has a usable publication. */
  function WebClaims(cfg: Config, ings: Namespace, everyone: set<Ingress>): Claims<Spec> {
    map i | i in ings :: Publications(cfg, ings[i], everyone)
  }

  function Publications(cfg: Config, ing: Ingress, everyone: set<Ingress>): map<Key, Option<Spec>> {
    map h | h in HostsOf(ing) && Wanted(cfg, ing, h, NeedsTls(everyone, h)).Some?
      :: Wanted(cfg, ing, h, NeedsTls(everyone, h))
  }

  // ----- the views are the votes -----

  ghost predicate SameIngresses(items: seq<Ingress>, s: set<Ingress>) { forall x :: x in items <==> x in s }

  lemma AddressesAreVotes(cfg: Config, ings: Namespace, items: seq<Ingress>, h: string)
    requires SameIngresses(items, ings.Values)
    ensures AddressView(cfg, items, h) == Votes(HostClaims(cfg, ings), h)
  {
    hide AddressFor, HostsOf;
    var c := HostClaims(cfg, ings);
    forall a | a in AddressView(cfg, items, h) ensures a in Votes(c, h) {
      var ing :| ing in items && AddressFor(cfg, ing) == a && a != "" && h in HostsOf(ing);
      var i :| i in ings && ings[i] == ing;
      assert i in c && h in c[i] && c[i][h] == Some(a);
    }
    forall a | a in Votes(c, h) ensures a in AddressView(cfg, items, h) {
      var i :| i in c && h in c[i] && c[i][h] == Some(a);
      assert ings[i] in items;
    }
  }

  lemma SpecsAreVotes(cfg: Config, ings: Namespace, everyone: set<Ingress>, items: seq<Ingress>, h: string)
    requires SameIngresses(items, ings.Values)
    ensures SpecView(cfg, items, h, NeedsTls(everyone, h)) == Votes(WebClaims(cfg, ings, everyone), h)
  {
    hide WebAppSpec, HostsOf, NeedsTls, Publishes;
    var c, t := WebClaims(cfg, ings, everyone), NeedsTls(everyone, h);
    forall v | v in SpecView(cfg, items, h, t) ensures v in Votes(c, h) {
      var ing :| ing in items && Wanted(cfg, ing, h, t) == Some(v);
      var i :| i in ings && ings[i] == ing;
      assert i in c && h in c[i] && c[i][h] == Some(v);
    }
    forall v | v in Votes(c, h) ensures v in SpecView(cfg, items, h, t) {
      var i :| i in c && h in c[i] && c[i][h] == Some(v);
      assert ings[i] in items;
    }
  }

  // ----- the reconcile -----

  class Reconciler {
    const cfg: Config
    var ingresses: Namespace
    /** Ingresses of every other namespace. */
    var others: Namespace
    const records: SharedStore<string>
    const apps: SharedStore<Spec>

    constructor (cfg: Config, ingresses: Namespace, others: Namespace, records: SharedStore<string>, apps: SharedStore<Spec>)
      ensures this.cfg == cfg && this.ingresses == ingresses && this.others == others
      ensures this.records == records && this.apps == apps
    {
      this.cfg, this.ingresses, this.others, this.records, this.apps := cfg, ingresses, others, records, apps;
    }

    ghost function Everyone(): set<Ingress>
      reads this
    {
      ingresses.Values + others.Values
    }

    /** One reconcile of Ingress i; the API refuses to touch the objects of `badRecords` and `badApps`. */
    method Reconcile(i: Owner, badRecords: set<Key>, badApps: set<Key>)
      returns (requeue: bool, ok: bool, ghost doneRecords: set<Key>, ghost doneApps: set<Key>)
      modifies records, apps
      ensures records.recs == CutShort(HostClaims(cfg, ingresses), i, old(records.recs), doneRecords)
      ensures apps.recs == CutShort(WebClaims(cfg, ingresses, Everyone()), i, old(apps.recs), doneApps)
      ensures ok ==> records.recs == Reconciled(HostClaims(cfg, ingresses), i, old(records.recs))
      ensures ok ==> apps.recs == Reconciled(WebClaims(cfg, ingresses, Everyone()), i, old(apps.recs))
      ensures ok ==> (requeue <==> AnyOpen(HostClaims(cfg, ingresses), i)
                                   || AnyOpen(WebClaims(cfg, ingresses, Everyone()), i))
      ensures badRecords == badApps == {} ==> ok
    {
      hide Reconciled, CutShort, Lists, Votes, AddressView, AnyOpen, HostsOf, WebClaims, TlsView, NeedsTls;
      ghost var c := HostClaims(cfg, ingresses);
      requeue, ok, doneRecords, doneApps := false, true, {}, {};
      NothingDone(c, i, records.recs);
      NothingDone(WebClaims(cfg, ingresses, Everyone()), i, apps.recs);
      WebOwners(cfg, ingresses, Everyone());
      if i !in ingresses {
        NoneOpen(c, i);
        NoneOpen(WebClaims(cfg, ingresses, Everyone()), i);
        return;
      }
      var desired := DesiredHosts(ingresses[i]);
      var items := List(ingresses);
      var addresses := AddressesByHost(cfg, items);
      forall h { AddressesAreVotes(cfg, ingresses, items, h); }
      requeue, ok, doneRecords := records.Reconcile(c, i, desired, addresses, badRecords);
      OpenKeys(c, i);
      if ok {
        var webDeferred;
        webDeferred, ok, doneApps := ReconcileWebApps(i, desired, badApps);
        requeue := requeue || webDeferred;
      }
    }

    /** The publications of Ingress i. */
    method ReconcileWebApps(i: Owner, hosts: set<string>, bad: set<Key>)
      returns (deferred: bool, ok: bool, ghost done: set<Key>)
      requires i in ingresses && hosts == HostsOf(ingresses[i])
      modifies apps
      ensures apps.recs == CutShort(WebClaims(cfg, ingresses, Everyone()), i, old(apps.recs), done)
      ensures ok ==> apps.recs == Reconciled(WebClaims(cfg, ingresses, Everyone()), i, old(apps.recs))
      ensures ok ==> (deferred <==> AnyOpen(WebClaims(cfg, ingresses, Everyone()), i))
      ensures bad == {} ==> ok
    {
      hide Reconciled, CutShort, Lists, Votes, SpecView, AnyOpen, HostsOf, TlsView, NeedsTls, Publications, TlsOf;
      ghost var c := WebClaims(cfg, ingresses, Everyone());
      var items := List(ingresses);
      var elsewhere := List(others);
      var tls := HostsRequiringTls(items + elsewhere);
      forall h ensures TlsOf(tls, h) <==> NeedsTls(Everyone(), h) { ClusterTls(items, elsewhere, Everyone(), h); }
      var mine := Mine(cfg, ingresses[i], hosts, tls, Everyone());
      var specs := WebAppSpecsByHost(cfg, items, tls);
      forall h ensures Lists(ListAt(specs, h), Votes(c, h)) {
        SpecsAreVotes(cfg, ingresses, Everyone(), items, h);
        assert TlsOf(tls, h) == NeedsTls(Everyone(), h);
      }
      deferred, ok, done := apps.Reconcile(c, i, mine, specs, bad);
      OpenKeys(c, i);
    }
  }

  /** A key of this owner whose value is not settled. */
  ghost predicate Open<V>(c: Claims<V>, i: Owner, h: Key) { Declares(c, i, h) && !Settled(c, h) }

  /** Whether this owner has to come back because some key of its is left open. */
  ghost predicate AnyOpen<V>(c: Claims<V>, i: Owner) { exists h: Key :: Open(c, i, h) }

  lemma OpenKeys<V>(c: Claims<V>, i: Owner)
    requires i in c
    ensures (exists h <- c[i].Keys :: !Settled(c, h)) <==> AnyOpen(c, i)
  {
    hide Settled;
    if h :| h in c[i].Keys && !Settled(c, h) { assert Open(c, i, h); }
  }

  lemma NoneOpen<V>(c: Claims<V>, i: Owner)
    requires i !in c
    ensures !AnyOpen(c, i)
  {}

  lemma WebOwners(cfg: Config, ings: Namespace, everyone: set<Ingress>)
    ensures WebClaims(cfg, ings, everyone).Keys == ings.Keys
  {}

  lemma NothingDone<V>(c: Claims<V>, i: Owner, s: Store<V>)
    ensures CutShort(c, i, s, {}) == s
    ensures i !in c ==> Reconciled(c, i, s) == s
  {
    forall h ensures At(CutShort(c, i, s, {}), h) == At(s, h) { CutShortAt(c, i, s, {}, h); }
    SameStore(CutShort(c, i, s, {}), s);
  }

  method List(ings: Namespace) returns (items: seq<Ingress>)
    ensures SameIngresses(items, ings.Values)
  {
    items := [];
    var rest := ings.Keys;
    while rest != {}
      invariant rest <= ings.Keys
      invariant forall x <- items :: x in ings.Values
      invariant forall i | i in ings :: i in rest || ings[i] in items
    {
      var i :| i in rest;
      items, rest := items + [ings[i]], rest - {i};
    }
  }

  method DesiredHosts(ing: Ingress) returns (desired: set<string>)
    ensures desired == HostsOf(ing)
  {
    hide Lower, HostsIn;
    desired := {};
    NoHosts(ing.hosts);
    for j := 0 to |ing.hosts|
      invariant desired == HostsIn(ing.hosts[..j])
    {
      HostsSnoc(ing.hosts, j);
      if ing.hosts[j] != "" { desired := desired + {Lower(ing.hosts[j])}; }
    }
    assert ing.hosts[..|ing.hosts|] == ing.hosts;
  }

  /** The hosts this Ingress wants published. */
  method Mine(cfg: Config, ing: Ingress, desired: set<string>, tls: map<string, bool>, ghost everyone: set<Ingress>)
    returns (mine: set<string>)
    requires desired == HostsOf(ing)
    requires forall h :: TlsOf(tls, h) <==> NeedsTls(everyone, h)
    ensures mine == Publications(cfg, ing, everyone).Keys
  {
    hide WebAppSpec, Publishes, HostsOf, NeedsTls, TlsOf;
    mine := {};
    if Publishes(cfg, ing) {
      var rest := desired;
      while rest != {}
        invariant rest <= desired
        invariant mine == set h | h in desired - rest && WebAppSpec(cfg, ing, h, NeedsTls(everyone, h)).Some?
      {
        var h :| h in rest;
        if WebAppSpec(cfg, ing, h, TlsOf(tls, h)).Some? { mine := mine + {h}; }
        rest := rest - {h};
      }
    }
  }

  lemma ClusterTls(items: seq<Ingress>, elsewhere: seq<Ingress>, everyone: set<Ingress>, h: string)
    requires forall x :: x in everyone <==> x in items || x in elsewhere
    ensures TlsView(items + elsewhere, h) <==> NeedsTls(everyone, h)
  {
    hide HostsOf, RequiresTls;
    if NeedsTls(everyone, h) {
      var x :| x in everyone && h in HostsOf(x) && RequiresTls(x, h);
      assert x in items + elsewhere;
    }
  }

  // ----- whole namespaces -----

  /** Some Ingress has this address for the host, and none has another. */
  ghost predicate OnlyAddress(cfg: Config, ings: Namespace, h: string, a: string) {
    && a != ""
    && (exists i <- ings :: h in HostsOf(ings[i]) && AddressFor(cfg, ings[i]) == a)
    && (forall i <- ings | h in HostsOf(ings[i]) && AddressFor(cfg, ings[i]) != "" :: AddressFor(cfg, ings[i]) == a)
  }

  lemma OnlyAddressIsAgreed(cfg: Config, ings: Namespace, h: string, a: string)
    ensures OnlyAddress(cfg, ings, h, a) <==> Agreed(HostClaims(cfg, ings), h, a)
  {
    hide AddressFor, HostsOf;
    var c := HostClaims(cfg, ings);
    forall i, b ensures i in ings && h in HostsOf(ings[i]) && AddressFor(cfg, ings[i]) == b && b != ""
                   <==> i in c && h in c[i] && c[i][h] == Some(b) {}
    if OnlyAddress(cfg, ings, h, a) {
      var i :| i in ings && h in HostsOf(ings[i]) && AddressFor(cfg, ings[i]) == a;
      assert i in c && h in c[i] && c[i][h] == Some(a);
    }
    if Agreed(c, h, a) {
      assert a in Votes(c, h);
      forall i | i in ings && h in HostsOf(ings[i]) && AddressFor(cfg, ings[i]) != "" ensures AddressFor(cfg, ings[i]) == a {
        assert i in c && h in c[i] && c[i][h] == Some(AddressFor(cfg, ings[i]));
        assert AddressFor(cfg, ings[i]) in Votes(c, h);
      }
    }
  }

  function DeclaringIngresses(ings: Namespace, h: string): set<Owner> { set i | i in ings && h in HostsOf(ings[i]) }

  /** Made by hand: it has no owner, and no Ingress lists its host. */
  predicate HandMade(ings: Namespace, s: Store<string>, h: string) {
    h in s && s[h].owners == {} && DeclaringIngresses(ings, h) == {}
  }

  /** What the records of a namespace look like once all is settled, given what they were before. */
  ghost predicate HostsSettled(cfg: Config, ings: Namespace, before: Store<string>, s: Store<string>) {
    && (forall h <- s :: s[h].owners == DeclaringIngresses(ings, h))
    && (forall h <- s :: s[h].owners != {} || HandMade(ings, before, h))
    && (forall h | HandMade(ings, before, h) :: h in s && s[h] == before[h])
    && (forall h, a | OnlyAddress(cfg, ings, h, a) :: h in s && s[h].value == a)
  }

  /**
   * With Ingresses fixed, reconciling each of them in whatever order leaves every host with one
   * address a record at it, owned by exactly the Ingresses that list the host. A record of a host
   * nobody lists is gone, unless it was made by hand: then it is untouched. Nothing is left for any
   * later pass in any order to rewrite.
   */
  lemma HostsConverge(cfg: Config, ings: Namespace, order: seq<Owner>, again: seq<Owner>, s: Store<string>)
    requires forall h <- s :: s[h].owners <= ings.Keys
    requires forall i :: i in order <==> i in ings
    ensures var done := Pass(HostClaims(cfg, ings), order, s);
            HostsSettled(cfg, ings, s, done) && Pass(HostClaims(cfg, ings), again, done) == done
  {
    hide HostsOf, Pass, Settled, Agreed, OnlyAddress;
    var c := HostClaims(cfg, ings);
    var done := Pass(c, order, s);
    var free := set h | h in s && s[h].owners == {};
    forall h ensures Declarers(c, h) == DeclaringIngresses(ings, h) {}
    AnyPassStabilises(c, order, s);
    PassKeepsOwned(c, order, s, free);
    forall h | HandMade(ings, s, h) ensures h in done && done[h] == s[h] { PassSkips(c, order, s, h); }
    StableForever(c, again, done);
    forall h, a | OnlyAddress(cfg, ings, h, a) ensures h in done && done[h].value == a {
      OnlyAddressIsAgreed(cfg, ings, h, a);
      AgreedIsSettled(c, h, a);
      AgreedOnce(c, h, a, done[h].value);
    }
  }

  lemma AgreedOnce<V>(c: Claims<V>, h: Key, a: V, b: V)
    requires Agreed(c, h, a) && Agreed(c, h, b)
    ensures a == b
  {
    assert a in {b};
  }

  /** Only these records may be without an owner. */
  ghost predicate Owned<V>(s: Store<V>, free: set<Key>) { forall h <- s :: s[h].owners != {} || h in free }

  lemma {:induction false} PassKeepsOwned<V>(c: Claims<V>, order: seq<Owner>, s: Store<V>, free: set<Key>)
    requires Owned(s, free)
    ensures Owned(Pass(c, order, s), free)
    decreases |order|
  {
    if order != [] {
      StepKeepsOwned(c, order[0], s, free);
      PassKeepsOwned(c, order[1..], Reconciled(c, order[0], s), free);
    }
  }

  /** A reconcile never leaves a record behind that it has taken the last owner from. */
  lemma StepKeepsOwned<V>(c: Claims<V>, i: Owner, s: Store<V>, free: set<Key>)
    requires Owned(s, free)
    ensures Owned(Reconciled(c, i, s), free)
  {
    hide Settled;
    var s' := Reconciled(c, i, s);
    forall h | h in s' ensures s'[h].owners != {} || h in free {
      ReconciledAt(c, i, s, h);
      assert At(s', h) == Some(s'[h]);
      if i in c && h in c[i] { assert i in s'[h].owners; }
    }
  }

  /** A record that has no owner and that nobody declares is passed over. */
  lemma {:induction false} PassSkips<V>(c: Claims<V>, order: seq<Owner>, s: Store<V>, h: Key)
    requires h in s && s[h].owners == {} && Declarers(c, h) == {}
    ensures h in Pass(c, order, s) && Pass(c, order, s)[h] == s[h]
    decreases |order|
  {
    hide Reconciled;
    if order != [] {
      var s' := Reconciled(c, order[0], s);
      ReconciledAt(c, order[0], s, h);
      assert order[0] in Declarers(c, h) <==> order[0] in c && h in c[order[0]];
      assert At(s', h) == At(s, h);
      PassSkips(c, order[1..], s', h);
    }
  }

  /**
   * What a namespace has settled on for publication is never turned down by the actuator that shares
   * its zone, as long as hosts have a second label.
   */
  lemma PublicationsAccepted(cfg: Config, ings: Namespace, everyone: set<Ingress>, order: seq<Owner>,
                             s: Store<Spec>, h: string)
    requires forall k <- s :: s[k].owners <= ings.Keys
    requires forall i :: i in order <==> i in ings
    requires 0 <= cfg.upstreamPort <= 65535 && HostnameOk(h) && '.' in h
    ensures var c := WebClaims(cfg, ings, everyone);
            var done := Pass(c, order, s);
            Settled(c, h) ==>
              && h in done && done[h].owners == Declarers(c, h) != {}
              && done[h].value.domain == h
              && !Refused(ProxyFromSpec(done[h].value), cfg.keenZone)
  {
    hide Pass, Settled, Refused, ProxyFromSpec, HostnameOk, WebClaims, Stable;
    var c := WebClaims(cfg, ings, everyone);
    WebOwners(cfg, ings, everyone);
    AnyPassStabilises(c, order, s);
    if Settled(c, h) {
      var i := StableValue(c, Pass(c, order, s), h);
      OfferAccepted(cfg, ings, everyone, i, h);
    }
  }

  /** The value of a settled key is one that some owner offers. */
  lemma StableValue<V>(c: Claims<V>, s: Store<V>, h: Key) returns (i: Owner)
    requires Stable(c, s) && Settled(c, h)
    ensures h in s && s[h].owners == Declarers(c, h) != {}
    ensures i in c && h in c[i] && c[i][h] == Some(s[h].value)
  {
    hide Settled;
    SettledHasDeclarer(c, h);
    assert s[h].value in Votes(c, h);
    i :| i in c && h in c[i] && c[i][h] == Some(s[h].value);
  }

  lemma OfferAccepted(cfg: Config, ings: Namespace, everyone: set<Ingress>, i: Owner, h: string)
    requires var c := WebClaims(cfg, ings, everyone); i in c && h in c[i]
    requires 0 <= cfg.upstreamPort <= 65535 && HostnameOk(h) && '.' in h
    ensures var v := WebClaims(cfg, ings, everyone)[i][h];
            v.Some? && v.value.domain == h && !Refused(ProxyFromSpec(v.value), cfg.keenZone)
  {
    hide HostsOf, Refused, ProxyFromSpec, HostnameOk, Publishes, NeedsTls;
    SpecAccepted(cfg, ings[i], h, NeedsTls(everyone, h));
    SpecDomain(cfg, ings[i], h, NeedsTls(everyone, h));
  }

  lemma SpecDomain(cfg: Config, ing: Ingress, h: string, needsTls: bool)
    requires WebAppSpec(cfg, ing, h, needsTls).Some?
    ensures WebAppSpec(cfg, ing, h, needsTls).value.domain == h
  {
    hide ParseBool, AnnotatedPort, NameOk, Ipv4Ok, InKeenZone;
  }

  /**
   * An Ingress finds its own publication among those compared, so a host left open has two Ingresses
   * that really ask for different things.
   */
  lemma DisagreementIsReal(cfg: Config, ings: Namespace, everyone: set<Ingress>, i: Owner, h: string)
    requires Declares(WebClaims(cfg, ings, everyone), i, h)
    ensures var t := NeedsTls(everyone, h);
            !Settled(WebClaims(cfg, ings, everyone), h)
            <==> exists j <- ings :: Wanted(cfg, ings[j], h, t).Some? && Wanted(cfg, ings[j], h, t) != Wanted(cfg, ings[i], h, t)
  {
    hide WebAppSpec, HostsOf, NeedsTls, Publishes;
    var c, t := WebClaims(cfg, ings, everyone), NeedsTls(everyone, h);
    var v := Wanted(cfg, ings[i], h, t).value;
    assert v in Votes(c, h);
    if j :| j in ings && Wanted(cfg, ings[j], h, t).Some? && Wanted(cfg, ings[j], h, t).value != v {
      assert j in c && h in c[j];
      assert Wanted(cfg, ings[j], h, t).value in Votes(c, h);
      if Settled(c, h) { OnlyMember(Votes(c, h), v); }
    } else {
      assert Votes(c, h) == {v};
    }
  }

  // ----- hosts that several namespaces serve -----

  /** Every Ingress that serves the host carries these annotations. */
  predicate AnnotatedAlike(ings: Namespace, h: string, annotations: map<string, string>) {
    forall i <- ings | h in HostsOf(ings[i]) :: ings[i].annotations == annotations
  }

  /**
   * Ingresses of different namespaces with the same annotations settle on the same publication for a
   * host they share, whichever of them carries TLS: their objects never overwrite each other's entry.
   */
  lemma NamespacesAgree(cfg: Config, a: Namespace, b: Namespace, everyone: set<Ingress>, h: string,
                        annotations: map<string, string>, i: Owner, j: Owner)
    requires AnnotatedAlike(a, h, annotations) && AnnotatedAlike(b, h, annotations)
    ensures var x, y := WebClaims(cfg, a, everyone), WebClaims(cfg, b, everyone);
            Declares(x, i, h) && Declares(y, j, h)
            ==> Settled(x, h) && Settled(y, h) && TheVote(x, h) == TheVote(y, h)
  {
    hide HostsOf, NeedsTls, Settled, TheVote, Wanted, Declares, WebClaims;
    if Declares(WebClaims(cfg, a, everyone), i, h) && Declares(WebClaims(cfg, b, everyone), j, h) {
      DeclarerWants(cfg, a, everyone, i, h);
      DeclarerWants(cfg, b, everyone, j, h);
      AlikeSettles(cfg, a, everyone, h, annotations, a[i]);
      AlikeSettles(cfg, b, everyone, h, annotations, b[j]);
      AlikeWants(cfg, a[i], b[j], h, NeedsTls(everyone, h));
    }
  }

  lemma DeclarerWants(cfg: Config, ings: Namespace, everyone: set<Ingress>, i: Owner, h: string)
    requires Declares(WebClaims(cfg, ings, everyone), i, h)
    ensures i in ings && h in HostsOf(ings[i]) && Wanted(cfg, ings[i], h, NeedsTls(everyone, h)).Some?
  {
    hide HostsOf, NeedsTls, Wanted;
  }

  lemma AlikeSettles(cfg: Config, ings: Namespace, everyone: set<Ingress>, h: string,
                     annotations: map<string, string>, one: Ingress)
    requires AnnotatedAlike(ings, h, annotations) && one in ings.Values
    requires h in HostsOf(one) && Wanted(cfg, one, h, NeedsTls(everyone, h)).Some?
    ensures var c := WebClaims(cfg, ings, everyone);
            Settled(c, h) && TheVote(c, h) == Wanted(cfg, one, h, NeedsTls(everyone, h)).value
  {
    hide HostsOf, NeedsTls, Publishes, WebAppSpec;
    var c, t := WebClaims(cfg, ings, everyone), NeedsTls(everyone, h);
    var v := Wanted(cfg, one, h, t).value;
    var i :| i in ings && ings[i] == one;
    assert i in c && h in c[i] && c[i][h] == Some(v);
    forall w | w in Votes(c, h) ensures w == v {
      var j :| j in c && h in c[j] && c[j][h] == Some(w);
      AlikeWants(cfg, one, ings[j], h, t);
    }
    assert Votes(c, h) == {v};
    AgreedIsSettled(c, h, v);
    AgreedOnce(c, h, v, TheVote(c, h));
  }

  /**
   * That another Ingress starts or stops serving the host over TLS takes a publication away exactly
   * when no usable scheme is left for plain traffic.
   */
  lemma TlsNeverUnpublishes(cfg: Config, ing: Ingress, h: string)
    ensures Wanted(cfg, ing, h, false).Some? ==> Wanted(cfg, ing, h, true).Some?
    ensures Wanted(cfg, ing, h, true).Some? ==>
              (Wanted(cfg, ing, h, false).Some? <==>
               Ann(ing, UPSTREAM_SCHEME) != "" || cfg.upstreamScheme in {"", "http", "https"})
  {
    hide HostsOf, ParseBool, ParseInt, NameOk, Ipv4Ok, InKeenZone;
  }

  // ----- runs -----

  /** A reconcile, one cut short, any edit of this or other namespaces, or a garbage collection. */
  datatype Event =
    | Reconcile(i: Owner)
    | Cut(i: Owner, done: set<Key>)
    | Edit(ings: Namespace, everyone: set<Ingress>)
    | Collect

  function HostStep(cfg: Config, e: Event): Step<string> {
    match e
    case Reconcile(i) => Step.Reconcile(i)
    case Cut(i, done) => Step.Cut(i, done)
    case Edit(ings, _) => Step.Change(HostClaims(cfg, ings))
    case Collect => Step.Collect
  }

  function WebStep(cfg: Config, e: Event): Step<Spec> {
    match e
    case Reconcile(i) => Step.Reconcile(i)
    case Cut(i, done) => Step.Cut(i, done)
    case Edit(ings, everyone) => Step.Change(WebClaims(cfg, ings, everyone))
    case Collect => Step.Collect
  }

  function HostSteps(cfg: Config, run: seq<Event>): seq<Step<string>> {
    seq(|run|, k requires 0 <= k < |run| => HostStep(cfg, run[k]))
  }

  function WebSteps(cfg: Config, run: seq<Event>): seq<Step<Spec>> {
    seq(|run|, k requires 0 <= k < |run| => WebStep(cfg, run[k]))
  }

  /** Whatever happens to others, this Ingress stays and lists the host. */
  predicate GoesOnListing(run: seq<Event>, i: Owner, h: string) {
    forall e <- run | e.Edit? :: i in e.ings && h in HostsOf(e.ings[i])
  }

  /**
   * The record of a host outlives every run in which one Ingress that owns it goes on listing the
   * host; its address becomes only one that at some moment was the sole address claimed.
   */
  lemma HostRecordSurvives(cfg: Config, ings: Namespace, s: Store<string>, run: seq<Event>, i: Owner, h: string)
    requires i in ings && h in HostsOf(ings[i]) && h in s && i in s[h].owners
    requires GoesOnListing(run, i, h)
    ensures var st := State(HostClaims(cfg, ings), s);
            var end := Run(st, HostSteps(cfg, run)).store;
            && h in end && i in end[h].owners
            && (end[h].value == s[h].value || exists c :: InForce(st, HostSteps(cfg, run), c) && Agreed(c, h, end[h].value))
  {
    hide HostsOf, Run, InForce, Agreed, AddressFor;
    var st, steps := State(HostClaims(cfg, ings), s), HostSteps(cfg, run);
    forall step | step in steps ensures KeepsDeclaring(step, i, h) {
      var k :| 0 <= k < |steps| && steps[k] == step;
      assert run[k] in run;
    }
    assert Holds(st, i, h);
    RecordSurvives(st, steps, i, h);
  }

  /**
   * A publication outlives every run in which one Ingress that owns it is left as it is, even while
   * other namespaces change which hosts are served over TLS.
   */
  lemma PublicationSurvives(cfg: Config, ings: Namespace, everyone: set<Ingress>, s: Store<Spec>, run: seq<Event>,
                            i: Owner, h: string)
    requires Holds(State(WebClaims(cfg, ings, everyone), s), i, h)
    requires forall e <- run | e.Edit? :: i in e.ings && e.ings[i] == ings[i]
    requires Ann(ings[i], UPSTREAM_SCHEME) != "" || cfg.upstreamScheme in {"", "http", "https"}
    ensures var end := Run(State(WebClaims(cfg, ings, everyone), s), WebSteps(cfg, run)).store;
            h in end && i in end[h].owners
  {
    hide HostsOf, Run, Publishes, WebAppSpec, NeedsTls, Ann;
    var st, steps := State(WebClaims(cfg, ings, everyone), s), WebSteps(cfg, run);
    TlsNeverUnpublishes(cfg, ings[i], h);
    forall step | step in steps ensures KeepsDeclaring(step, i, h) {
      var k :| 0 <= k < |steps| && steps[k] == step;
      assert run[k] in run;
    }
    RecordSurvives(st, steps, i, h);
  }
}
