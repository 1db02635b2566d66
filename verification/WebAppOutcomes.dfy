/**
 * What a publication object comes to when nothing fails: which objects are accepted, what its entry
 * on the router then says, and how the object and its names are left, case by case.
 */
module WebAppOutcomes {
  import opened Text
  import opened Validation
  import opened Proxies
  import opened RunningConfig
  import opened RouterCli
  import opened Specs
  import opened WebApps
  import opened WebAppRuns
  import opened Terminal

  // ----- which objects are accepted -----

  /** What an object has to say to be published, given the router's own zone. */
  ghost predicate Acceptable(s: Spec, own: string) {
    && NameOk(s.name) && Ipv4Ok(s.address) && 1 <= s.port <= 65535
    && (s.scheme == "" || s.scheme == "http" || s.scheme == "https")
    && (s.level == "" || s.level == "public" || s.level == "private")
    && (s.ndns || (&& (exists first, z :: LiesUnder(s.domain, first, z) && HostnameOk(z))
                   && (own == "" || !RightBelow(s.domain, own))))
  }

  lemma AcceptedExactly(s: Spec, own: string)
    ensures !Refused(ProxyFromSpec(s), own) <==> Acceptable(s, own)
  {
    hide NameOk, Ipv4Ok, HostnameOk, RightBelow, LiesUnder;
    RightBelowExactly(s.domain, own);
    UnderExactly(s.domain, FirstLabel(s.domain), ZoneOf(s.domain));
    if first, z :| LiesUnder(s.domain, first, z) && HostnameOk(z) { UnderExactly(s.domain, first, z); }
    if '.' !in s.domain {
      NoZoneAtAll(s.domain);
      NoEmptyHost();
    }
  }

  lemma NoZoneAtAll(host: string)
    requires '.' !in host
    ensures ZoneOf(host) == ""
  {}

  lemma NoEmptyHost()
    ensures !HostnameOk("")
  {
    assert Split("", '.')[0] == "" && !LabelOk("");
  }

  // ----- what the entry says -----

  function SchemeOf(s: Spec): string { if s.scheme == "" then "http" else s.scheme }

  function LevelOf(s: Spec): string { if s.level == "" then "public" else s.level }

  /** The entry leads where the object says, under its domain, with every switch on. */
  ghost predicate Leads(e: Proxy, s: Spec) {
    && e.ndns == s.ndns && (!s.ndns ==> RightBelow(s.domain, e.zone))
    && e.scheme == SchemeOf(s) && e.address == s.address && e.port == s.port
    && SslRedirect in e.flags && XRealIp in e.flags && PreserveHost in e.flags
    && PreserveReferer in e.flags && PreserveOrigin in e.flags
  }

  /** All that has to be read of an entry can be read, and nothing that can be read speaks against it. */
  ghost predicate Fine(e: Proxy, s: Spec, m: Mask) {
    && Leads(e, s)
    && OfDomain !in m.lost && OfUpstream !in m.lost && (forall f: Flag :: OfFlag(f) !in m.lost)
    && (m.level && OfLevel !in m.lost && e.level != "" ==> e.level == LevelOf(s))
    && ((if e.auth then m.auth else m.noAuth) && OfAuth !in m.lost ==> e.auth == s.auth)
  }

  lemma FineExactly(e: Proxy, s: Spec, m: Mask)
    requires ProxyOk(ProxyFromSpec(s))
    ensures Satisfied(View(e, m), ProxyFromSpec(s)) <==> Fine(e, s, m)
  {
    hide EqualFold, RightBelow, ZoneOf, ProxyOk;
    var p := ProxyFromSpec(s);
    if Unreadable(p, m) {
      UnreadableFails(e, p, m);
      assert !Fine(e, s, m);
    } else {
      forall f: Flag ensures OfFlag(f) !in m.lost { assert f in p.flags by { EveryFlagWanted(f); } }
      if !s.ndns { DomainMatters(e, s); }
    }
  }

  lemma EveryFlagWanted(f: Flag)
    ensures f in ALL_FLAGS
  {
    match f case _ =>
  }

  lemma DomainMatters(e: Proxy, s: Spec)
    requires ProxyOk(ProxyFromSpec(s)) && !s.ndns
    ensures EqualFold(e.zone, ZoneOf(s.domain)) <==> RightBelow(s.domain, e.zone)
  {
    if '.' !in s.domain { NoZoneAtAll(s.domain); NoEmptyHost(); }
    RightBelowExactly(s.domain, e.zone);
  }

  /** The entry was written for the object; `auth` stays on where it was. */
  ghost predicate Written(e: Proxy, s: Spec, authBefore: bool) {
    && Leads(e, s) && (!s.ndns ==> exists first :: LiesUnder(s.domain, first, e.zone))
    && e.level == LevelOf(s) && (e.auth <==> s.auth || authBefore)
  }

  ghost predicate LeftAlone(t: map<string, Proxy>, s: Spec, m: Mask) { s.name in t && Fine(t[s.name], s, m) }

  lemma MergedIsWritten(e: Proxy, s: Spec)
    requires ProxyOk(ProxyFromSpec(s))
    ensures Written(Merged(e, ProxyFromSpec(s)), s, e.auth)
  {
    hide EqualFold, RightBelow, ZoneOf, LiesUnder, ProxyOk;
    if !s.ndns {
      DottedDomain(s);
      UnderExactly(s.domain, FirstLabel(s.domain), ZoneOf(s.domain));
      RightBelowExactly(s.domain, ZoneOf(s.domain));
      assert EqualFold(ZoneOf(s.domain), ZoneOf(s.domain)) by { FoldsItself(ZoneOf(s.domain)); }
    }
  }

  lemma FoldsItself(s: string)
    ensures EqualFold(s, s)
  {}

  lemma DottedDomain(s: Spec)
    requires ProxyOk(ProxyFromSpec(s)) && !s.ndns
    ensures '.' in s.domain
  {
    if '.' !in s.domain { NoZoneAtAll(s.domain); NoEmptyHost(); }
  }

  /**
   * A publication whose sessions do not break off succeeds exactly for an acceptable object. An entry
   * that is fine is left alone; any other is written as the object says, and no other entry changes.
   */
  lemma PublicationOutcome(w: World, s: Spec, f: Faults, own: string)
    requires f.publish.Whole?
    ensures var (w1, ok) := Publish(w, s, f, own);
            && (ok <==> Acceptable(s, own)) && w1.objs == w.objs
            && (!ok || LeftAlone(w.table, s, f.mask) ==> w1 == w)
            && (ok && !LeftAlone(w.table, s, f.mask) ==>
                  && w1.table.Keys == w.table.Keys + {s.name}
                  && (forall n <- w.table | n != s.name :: w1.table[n] == w.table[n])
                  && Written(w1.table[s.name], s, s.name in w.table && w.table[s.name].auth))
  {
    hide Acceptable, Fine, Written, Satisfied, View, ProxyOk, EnsureCommands, ExecAll, EqualFold, Merged;
    var p, c := ProxyFromSpec(s), Cli(Top, w.table, map[]);
    AcceptedExactly(s, own);
    if !Refused(p, own) {
      ExecEnsure(c, p);
      MergedIsWritten(EntryAt(w.table, s.name), s);
      if s.name in w.table { FineExactly(w.table[s.name], s, f.mask); }
      assert Executed(f.publish, EnsureCommands(p)) == EnsureCommands(p);
    }
  }

  /** A first publication says of level and authentication exactly what the object says. */
  lemma FirstPublicationAsAsked(w: World, s: Spec, f: Faults, own: string)
    requires f.publish.Whole? && Acceptable(s, own) && s.name !in w.table
    ensures var w1 := Publish(w, s, f, own).0;
            && s.name in w1.table && Leads(w1.table[s.name], s)
            && w1.table[s.name].level == LevelOf(s) && w1.table[s.name].auth == s.auth
  {
    hide Acceptable, Leads, Fine, Publish;
    PublicationOutcome(w, s, f, own);
  }

  /**
   * Whatever was there before, the entry of a published object leads where it says. Its level differs
   * from what is asked only on an entry left alone whose level cannot be read; authentication asked for
   * is missing exactly on an entry left alone of which the router does not say `no auth`; and it is on
   * unasked exactly where it was on before.
   */
  lemma PublishedAsAsked(w: World, s: Spec, f: Faults, own: string)
    requires f.publish.Whole? && Acceptable(s, own)
    ensures var w1, m := Publish(w, s, f, own).0, f.mask;
            && s.name in w1.table && Leads(w1.table[s.name], s)
            && (w1.table[s.name].level != LevelOf(s) <==>
                  LeftAlone(w.table, s, m) && w.table[s.name].level != LevelOf(s))
            && (w1.table[s.name].level != LevelOf(s) ==> !m.level || OfLevel in m.lost || w1.table[s.name].level == "")
            && (s.auth && !w1.table[s.name].auth <==>
                  LeftAlone(w.table, s, m) && s.auth && !w.table[s.name].auth)
            && (s.auth && !w1.table[s.name].auth ==> !m.noAuth || OfAuth in m.lost)
            && (!s.auth && w1.table[s.name].auth <==> !s.auth && s.name in w.table && w.table[s.name].auth)
  {
    hide Acceptable, Leads, Publish;
    PublicationOutcome(w, s, f, own);
  }

  /**
   * Authentication asked for on an entry that is otherwise as wanted is never switched on by a router
   * that does not say `no auth`.
   */
  lemma AuthNeverSwitchedOn(e: Proxy, s: Spec, f: Faults, own: string)
    requires f.publish.Whole? && Acceptable(s, own) && e.name == s.name
    requires Leads(e, s) && e.level == LevelOf(s) && !e.auth && s.auth
    requires f.mask == Mask(true, true, false, {})
    ensures var w := World(map[], map[s.name := e], map[]);
            Publish(w, s, f, own) == (w, true)
  {
    hide Acceptable, Leads, Publish;
    PublicationOutcome(World(map[], map[s.name := e], map[]), s, f, own);
  }

  // ----- the router's own zone -----

  /** An entry that answers for a bare zone instead of publishing under it. */
  predicate AnswersFor(e: Proxy, zone: string) { !e.ndns && EqualFold(e.zone, zone) }

  predicate NoneAnswersFor(t: map<string, Proxy>, zone: string) { forall n <- t :: !AnswersFor(t[n], zone) }

  lemma {:induction false} KeepsDomain(e: Proxy, ss: seq<Setting>)
    requires forall s <- ss :: !s.DomainNdns? && !s.DomainStatic?
    ensures ApplyAll(e, ss).ndns == e.ndns && ApplyAll(e, ss).zone == e.zone
    decreases |ss|
  {
    if ss != [] {
      assert ss[0] in ss;
      KeepsDomain(Apply(e, ss[0]), ss[1..]);
    }
  }

  /** The domain is said by the first setting and by no other. */
  lemma DomainSaidFirst(p: Proxy)
    ensures var ss := CommandSettings(p);
            && ss != [] && ss[0] == (if p.ndns then DomainNdns else DomainStatic(p.zone))
            && forall s <- ss[1..] :: !s.DomainNdns? && !s.DomainStatic?
  {
    FlagSettingsOk(p.flags, FLAG_ORDER);
    var domain := if p.ndns then DomainNdns else DomainStatic(p.zone);
    var rest := [Upstream(p.scheme, p.address, p.port), SecurityLevel(p.level)]
                + FlagSettings(p.flags, FLAG_ORDER) + if p.auth then [Auth(true)] else [];
    assert CommandSettings(p) == [domain] + rest;
    assert forall s <- rest :: !s.DomainNdns? && !s.DomainStatic?;
  }

  lemma DomainAfter(e: Proxy, p: Proxy, k: nat)
    requires k > 0
    ensures var e' := EntryAfter(e, p, k);
            (e'.ndns == e.ndns && e'.zone == e.zone) || (e'.ndns == p.ndns && (p.ndns || e'.zone == p.zone))
  {
    hide CommandSettings;
    var ss := CommandSettings(p);
    DomainSaidFirst(p);
    var part := if k - 1 <= |ss| then ss[..k - 1] else ss;
    if part == [] {
      ApplyNone(e);
    } else {
      assert part[0] == ss[0] && forall s <- part[1..] :: s in ss[1..];
      KeepsDomain(Apply(e, part[0]), part[1..]);
    }
  }

  /** No session, broken off or not, leaves an entry that answers for the router's own zone. */
  lemma PublishNeverAnswers(w: World, s: Spec, f: Faults, own: string)
    requires own != "" && NoneAnswersFor(w.table, own)
    ensures NoneAnswersFor(Publish(w, s, f, own).0.table, own)
  {
    hide ProxyOk, EnsureCommands, ExecAll, NeedsWrite, EqualFold, EntryAfter;
    var p := ProxyFromSpec(s);
    if !Refused(p, own) && f.publish != Broken(0) && NeedsWrite(w.table, p, f.mask) {
      var c := Cli(Top, w.table, map[]);
      var k := ExecutedPrefix(f.publish, EnsureCommands(p));
      ExecPrefix(c, p, k);
      var e := EntryAt(w.table, p.name);
      NoZoneNoFold(own);
      if k > 0 { DomainAfter(e, p, k); }
    }
  }

  lemma NoZoneNoFold(own: string)
    requires own != ""
    ensures !EqualFold("", own)
  {
    assert |Lower("")| == 0 && |Lower(own)| == |own|;
  }

  lemma StepNeverAnswers(w: World, s: Step, own: string)
    requires own != "" && NoneAnswersFor(w.table, own)
    ensures NoneAnswersFor(Do(w, s, own).table, own)
  {
    hide Publish, RivalsOf, EqualFold;
    if s.Reconcile? && s.u in w.objs {
      var a := w.objs[s.u];
      ReleaseKeepsFree(w, s.u, Target(a), s.faults, own);
      ReleaseKeepsFree(w, s.u, a.appliedName, s.faults, own);
      PublishNeverAnswers(w, a.spec, s.faults, own);
      PublishNeverAnswers(Release(w, s.u, a.appliedName, s.faults).0, a.spec, s.faults, own);
    }
  }

  lemma ReleaseKeepsFree(w: World, u: Uid, name: string, f: Faults, own: string)
    requires NoneAnswersFor(w.table, own)
    ensures NoneAnswersFor(Release(w, u, name, f).0.table, own)
  {}

  /**
   * Whatever objects ask for, whatever fails and wherever sessions break off: where no entry answers
   * for the router's own zone, none ever will.
   */
  lemma {:induction false} OwnZoneNeverAnswered(w: World, steps: seq<Step>, own: string)
    requires own != "" && NoneAnswersFor(w.table, own)
    ensures NoneAnswersFor(Run(w, steps, own).table, own)
    decreases |steps|
  {
    hide Do, NoneAnswersFor;
    if steps != [] {
      StepNeverAnswers(w, steps[0], own);
      OwnZoneNeverAnswered(Do(w, steps[0], own), steps[1..], own);
    }
  }

  // ----- the reconcile, case by case -----

  /** Another live object asks for the entry. */
  predicate AskedByOther(w: World, u: Uid, n: string) {
    exists v <- w.objs :: v != u && !w.objs[v].deleting && w.objs[v].spec.name == n
  }

  /** Another live object asks for the entry under a domain that differs in more than case. */
  predicate HasRival(w: World, u: Uid, s: Spec) {
    exists v <- w.objs ::
      v != u && !w.objs[v].deleting && w.objs[v].spec.name == s.name && !EqualFold(w.objs[v].spec.domain, s.domain)
  }

  lemma AskedExactly(w: World, u: Uid, n: string)
    ensures AskedByOther(w, u, n) <==> ClaimantsOf(w.objs, n, u) != {}
  {
    if v :| v in w.objs && v != u && !w.objs[v].deleting && w.objs[v].spec.name == n {
      assert v in ClaimantsOf(w.objs, n, u);
    }
  }

  lemma RivalExactly(w: World, u: Uid, s: Spec)
    ensures HasRival(w, u, s) <==> RivalsOf(w.objs, u, s) != {}
  {
    hide EqualFold;
    if v :| v in w.objs && v != u && !w.objs[v].deleting && w.objs[v].spec.name == s.name
            && !EqualFold(w.objs[v].spec.domain, s.domain) {
      assert v in RivalsOf(w.objs, u, s);
    }
  }

  /** What giving a name back does to the table when nothing fails. */
  function Given(w: World, u: Uid, n: string): map<string, Proxy> {
    if NameOk(n) && !AskedByOther(w, u, n) then w.table - {n} else w.table
  }

  lemma ReleaseOutcome(w: World, u: Uid, n: string, f: Faults)
    requires !f.claimantList && f.removal.Whole?
    ensures Release(w, u, n, f).1 && Release(w, u, n, f).0.objs == w.objs
    ensures Release(w, u, n, f).0.table == Given(w, u, n)
  {
    assert !NameOk("");
    hide NameOk;
    AskedExactly(w, u, n);
  }

  /**
   * A deleted object with its finalizer goes, whoever else asks for its name: its entry is then gone,
   * or untouched if another live object asks for it.
   */
  lemma DeletedObjectGoes(w: World, u: Uid, f: Faults, own: string)
    requires u in w.objs && w.objs[u].deleting && w.objs[u].finalizer && f == CALM.(mask := f.mask)
    ensures var a, w' := w.objs[u], Reconciled(w, u, f, own);
            && w'.objs == w.objs - {u}
            && w'.table == Given(w, u, if a.appliedName != "" then a.appliedName else a.spec.name)
  {
    hide Release, Given;
    ReleaseOutcome(w, u, Target(w.objs[u]), f);
  }

  /** An object that is new to the operator gets its finalizer and nothing else. */
  lemma NewObjectFinalized(w: World, u: Uid, f: Faults, own: string)
    requires u in w.objs && !w.objs[u].deleting && !w.objs[u].finalizer && !f.update
    ensures Reconciled(w, u, f, own) == w.(objs := w.objs[u := w.objs[u].(finalizer := true)])
  {}

  /** An object with a rival is marked as not applied, and nothing else happens. */
  lemma RivalledObjectWaits(w: World, u: Uid, f: Faults, own: string)
    requires u in w.objs && !w.objs[u].deleting && w.objs[u].finalizer && f == CALM.(mask := f.mask)
    requires HasRival(w, u, w.objs[u].spec)
    ensures Reconciled(w, u, f, own) == w.(objs := w.objs[u := w.objs[u].(applied := false)])
  {
    hide Upheld, EqualFold;
    RivalExactly(w, u, w.objs[u].spec);
  }

  /** The table once an object without rivals has given back a name it no longer asks for. */
  function Cleared(w: World, u: Uid): map<string, Proxy>
    requires u in w.objs
  {
    if w.objs[u].appliedName == w.objs[u].spec.name then w.table else Given(w, u, w.objs[u].appliedName)
  }

  /**
   * An object without rivals first gives back a former name that nobody else asks for. Then it is
   * published and recorded under its name if it is acceptable, and marked as not applied if it is not.
   */
  lemma UnrivalledOutcome(w: World, u: Uid, f: Faults, own: string)
    requires u in w.objs && !w.objs[u].deleting && w.objs[u].finalizer && f == CALM.(mask := f.mask)
    requires !HasRival(w, u, w.objs[u].spec)
    ensures var a, t, w' := w.objs[u], Cleared(w, u), Reconciled(w, u, f, own);
            var s := a.spec;
            && (s.name in t <==> s.name in w.table) && (s.name in t ==> t[s.name] == w.table[s.name])
            && (!Acceptable(s, own) ==> w'.table == t && w'.objs == w.objs[u := a.(applied := false)])
            && (Acceptable(s, own) ==>
                  && w'.objs == w.objs[u := a.(applied := true, appliedName := s.name)]
                  && w'.table.Keys == t.Keys + {s.name}
                  && (forall n <- t | n != s.name :: w'.table[n] == t[n])
                  && (LeftAlone(t, s, f.mask) ==> w'.table == t)
                  && (!LeftAlone(t, s, f.mask) ==>
                        Written(w'.table[s.name], s, s.name in w.table && w.table[s.name].auth)))
  {
    hide Release, Publish, Acceptable, Fine, Written, EqualFold, NameOk, AskedByOther;
    var a := w.objs[u];
    RivalExactly(w, u, a.spec);
    ReleaseOutcome(w, u, a.appliedName, f);
    var w1 := if a.appliedName != a.spec.name then Release(w, u, a.appliedName, f).0 else w;
    PublicationOutcome(w1, a.spec, f, own);
  }
}
