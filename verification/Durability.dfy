/**
 * Sessions that break off before the table is saved: what the next run makes of what they left, and
 * from which break points on the router's flash stays behind for good.
 */
module Durability {
  import opened Text
  import opened Validation
  import opened Proxies
  import opened RunningConfig
  import opened RouterCli

  /** A readable entry already is as one setting would make it. */
  predicate Said(x: Proxy, s: Setting) {
    match s
    case DomainNdns => x.ndns
    case DomainStatic(zone) => !x.ndns && EqualFold(x.zone, zone)
    case Upstream(scheme, address, port) => x.scheme == scheme && x.address == address && x.port == port
    case SecurityLevel(level) => x.level == "" || x.level == level
    case Switch(f) => f in x.flags
    case Auth(on) => x.authSet ==> x.auth == on
  }

  lemma {:induction false} FlagSettingsMembers(flags: set<Flag>, order: seq<Flag>, s: Setting)
    ensures s in FlagSettings(flags, order) <==> s.Switch? && s.flag in flags && s.flag in order
  {
    if order != [] {
      FlagSettingsMembers(flags, order[1..], s);
      assert order == [order[0]] + order[1..];
    }
  }

  lemma CommandSettingsMembers(p: Proxy, s: Setting)
    ensures s in CommandSettings(p) <==>
              || s == (if p.ndns then DomainNdns else DomainStatic(p.zone))
              || s == Upstream(p.scheme, p.address, p.port) || s == SecurityLevel(p.level)
              || (s.Switch? && s.flag in p.flags) || (s == Auth(true) && p.auth)
  {
    FlagSettingsMembers(p.flags, FLAG_ORDER, s);
    if s.Switch? { EveryFlag(s.flag); }
  }

  lemma EveryFlag(f: Flag)
    ensures f in FLAG_ORDER
  {
    var i := match f case SslRedirect => 0 case XRealIp => 1 case PreserveHost => 2
             case PreserveReferer => 3 case PreserveOrigin => 4;
    assert FLAG_ORDER[i] == f;
  }

  /** An entry is good enough exactly when every setting that would be sent has been said. */
  lemma SatisfiedBySettings(x: Proxy, p: Proxy)
    ensures Satisfied(x, p) <==> (forall s <- CommandSettings(p) :: Said(x, s)) && !(x.authSet && x.auth && !p.auth)
  {
    hide CommandSettings, EqualFold;
    forall s ensures s in CommandSettings(p) <==>
                       || s == (if p.ndns then DomainNdns else DomainStatic(p.zone))
                       || s == Upstream(p.scheme, p.address, p.port) || s == SecurityLevel(p.level)
                       || (s.Switch? && s.flag in p.flags) || (s == Auth(true) && p.auth)
    {
      CommandSettingsMembers(p, s);
    }
    if forall s <- CommandSettings(p) :: Said(x, s) {
      assert Said(x, if p.ndns then DomainNdns else DomainStatic(p.zone));
      assert Said(x, Upstream(p.scheme, p.address, p.port)) && Said(x, SecurityLevel(p.level));
      assert forall f <- p.flags :: Said(x, Switch(f));
      assert p.auth ==> Said(x, Auth(true));
    }
  }

  lemma CommandsOncePerKind(p: Proxy)
    ensures OncePerKind(CommandSettings(p))
  {
    var first := [if p.ndns then DomainNdns else DomainStatic(p.zone),
                  Upstream(p.scheme, p.address, p.port), SecurityLevel(p.level)];
    var flags := FlagSettings(p.flags, FLAG_ORDER);
    var last := if p.auth then [Auth(true)] else [];
    var flagKinds := set f | f in FLAG_ORDER :: OfFlag(f);
    FlagsOncePerKind(p.flags, FLAG_ORDER);
    OncePerKindConcat(first, flags, {OfDomain, OfUpstream, OfLevel});
    OncePerKindConcat(first + flags, last, {OfDomain, OfUpstream, OfLevel} + flagKinds);
  }

  lemma OtherKindSilent(e: Proxy, t: Setting, s: Setting, m: Mask)
    requires KindOf(t) != KindOf(s)
    ensures Said(View(Apply(e, t), m), s) == Said(View(e, m), s)
  {}

  lemma {:induction false} OtherKindsSilent(e: Proxy, ts: seq<Setting>, s: Setting, m: Mask)
    requires forall t <- ts :: KindOf(t) != KindOf(s)
    ensures Said(View(ApplyAll(e, ts), m), s) == Said(View(e, m), s)
    decreases |ts|
  {
    hide Said, View, Apply, KindOf;
    if ts != [] {
      assert ts[0] in ts;
      OtherKindSilent(e, ts[0], s, m);
      OtherKindsSilent(Apply(e, ts[0]), ts[1..], s, m);
    }
  }

  /** A setting sent can be read back, unless its kind is lost. */
  lemma SaidOnceSent(e: Proxy, s: Setting, m: Mask)
    requires s.Auth? ==> s.on
    requires KindOf(s) !in m.lost || s.SecurityLevel? || s.Auth?
    ensures Said(View(Apply(e, s), m), s)
  {}

  /** After the first j settings of p, those are said, and of the others those that were before. */
  lemma SaidAfter(e: Proxy, p: Proxy, m: Mask, j: nat, i: nat)
    requires j <= |CommandSettings(p)| && i < |CommandSettings(p)| && !Unreadable(p, m)
    ensures var ss := CommandSettings(p);
            Said(View(ApplyAll(e, ss[..j]), m), ss[i]) <==> i < j || Said(View(e, m), ss[i])
  {
    hide Said, View, Apply, CommandSettings, KindOf, ApplyAll;
    var ss := CommandSettings(p);
    CommandsOncePerKind(p);
    if i < j {
      var before, after := ss[..i], ss[i + 1..j];
      assert ss[..j] == before + ([ss[i]] + after);
      ApplyAllConcat(e, before, [ss[i]] + after);
      ApplyAllConcat(ApplyAll(e, before), [ss[i]], after);
      ApplyOne(ApplyAll(e, before), ss[i]);
      ReadableSetting(p, m, ss[i]);
      SaidOnceSent(ApplyAll(e, before), ss[i], m);
      OtherKindsSilent(Apply(ApplyAll(e, before), ss[i]), after, ss[i], m);
    } else {
      OtherKindsSilent(e, ss[..j], ss[i], m);
    }
  }

  lemma ReadableSetting(p: Proxy, m: Mask, s: Setting)
    requires s in CommandSettings(p) && !Unreadable(p, m)
    ensures KindOf(s) !in m.lost || s.SecurityLevel? || s.Auth?
    ensures s.Auth? ==> s.on
  {
    hide CommandSettings;
    CommandSettingsMembers(p, s);
  }

  lemma {:induction false} AuthAfter(e: Proxy, ss: seq<Setting>)
    requires forall s <- ss :: !s.Auth?
    ensures ApplyAll(e, ss).auth == e.auth
    decreases |ss|
  {
    if ss != [] {
      assert ss[0] in ss;
      AuthAfter(Apply(e, ss[0]), ss[1..]);
    }
  }

  /** An entry some settings of p have been applied to is good enough exactly when the rest was said before. */
  lemma PartSatisfied(e: Proxy, p: Proxy, m: Mask, j: nat)
    requires j <= |CommandSettings(p)| && !Unreadable(p, m)
    requires !(e.auth && m.auth && OfAuth !in m.lost && !p.auth)
    ensures var ss := CommandSettings(p);
            Satisfied(View(ApplyAll(e, ss[..j]), m), p) <==> forall i | j <= i < |ss| :: Said(View(e, m), ss[i])
  {
    hide Said, CommandSettings, Satisfied, Unreadable, ApplyAll;
    var ss := CommandSettings(p);
    var x := View(ApplyAll(e, ss[..j]), m);
    SatisfiedBySettings(x, p);
    forall i | 0 <= i < |ss| ensures Said(x, ss[i]) <==> i < j || Said(View(e, m), ss[i]) { SaidAfter(e, p, m, j, i); }
    assert !(x.authSet && x.auth && !p.auth) by {
      if !p.auth {
        forall s | s in ss[..j] ensures !s.Auth? { CommandSettingsMembers(p, s); }
        AuthAfter(e, ss[..j]);
      }
    }
    assert (forall s <- ss :: Said(x, s)) <==> (forall i | 0 <= i < |ss| :: Said(x, ss[i]));
  }

  /** The settings of p that a session broken off after k commands has not sent. */
  function Unsent(p: Proxy, k: nat): seq<Setting> {
    var ss := CommandSettings(p);
    if k == 0 then ss else if k - 1 <= |ss| then ss[k - 1..] else []
  }

  /** The next session begins at the top level again. */
  function Interrupted(c: Cli, p: Proxy, k: nat): Cli
    requires k <= |EnsureCommands(p)|
  {
    ExecAll(c, EnsureCommands(p)[..k]).(ctx := Top)
  }

  /** What a run finds that had to write and was broken off after k commands. */
  lemma InterruptedNeedsWrite(c: Cli, p: Proxy, m: Mask, k: nat)
    requires c.ctx.Top? && ProxyOk(p) && k <= |EnsureCommands(p)|
    requires NeedsWrite(c.running, p, m) && !Stuck(c.running, p, m)
    ensures NeedsWrite(Interrupted(c, p, k).running, p, m)
       <==> exists s <- Unsent(p, k) :: !Said(View(EntryAt(c.running, p.name), m), s)
  {
    hide ProxyOk, EnsureCommands, Satisfied, View, Said, CommandSettings, Unreadable, ApplyAll;
    var e, ss := EntryAt(c.running, p.name), CommandSettings(p);
    ExecPrefix(c, p, k);
    assert !(e.auth && m.auth && OfAuth !in m.lost && !p.auth);
    if k == 0 && p.name !in c.running {
      NothingSaid(p, m);
    } else {
      var j := if k == 0 then 0 else if k - 1 <= |ss| then k - 1 else |ss|;
      PartSatisfied(e, p, m, j);
      assert Unsent(p, k) == ss[j..];
      assert ss[..|ss|] == ss;
      if k == 0 { ApplyNone(e); assert ss[..0] == []; }
      AllFrom(ss, j, View(e, m));
    }
  }

  lemma AllFrom(ss: seq<Setting>, j: nat, x: Proxy)
    requires j <= |ss|
    ensures (forall s <- ss[j..] :: Said(x, s)) <==> (forall i | j <= i < |ss| :: Said(x, ss[i]))
  {
    hide Said;
    if forall s <- ss[j..] :: Said(x, s) {
      forall i | j <= i < |ss| ensures Said(x, ss[i]) { assert ss[j..][i - j] == ss[i]; }
    }
  }

  lemma NothingSaid(p: Proxy, m: Mask)
    requires ProxyOk(p)
    ensures exists s <- Unsent(p, 0) :: !Said(View(Fresh(p.name), m), s)
  {
    var s := Upstream(p.scheme, p.address, p.port);
    CommandSettingsMembers(p, s);
    assert s in Unsent(p, 0) && !Said(View(Fresh(p.name), m), s);
  }

  /**
   * A run that had to write breaks off after k commands and is retried in full. The retry writes and
   * saves exactly when some setting not sent the first time was not on the entry before; otherwise
   * it finds nothing to do, and unless the first session had already saved, flash keeps the old table
   * however often the run is repeated.
   */
  lemma RetrySavesExactly(c: Cli, p: Proxy, m: Mask, k: nat)
    requires c.ctx.Top? && ProxyOk(p) && k <= |EnsureCommands(p)|
    requires NeedsWrite(c.running, p, m) && !Stuck(c.running, p, m)
    ensures var broken := Interrupted(c, p, k);
            var retried := Ensured(broken, p, m);
            if exists s <- Unsent(p, k) :: !Said(View(EntryAt(c.running, p.name), m), s)
            then retried.saved == retried.running
            else retried == broken && broken.saved == if k == |EnsureCommands(p)| then broken.running else c.saved
  {
    hide ProxyOk, EnsureCommands, NeedsWrite, Stuck, Said, View, CommandSettings, Unsent;
    InterruptedNeedsWrite(c, p, m, k);
    ExecPrefix(c, p, k);
    ExecEnsure(Interrupted(c, p, k), p);
  }

  /** In particular a session that loses only the save is reported as done and never saved. */
  lemma LostSaveStaysLost(c: Cli, p: Proxy, m: Mask)
    requires c.ctx.Top? && ProxyOk(p)
    requires NeedsWrite(c.running, p, m) && !Stuck(c.running, p, m)
    ensures var broken := Interrupted(c, p, |EnsureCommands(p)| - 1);
            Ensured(broken, p, m) == broken && broken.saved == c.saved
            && broken.running == c.running[p.name := Merged(EntryAt(c.running, p.name), p)]
  {
    hide ProxyOk, NeedsWrite, Stuck, View, Said, EnsureCommands;
    var k := |EnsureCommands(p)| - 1;
    assert k == |CommandSettings(p)| + 2 by { CommandCount(p); }
    RetrySavesExactly(c, p, m, k);
    assert Unsent(p, k) == [];
    ExecPrefix(c, p, k);
    ApplyCommands(EntryAt(c.running, p.name), p);
  }
}
