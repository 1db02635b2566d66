/**
 * The router's command line as a state machine, and `EnsureProxy` and `DeleteProxy` run against
 * it: what they leave on the router, and when a repeated run writes to flash again.
 */
module RouterCli {
  import opened Text
  import opened Validation
  import opened Proxies
  import opened RunningConfig
  import opened Terminal

  /** Either the top level or inside the block of one proxy entry. */
  datatype Context = Top | Inside(name: string)

  datatype Cli = Cli(ctx: Context, running: map<string, Proxy>, saved: map<string, Proxy>)

  function NoProxyLine(name: string): string { "no " + HeaderLine(name) }

  /** The entry of a name, or the one a header creates. */
  function EntryAt(t: map<string, Proxy>, name: string): Proxy {
    if name in t then t[name] else Fresh(name)
  }

  function ExecTop(c: Cli, line: string): Cli {
    if line == SAVE then c.(saved := c.running) else
    match HeaderOf(line)
    case Some(h) =>
      if h.rest != "" then c
      else Cli(Inside(h.name), c.running[h.name := EntryAt(c.running, h.name)], c.saved)
    case None =>
      if |line| < 3 || line[..3] != "no " then c else
      match HeaderOf(line[3..])
      case Some(h) => c.(running := c.running - {h.name})
      case None => c
  }

  function ExecInside(c: Cli, name: string, line: string): Cli {
    if line == "exit" then c.(ctx := Top) else
    match ParseSetting(line)
    case Some(s) => c.(running := c.running[name := Apply(EntryAt(c.running, name), s)])
    case None => c
  }

  /** One command; what the current context does not know changes nothing. */
  function Exec(c: Cli, line: string): Cli {
    if c.ctx.Top? then ExecTop(c, line) else ExecInside(c, c.ctx.name, line)
  }

  function ExecAll(c: Cli, lines: seq<string>): Cli
    decreases |lines|
  {
    if lines == [] then c else ExecAll(Exec(c, lines[0]), lines[1..])
  }

  lemma {:induction false} ExecConcat(c: Cli, a: seq<string>, b: seq<string>)
    ensures ExecAll(c, a + b) == ExecAll(ExecAll(c, a), b)
    decreases |a|
  {
    if a == [] {
      assert a + b == b;
    } else {
      assert (a + b)[1..] == a[1..] + b;
      ExecConcat(Exec(c, a[0]), a[1..], b);
    }
  }

  // ----- what the commands of one entry do -----

  lemma ExecHeader(c: Cli, name: string)
    requires c.ctx.Top? && IsWord(name)
    ensures Exec(c, HeaderLine(name))
         == Cli(Inside(name), c.running[name := EntryAt(c.running, name)], c.saved)
  {
    HeaderRoundTrip(name);
    assert HeaderLine(name)[0] == 'i' && SAVE[0] == 's';
  }

  lemma ExecSetting(c: Cli, s: Setting)
    requires c.ctx.Inside? && SettingOk(s)
    ensures Exec(c, SettingLine(s))
         == c.(running := c.running[c.ctx.name := Apply(EntryAt(c.running, c.ctx.name), s)])
  {
    hide ParseSetting, SettingLine, SettingOk, Closes, Apply;
    SettingRoundTrip(s);
    ExitIsNoSetting();
  }

  lemma ExitIsNoSetting()
    ensures ParseSetting("exit").None?
  {
    hide ParseSetting;
    ExitCloses();
    assert IsPrintable("exit");
    PrintableIsWord("exit");
    TrimIndented("", "exit");
    assert "" + "exit" == "exit";
  }

  lemma {:induction false} ExecSettings(c: Cli, settings: seq<Setting>)
    requires c.ctx.Inside? && c.ctx.name in c.running
    requires forall s <- settings :: SettingOk(s)
    ensures ExecAll(c, SettingLines(settings))
         == c.(running := c.running[c.ctx.name := ApplyAll(c.running[c.ctx.name], settings)])
    decreases |settings|
  {
    hide Exec, SettingOk, SettingLine;
    var n := c.ctx.name;
    if settings == [] {
      assert c.running[n := c.running[n]] == c.running;
    } else {
      var c' := c.(running := c.running[n := Apply(c.running[n], settings[0])]);
      ExecSetting(c, settings[0]);
      assert SettingLines(settings)[1..] == SettingLines(settings[1..]);
      ExecSettings(c', settings[1..]);
      assert c'.running[n := ApplyAll(c'.running[n], settings[1..])]
          == c.running[n := ApplyAll(c.running[n], settings)];
    }
  }

  /** Everything `EnsureProxy` sends for p. */
  function EnsureCommands(p: Proxy): seq<string> { ProxyCommands(p) + [SAVE] }

  /** The entry of p once the first k commands have been executed. */
  function EntryAfter(e: Proxy, p: Proxy, k: nat): Proxy
    requires k > 0
  {
    var settings := CommandSettings(p);
    ApplyAll(e, if k - 1 <= |settings| then settings[..k - 1] else settings)
  }

  /**
   * A session broken off after k commands has touched the entry of p and no other; the context is
   * left only by `exit`, and nothing is saved before the last command.
   */
  lemma ExecPrefix(c: Cli, p: Proxy, k: nat)
    requires c.ctx.Top? && ProxyOk(p)
    requires k <= |EnsureCommands(p)|
    ensures var c' := ExecAll(c, EnsureCommands(p)[..k]);
            && c'.running == (if k == 0 then c.running
                              else c.running[p.name := EntryAfter(EntryAt(c.running, p.name), p, k)])
            && c'.ctx == (if k == 0 || k > |CommandSettings(p)| + 1 then Top else Inside(p.name))
            && c'.saved == (if k == |EnsureCommands(p)| then c'.running else c.saved)
  {
    hide ParseSetting, HeaderOf, SettingOk, ProxyOk, SettingLine, HeaderLine, Exec;
    var cmds, settings := EnsureCommands(p), CommandSettings(p);
    var n := |settings|;
    if k == 0 {
      assert cmds[..0] == [];
    } else {
      CheckedName(p);
      ExecHeader(c, p.name);
      CommandSettingsOk(p);
      var c1 := Exec(c, HeaderLine(p.name));
      var m := if k - 1 <= n then k - 1 else n;
      ExecSettings(c1, settings[..m]);
      var c2 := ExecAll(c1, SettingLines(settings[..m]));
      assert c2 == Cli(Inside(p.name), c.running[p.name := ApplyAll(EntryAt(c.running, p.name), settings[..m])], c.saved);
      assert settings[..n] == settings;
      var tail := ["exit", SAVE][..k - 1 - m];
      CutCommands(p, k, m);
      ExecConcat(c1, SettingLines(settings[..m]), tail);
      ExecLeave(c2, k - 1 - m);
    }
  }

  lemma CutCommands(p: Proxy, k: nat, m: nat)
    requires 0 < k <= |EnsureCommands(p)|
    requires m == if k - 1 <= |CommandSettings(p)| then k - 1 else |CommandSettings(p)|
    ensures k - 1 - m <= 2
    ensures EnsureCommands(p)[..k][0] == HeaderLine(p.name)
    ensures EnsureCommands(p)[..k][1..]
         == SettingLines(CommandSettings(p)[..m]) + ["exit", SAVE][..k - 1 - m]
  {
    hide SettingLine, CommandSettings;
  }

  lemma ExecLeave(c: Cli, k: nat)
    requires c.ctx.Inside? && k <= 2
    ensures ExecAll(c, ["exit", SAVE][..k])
         == (if k == 0 then c else if k == 1 then c.(ctx := Top) else Cli(Top, c.running, c.running))
  {
    var left := c.(ctx := Top);
    if k == 0 {
      assert ["exit", SAVE][..0] == [];
    } else if k == 1 {
      assert ["exit", SAVE][..1] == ["exit"] && ["exit"][1..] == [];
    } else {
      assert ["exit", SAVE][..2] == ["exit", SAVE] && ["exit", SAVE][1..] == [SAVE] && [SAVE][1..] == [];
      assert ExecAll(left, [SAVE]) == Exec(left, SAVE);
    }
  }

  /** The first line and the last two of everything sent for an entry. */
  lemma SentText(p: Proxy)
    ensures var cmds := EnsureCommands(p);
            && cmds[0] == "ip http proxy " + p.name
            && cmds[|cmds| - 2] == "exit" && cmds[|cmds| - 1] == "system configuration save"
            && (forall i | 1 <= i < |cmds| - 2 :: SaysSetting(cmds[i], CommandSettings(p)[i - 1]) || !ProxyOk(p))
  {
    hide SettingLine, CommandSettings, ProxyOk, SaysSetting;
    var cmds := EnsureCommands(p);
    assert HEADER + " " == "ip http proxy ";
    if ProxyOk(p) {
      CommandSettingsOk(p);
      forall i | 1 <= i < |cmds| - 2 ensures SaysSetting(cmds[i], CommandSettings(p)[i - 1]) {
        SettingRoundTrip(CommandSettings(p)[i - 1]);
        RecognisedExactly(cmds[i], CommandSettings(p)[i - 1]);
      }
    }
  }

  lemma CommandCount(p: Proxy)
    ensures |EnsureCommands(p)| == |CommandSettings(p)| + 3
  {}

  /**
   * The whole command list of an entry: it ends at the top level with the running table saved,
   * and changes only the entry of p, on which everything asked for is set, every switch already
   * on stays on, and authentication once on stays on.
   */
  lemma ExecEnsure(c: Cli, p: Proxy)
    requires c.ctx.Top? && ProxyOk(p)
    ensures var t := c.running[p.name := Merged(EntryAt(c.running, p.name), p)];
            ExecAll(c, EnsureCommands(p)) == Cli(Top, t, t)
  {
    hide ProxyOk, EnsureCommands;
    var k := |EnsureCommands(p)|;
    assert k == |CommandSettings(p)| + 3 by { CommandCount(p); }
    ExecPrefix(c, p, k);
    assert EnsureCommands(p)[..k] == EnsureCommands(p);
    ApplyCommands(EntryAt(c.running, p.name), p);
  }

  // ----- what the router shows -----

  /**
   * Which lines of an entry can be read: the router may not print the level, `auth` or `no auth` at
   * all, and lines of the kinds in `lost` stand behind a line that the parser does not know.
   */
  datatype Mask = Mask(level: bool, auth: bool, noAuth: bool, lost: set<Kind>)

  /** The entries a router can hold: printable, and with no zone beside `ndns`. */
  predicate EntryOk(name: string, e: Proxy) {
    && e.name == name && IsWord(name)
    && (e.ndns ==> e.zone == "") && (e.zone != "" ==> IsWord(e.zone))
    && (if e.scheme == "" then e.address == "" && e.port == 0
        else SettingOk(Upstream(e.scheme, e.address, e.port)))
    && (e.level != "" ==> SettingOk(SecurityLevel(e.level)))
  }

  predicate TableOk(t: map<string, Proxy>) { forall n <- t :: EntryOk(n, t[n]) }

  function DomainShown(e: Proxy, m: Mask): seq<Setting> {
    if OfDomain in m.lost then []
    else if e.ndns then [DomainNdns] else if e.zone != "" then [DomainStatic(e.zone)] else []
  }

  function UpstreamShown(e: Proxy, m: Mask): seq<Setting> {
    if e.scheme != "" && OfUpstream !in m.lost then [Upstream(e.scheme, e.address, e.port)] else []
  }

  function LevelShown(e: Proxy, m: Mask): seq<Setting> {
    if e.level != "" && m.level && OfLevel !in m.lost then [SecurityLevel(e.level)] else []
  }

  function FlagsShown(e: Proxy, m: Mask): set<Flag> { set f | f in e.flags && OfFlag(f) !in m.lost }

  function AuthShown(e: Proxy, m: Mask): seq<Setting> {
    if OfAuth in m.lost then []
    else if e.auth && m.auth then [Auth(true)] else if !e.auth && m.noAuth then [Auth(false)] else []
  }

  /** The settings that can be read of an entry, in one fixed order. */
  function Shown(e: Proxy, m: Mask): seq<Setting> {
    DomainShown(e, m) + UpstreamShown(e, m) + LevelShown(e, m)
    + FlagSettings(FlagsShown(e, m), FLAG_ORDER) + AuthShown(e, m)
  }

  /** What the operator can learn of an entry from what is printed. */
  function View(e: Proxy, m: Mask): Proxy {
    var up := OfUpstream !in m.lost;
    e.(ndns := e.ndns && OfDomain !in m.lost,
       zone := if OfDomain in m.lost then "" else e.zone,
       scheme := if up then e.scheme else "", address := if up then e.address else "", port := if up then e.port else 0,
       level := if m.level && OfLevel !in m.lost then e.level else "",
       flags := FlagsShown(e, m),
       auth := e.auth && m.auth && OfAuth !in m.lost,
       authSet := OfAuth !in m.lost && ((e.auth && m.auth) || (!e.auth && m.noAuth)))
  }

  /** The lines of one entry, each once and in whatever order the router prefers. */
  ghost predicate Shows(settings: seq<Setting>, e: Proxy, m: Mask) {
    multiset(settings) == multiset(Shown(e, m)) && OncePerKind(settings)
  }

  /**
   * A printed running configuration: a block for every entry, foreign sections anywhere. A line of a
   * block that the parser does not know closes it, and what stands behind it is a foreign section.
   */
  ghost predicate Displays(sections: seq<Section>, t: map<string, Proxy>, shows: string -> Mask) {
    && (forall s <- sections :: SectionOk(s))
    && (forall s <- sections :: s.Block? ==> s.name in t && Shows(s.settings, t[s.name], shows(s.name)))
    && (forall n <- t :: exists s <- sections :: s.Block? && s.name == n)
  }

  lemma {:induction false} FlagsOncePerKind(flags: set<Flag>, order: seq<Flag>)
    requires forall i, j | 0 <= i < j < |order| :: order[i] != order[j]
    ensures OncePerKind(FlagSettings(flags, order))
    ensures forall s <- FlagSettings(flags, order) :: s.Switch? && s.flag in order
  {
    if order != [] {
      FlagsOncePerKind(flags, order[1..]);
    }
  }

  lemma OncePerKindConcat(a: seq<Setting>, b: seq<Setting>, kinds: set<Kind>)
    requires OncePerKind(a) && OncePerKind(b)
    requires forall x <- a :: KindOf(x) in kinds
    requires forall y <- b :: KindOf(y) !in kinds
    ensures OncePerKind(a + b)
  {}

  lemma ShownOncePerKind(e: Proxy, m: Mask)
    ensures OncePerKind(Shown(e, m))
  {
    hide FlagsShown;
    var head := DomainShown(e, m) + UpstreamShown(e, m) + LevelShown(e, m);
    var flags := FlagSettings(FlagsShown(e, m), FLAG_ORDER);
    var flagKinds := set f | f in FLAG_ORDER :: OfFlag(f);
    FlagsOncePerKind(FlagsShown(e, m), FLAG_ORDER);
    OncePerKindConcat(head, flags, {OfDomain, OfUpstream, OfLevel});
    OncePerKindConcat(head + flags, AuthShown(e, m), {OfDomain, OfUpstream, OfLevel} + flagKinds);
  }

  lemma ApplyHead(name: string, e: Proxy, m: Mask)
    requires EntryOk(name, e)
    ensures ApplyAll(Fresh(name), DomainShown(e, m) + UpstreamShown(e, m) + LevelShown(e, m))
         == View(e, m).(flags := {}, auth := false, authSet := false)
  {
    hide SettingOk, IsWord, FlagsShown, ApplyAll;
    var f := Fresh(name);
    ApplyAllConcat(f, DomainShown(e, m) + UpstreamShown(e, m), LevelShown(e, m));
    ApplyAllConcat(f, DomainShown(e, m), UpstreamShown(e, m));
    forall p: Proxy, s: Setting ensures ApplyAll(p, [s]) == Apply(p, s) { ApplyOne(p, s); }
    forall p: Proxy ensures ApplyAll(p, []) == p { ApplyNone(p); }
  }

  lemma ApplyOne(p: Proxy, s: Setting)
    ensures ApplyAll(p, [s]) == Apply(p, s)
  {
    assert [s][1..] == [];
  }

  lemma ApplyNone(p: Proxy)
    ensures ApplyAll(p, []) == p
  {}

  lemma ApplyShown(name: string, e: Proxy, m: Mask)
    requires EntryOk(name, e)
    ensures ApplyAll(Fresh(name), Shown(e, m)) == View(e, m)
  {
    hide EntryOk, DomainShown, UpstreamShown, LevelShown, FlagsShown, FlagSettings, AuthShown, ApplyAll;
    var f := Fresh(name);
    var head := DomainShown(e, m) + UpstreamShown(e, m) + LevelShown(e, m);
    var flags := FlagSettings(FlagsShown(e, m), FLAG_ORDER);
    ApplyAllConcat(f, head + flags, AuthShown(e, m));
    ApplyAllConcat(f, head, flags);
    ApplyHead(name, e, m);
    var h := ApplyAll(f, head);
    ApplyFlags(h, FlagsShown(e, m), FLAG_ORDER);
    AllFlagsInOrder(FlagsShown(e, m));
    assert h.flags + FlagsShown(e, m) == FlagsShown(e, m);
    ApplyAuth(e, m);
  }

  lemma ApplyAuth(e: Proxy, m: Mask)
    ensures ApplyAll(View(e, m).(auth := false, authSet := false), AuthShown(e, m)) == View(e, m)
  {
    hide ApplyAll, FlagsShown;
    var g := View(e, m).(auth := false, authSet := false);
    ApplyNone(g);
    ApplyOne(g, Auth(true));
    ApplyOne(g, Auth(false));
  }

  /** Whatever the printed form, reading it back gives exactly the visible part of every entry. */
  lemma ReadBack(sections: seq<Section>, t: map<string, Proxy>, shows: string -> Mask, eol: string)
    requires Displays(sections, t, shows) && TableOk(t) && IsEol(eol)
    ensures ParseText(Unlines(ConfigLines(sections), eol)) == map n | n in t :: View(t[n], shows(n))
  {
    hide ParseText, Unlines, SectionOk, EntryOk, Shows;
    ParseConfig(sections, eol);
    forall s | s in sections && s.Block?
      ensures ApplyAll(Fresh(s.name), s.settings) == View(t[s.name], shows(s.name))
    {
      BlockShows(s, t[s.name], shows(s.name));
    }
    TableOfBlocks(sections, map[], map n | n in t :: View(t[n], shows(n)));
  }

  lemma BlockShows(s: Section, e: Proxy, m: Mask)
    requires s.Block? && EntryOk(s.name, e) && Shows(s.settings, e, m)
    ensures ApplyAll(Fresh(s.name), s.settings) == View(e, m)
  {
    ShownOncePerKind(e, m);
    BlockOrderIrrelevant(Fresh(s.name), s.settings, Shown(e, m));
    ApplyShown(s.name, e, m);
  }

  lemma {:induction false} TableOfBlocks(sections: seq<Section>, res: map<string, Proxy>, want: map<string, Proxy>)
    requires forall s <- sections | s.Block? :: s.name in want && ApplyAll(Fresh(s.name), s.settings) == want[s.name]
    requires forall n <- res :: n in want && res[n] == want[n]
    requires forall n <- want :: n in res || exists s <- sections :: s.Block? && s.name == n
    ensures TableOf(sections, res) == want
    decreases |sections|
  {
    if sections != [] {
      var s := sections[0];
      var res' := if s.Foreign? then res else res[s.name := ApplyAll(Fresh(s.name), s.settings)];
      forall n | n in want ensures n in res' || exists x <- sections[1..] :: x.Block? && x.name == n {
        if n !in res' {
          var x :| x in sections && x.Block? && x.name == n;
          assert x in sections[1..];
        }
      }
      TableOfBlocks(sections[1..], res', want);
    }
  }

  lemma ShownOk(name: string, e: Proxy, m: Mask)
    requires EntryOk(name, e)
    ensures forall s <- Shown(e, m) :: SettingOk(s)
  {
    hide IsWord;
    FlagSettingsOk(FlagsShown(e, m), FLAG_ORDER);
  }

  lemma BlockOfEntry(name: string, e: Proxy, m: Mask)
    requires EntryOk(name, e)
    ensures SectionOk(Block(name, "    ", Shown(e, m), "!")) && Shows(Shown(e, m), e, m)
  {
    hide Shown, Closes, SettingOk, FlagsShown;
    ShownOk(name, e, m);
    ShownOncePerKind(e, m);
    BangCloses();
  }

  /** A text in which a router displays its table. */
  ghost predicate Prints(printed: string, t: map<string, Proxy>, m: Mask) {
    exists sections, eol ::
      IsEol(eol) && printed == Unlines(ConfigLines(sections), eol) && Displays(sections, t, _ => m)
  }

  /** Some way for a router to print its table; callers know only that it displays the table. */
  method PrintConfig(t: map<string, Proxy>, m: Mask) returns (printed: string)
    requires TableOk(t)
    ensures Prints(printed, t, m)
  {
    hide EntryOk, SectionOk, Shows, Shown, Unlines, ConfigLines;
    var blocks: seq<Section> := [];
    var rest := t.Keys;
    while rest != {}
      invariant rest <= t.Keys
      invariant forall s <- blocks :: SectionOk(s) && s.Block? && s.name in t && Shows(s.settings, t[s.name], m)
      invariant forall n | n in t && n !in rest :: exists s <- blocks :: s.Block? && s.name == n
    {
      var n :| n in rest;
      rest := rest - {n};
      BlockOfEntry(n, t[n], m);
      ghost var before := blocks;
      blocks := blocks + [Block(n, "    ", Shown(t[n], m), "!")];
      assert blocks[|before|].name == n;
      assert forall s <- before :: s in blocks;
    }
    printed := Unlines(ConfigLines(blocks), "\n");
    assert IsEol("\n") && Displays(blocks, t, _ => m);
  }

  // ----- EnsureProxy and DeleteProxy -----

  /** Refused before the router is asked anything. */
  predicate Refused(p: Proxy, zone: string) {
    !ProxyOk(p) || (!p.ndns && zone != "" && EqualFold(p.zone, zone))
  }

  /** Whether the entry of p has to be written, given what the router shows. */
  predicate NeedsWrite(t: map<string, Proxy>, p: Proxy, m: Mask) {
    !(p.name in t && Satisfied(View(t[p.name], m), p))
  }

  /** The commands a run of `EnsureProxy` sends after reading a printed configuration. */
  function Planned(printed: string, p: Proxy): seq<string> {
    var shown := ParseText(printed);
    if p.name in shown && Satisfied(shown[p.name], p) then [] else EnsureCommands(p)
  }

  lemma PlannedFromText(sections: seq<Section>, t: map<string, Proxy>, shows: string -> Mask, eol: string, p: Proxy)
    requires Displays(sections, t, shows) && TableOk(t) && IsEol(eol)
    ensures Planned(Unlines(ConfigLines(sections), eol), p)
         == if NeedsWrite(t, p, shows(p.name)) then EnsureCommands(p) else []
  {
    hide ParseText, Unlines, Satisfied, EnsureCommands, Displays, EntryOk;
    ReadBack(sections, t, shows, eol);
  }

  lemma PlannedFromPrint(printed: string, t: map<string, Proxy>, m: Mask, p: Proxy)
    requires Prints(printed, t, m) && TableOk(t)
    ensures Planned(printed, p) == if NeedsWrite(t, p, m) then EnsureCommands(p) else []
  {
    hide Planned, NeedsWrite, EnsureCommands, Displays, ConfigLines, Unlines, TableOk;
    var sections, eol :| IsEol(eol) && printed == Unlines(ConfigLines(sections), eol) && Displays(sections, t, _ => m);
    PlannedFromText(sections, t, _ => m, eol, p);
  }

  /** The router after one run of `EnsureProxy` that was not refused. */
  function Ensured(c: Cli, p: Proxy, m: Mask): Cli {
    if NeedsWrite(c.running, p, m) then ExecAll(c, EnsureCommands(p)) else c
  }

  /** A displayed `auth` that p does not want; no command ever takes it back. */
  predicate AuthStuck(t: map<string, Proxy>, p: Proxy, m: Mask) {
    p.name in t && t[p.name].auth && m.auth && OfAuth !in m.lost && !p.auth
  }

  /** Something that p asks for cannot be read back. */
  predicate Unreadable(p: Proxy, m: Mask) {
    OfDomain in m.lost || OfUpstream in m.lost || exists f <- p.flags :: OfFlag(f) in m.lost
  }

  /** The entry is never as wanted, however often it is written. */
  predicate Stuck(t: map<string, Proxy>, p: Proxy, m: Mask) { Unreadable(p, m) || AuthStuck(t, p, m) }

  lemma UnreadableFails(e: Proxy, p: Proxy, m: Mask)
    requires ProxyOk(p) && Unreadable(p, m)
    ensures !Satisfied(View(e, m), p)
  {
    if OfDomain in m.lost && !p.ndns {
      CheckedIsWord(p.zone);
      assert |Lower("")| == 0 && |Lower(p.zone)| == |p.zone|;
    }
  }

  lemma MergedSatisfied(e: Proxy, p: Proxy, m: Mask)
    requires ProxyOk(p)
    ensures Satisfied(View(Merged(e, p), m), p)
       <==> !(Unreadable(p, m) || (e.auth && m.auth && OfAuth !in m.lost && !p.auth))
  {
    if Unreadable(p, m) { UnreadableFails(Merged(e, p), p, m); }
  }

  lemma MergedOk(e: Proxy, p: Proxy)
    requires ProxyOk(p) && e.name == p.name
    ensures EntryOk(p.name, Merged(e, p))
  {
    CheckedIsWord(p.name);
    CheckedIsWord(p.address);
    if !p.ndns { CheckedIsWord(p.zone); }
  }

  /** A run keeps the table printable, the context at the top level and every other entry. */
  lemma EnsuredKeeps(c: Cli, p: Proxy, m: Mask)
    requires c.ctx.Top? && ProxyOk(p) && TableOk(c.running)
    ensures var c' := Ensured(c, p, m);
            && c'.ctx.Top? && TableOk(c'.running) && p.name in c'.running
            && c'.running.Keys == c.running.Keys + {p.name}
            && (forall n <- c.running | n != p.name :: c'.running[n] == c.running[n])
            && (p.name in c.running ==>
                  && c.running[p.name].flags <= c'.running[p.name].flags
                  && (c.running[p.name].auth ==> c'.running[p.name].auth))
            && (c' != c ==> c'.saved == c'.running)
  {
    hide ProxyOk, EnsureCommands, EntryOk, Satisfied;
    var e := EntryAt(c.running, p.name);
    assert e.name == p.name by { EntryName(c.running, p.name); }
    ExecEnsure(c, p);
    MergedOk(e, p);
  }

  lemma FreshOk(name: string)
    requires IsWord(name)
    ensures EntryOk(name, Fresh(name))
  {}

  lemma ApplyOk(name: string, e: Proxy, s: Setting)
    requires EntryOk(name, e) && SettingOk(s)
    ensures EntryOk(name, Apply(e, s))
  {}

  lemma {:induction false} ApplyAllOk(name: string, e: Proxy, ss: seq<Setting>)
    requires EntryOk(name, e) && forall s <- ss :: SettingOk(s)
    ensures EntryOk(name, ApplyAll(e, ss))
    decreases |ss|
  {
    hide EntryOk, SettingOk, Apply;
    if ss != [] {
      assert ss[0] in ss;
      ApplyOk(name, e, ss[0]);
      ApplyAllOk(name, Apply(e, ss[0]), ss[1..]);
    }
  }

  /** However early a session breaks off, the router's table stays one that it can print. */
  lemma PrefixKeepsOk(c: Cli, p: Proxy, k: nat)
    requires c.ctx.Top? && ProxyOk(p) && TableOk(c.running) && k <= |EnsureCommands(p)|
    ensures TableOk(ExecAll(c, EnsureCommands(p)[..k]).running)
  {
    hide ProxyOk, EnsureCommands, EntryOk, SettingOk, ExecAll, CommandSettings, ApplyAll, Fresh;
    ExecPrefix(c, p, k);
    if k > 0 {
      var e := EntryAt(c.running, p.name);
      CheckedName(p);
      FreshOk(p.name);
      assert EntryOk(p.name, e);
      CommandSettingsOk(p);
      var ss := CommandSettings(p);
      ApplyAllOk(p.name, e, if k - 1 <= |ss| then ss[..k - 1] else ss);
    }
  }

  lemma EntryName(t: map<string, Proxy>, n: string)
    requires TableOk(t)
    ensures EntryAt(t, n).name == n
  {}

  /** After one run the next one has nothing to send, exactly unless the entry is stuck. */
  lemma SecondRunSilent(c: Cli, p: Proxy, m: Mask)
    requires c.ctx.Top? && ProxyOk(p)
    ensures NeedsWrite(Ensured(c, p, m).running, p, m) <==> Stuck(c.running, p, m)
    ensures Stuck(Ensured(c, p, m).running, p, m) <==> Stuck(c.running, p, m)
  {
    hide ProxyOk, EnsureCommands, Satisfied, View, Unreadable;
    ExecEnsure(c, p);
    MergedSatisfied(EntryAt(c.running, p.name), p, m);
    StuckNeedsWrite(c.running, p, m);
  }

  /** How many of n consecutive runs write to flash. */
  function FlashWrites(c: Cli, p: Proxy, m: Mask, n: nat): nat
    decreases n
  {
    if n == 0 then 0
    else (if NeedsWrite(c.running, p, m) then 1 else 0) + FlashWrites(Ensured(c, p, m), p, m, n - 1)
  }

  /**
   * However often an entry is re-asserted, it is written at most once; only where the router shows
   * an `auth` that is not wanted, or hides a line that is wanted behind one the parser does not know,
   * does every single run write again.
   */
  lemma {:induction false} WriteOnce(c: Cli, p: Proxy, m: Mask, n: nat)
    requires c.ctx.Top? && ProxyOk(p)
    ensures FlashWrites(c, p, m, n)
         == if Stuck(c.running, p, m) then n
            else if NeedsWrite(c.running, p, m) && n > 0 then 1 else 0
    decreases n
  {
    hide ProxyOk, Satisfied, EnsureCommands, Stuck, NeedsWrite;
    if n > 0 {
      var c' := Ensured(c, p, m);
      SecondRunSilent(c, p, m);
      EnsuredAtTop(c, p, m);
      WriteOnce(c', p, m, n - 1);
      StuckNeedsWrite(c.running, p, m);
    }
  }

  lemma EnsuredAtTop(c: Cli, p: Proxy, m: Mask)
    requires c.ctx.Top? && ProxyOk(p)
    ensures Ensured(c, p, m).ctx.Top?
  {
    hide ProxyOk, EnsureCommands, NeedsWrite;
    ExecEnsure(c, p);
  }

  lemma StuckNeedsWrite(t: map<string, Proxy>, p: Proxy, m: Mask)
    requires ProxyOk(p)
    ensures Stuck(t, p, m) ==> NeedsWrite(t, p, m)
  {
    if Unreadable(p, m) && p.name in t { UnreadableFails(t[p.name], p, m); }
  }

  /**
   * The same, from text to text: whatever a router prints after a run, in any order, with any foreign
   * sections and with unknown lines inside blocks, the next run sends no command unless the entry is
   * stuck.
   */
  lemma SecondRunSilentOnText(c: Cli, p: Proxy, shows: string -> Mask,
                              before: seq<Section>, after: seq<Section>, eol: string)
    requires c.ctx.Top? && ProxyOk(p) && TableOk(c.running) && IsEol(eol)
    requires Displays(before, c.running, shows)
    requires var c' := ExecAll(c, Planned(Unlines(ConfigLines(before), eol), p));
             Displays(after, c'.running, shows)
    ensures Planned(Unlines(ConfigLines(after), eol), p) == [] <==> !Stuck(c.running, p, shows(p.name))
  {
    hide ProxyOk, Displays, Planned, ConfigLines, Unlines, Satisfied, EntryOk, ExecAll, EnsureCommands, Stuck;
    var m := shows(p.name);
    PlannedFromText(before, c.running, shows, eol, p);
    assert ExecAll(c, []) == c by { ExecNothing(c); }
    assert ExecAll(c, Planned(Unlines(ConfigLines(before), eol), p)) == Ensured(c, p, m);
    EnsuredKeeps(c, p, m);
    PlannedFromText(after, Ensured(c, p, m).running, shows, eol, p);
    SecondRunSilent(c, p, m);
    assert EnsureCommands(p) != [] by { CommandCount(p); }
  }

  lemma ExecNothing(c: Cli)
    ensures ExecAll(c, []) == c
  {}

  /** Removing an entry removes that entry only, and saves the result. */
  lemma ExecDelete(c: Cli, name: string)
    requires c.ctx.Top? && NameOk(name)
    ensures ExecAll(c, [NoProxyLine(name), SAVE]) == Cli(Top, c.running - {name}, c.running - {name})
  {
    CheckedIsWord(name);
    HeaderRoundTrip(name);
    var line := NoProxyLine(name);
    assert line[..3] == "no " && line[3..] == HeaderLine(name);
    assert HeaderOf(line).None? by { assert line[0] == 'n' && HEADER[0] == 'i'; }
    assert line != SAVE by { assert SAVE[0] == 's'; }
    var c1 := c.(running := c.running - {name});
    assert Exec(c, line) == c1;
    assert [line, SAVE][1..] == [SAVE] && [SAVE][1..] == [];
    assert ExecAll(c1, [SAVE]) == Exec(c1, SAVE);
  }

  // ----- the client -----

  class ProxyRouter {
    var cli: Cli

    /** Sends the lines one after the other. */
    method Run(lines: seq<string>)
      modifies this
      ensures cli == ExecAll(old(cli), lines)
    {
      var i := 0;
      while i < |lines|
        invariant 0 <= i <= |lines|
        invariant ExecAll(cli, lines[i..]) == ExecAll(old(cli), lines)
      {
        assert lines[i..][1..] == lines[i + 1..];
        cli := Exec(cli, lines[i]);
        i := i + 1;
      }
    }

    /** Brings an entry to p, given the printed running configuration; false when p is refused. */
    method EnsureProxy(p: Proxy, zone: string, printed: string) returns (accepted: bool)
      modifies this
      ensures accepted <==> ProxyOk(p) && (p.ndns || zone == "" || !EqualFold(p.zone, zone))
      ensures cli == if accepted then ExecAll(old(cli), Planned(printed, p)) else old(cli)
    {
      hide ParseText, Satisfied, Exec;
      if !ProxyOk(p) {
        return false;
      }
      if !p.ndns && zone != "" && EqualFold(p.zone, zone) {
        return false;
      }
      var proxies := ParseProxies(printed);
      if p.name in proxies && Satisfied(proxies[p.name], p) {
        return true;
      }
      var cmds := BuildCommands(p);
      Run(cmds + [SAVE]);
      accepted := true;
    }

    /** Removes an entry; a name that could never have been written is left alone. */
    method DeleteProxy(name: string)
      requires cli.ctx.Top?
      modifies this
      ensures cli == if NameOk(name) then Cli(Top, old(cli).running - {name}, old(cli).running - {name})
                     else old(cli)
    {
      if !NameOk(name) {
        return;
      }
      ExecDelete(cli, name);
      Run([NoProxyLine(name), SAVE]);
    }
  }
}
