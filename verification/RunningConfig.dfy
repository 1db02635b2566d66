/** Reading whole configurations: blocks, foreign sections, and the commands read back as blocks. */
module RunningConfig {
  import opened Text
  import opened Validation
  import opened Proxies

  // ----- the source's loop -----

  /** The entry under construction, updated line by line. */
  class Cursor {
    var entry: Proxy

    constructor (entry: Proxy)
      ensures this.entry == entry
    {
      this.entry := entry;
    }

    /** Applies one line of a block; false when the line does not belong to it. */
    method ApplyLine(line: string) returns (ours: bool)
      modifies this
      ensures ours <==> ParseSetting(line).Some?
      ensures entry == if ours then Apply(old(entry), ParseSetting(line).value) else old(entry)
      ensures forall s | SettingOk(s) && line == SettingLine(s) :: ours && entry == Apply(old(entry), s)
    {
      hide SettingLine, SettingOk, Words;
      forall s | SettingOk(s) && line == SettingLine(s) ensures ParseSetting(line) == Some(s) {
        SettingRoundTrip(s);
      }
      ours := true;
      match line {
        case "domain ndns" => entry := entry.(ndns := true, zone := "");
        case "ssl redirect" => entry := entry.(flags := entry.flags + {SslRedirect});
        case "x-real-ip" => entry := entry.(flags := entry.flags + {XRealIp});
        case "preserve-host" => entry := entry.(flags := entry.flags + {PreserveHost});
        case "preserve-referer" => entry := entry.(flags := entry.flags + {PreserveReferer});
        case "preserve-origin" => entry := entry.(flags := entry.flags + {PreserveOrigin});
        case "auth" => entry := entry.(auth := true, authSet := true);
        case "no auth" => entry := entry.(auth := false, authSet := true);
        case _ => ours := ApplyPhrase(Words(line));
      }
    }

    /** The lines with an argument, matched word by word. */
    method ApplyPhrase(w: seq<string>) returns (ours: bool)
      modifies this
      ensures ours <==> Phrase(w).Some?
      ensures entry == if ours then Apply(old(entry), Phrase(w).value) else old(entry)
    {
      if |w| == 3 && w[0] == "domain" && w[1] == "static" {
        entry := entry.(zone := w[2], ndns := false);
        return true;
      }
      if |w| == 4 && w[0] == "upstream" && (w[1] == "http" || w[1] == "https") {
        if !IsDigits(w[3]) || |w[3]| > 5 { return false; }
        entry := entry.(scheme := w[1], address := w[2], port := DecimalValue(w[3]));
        return true;
      }
      if |w| == 2 && w[0] == "security-level" && (w[1] == "public" || w[1] == "private") {
        entry := entry.(level := w[1]);
        return true;
      }
      return false;
    }
  }

  ghost function Under(cur: Cursor?): Option<Proxy>
    reads cur
  {
    if cur == null then None else Some(cur.entry)
  }

  method ParseProxies(text: string) returns (res: map<string, Proxy>)
    ensures res == ParseText(text)
  {
    hide ParseSetting, AfterHeader, HeaderOf, Trim, Apply, Phrase, Keyword, SettingLine, SettingOk;
    res := map[];
    var cur: Cursor? := null;
    var lines := ScanLines(text);
    var i := 0;
    while i < |lines|
      invariant 0 <= i <= |lines|
      invariant cur != null ==> fresh(cur)
      invariant ReadLines(Parser(Under(cur), res), lines[i..]) == ReadLines(START, lines)
    {
      ghost var before := Parser(Under(cur), res);
      var line := Trim(lines[i]);
      var header := HeaderOf(line);
      if header.Some? {
        if cur != null { res := res[cur.entry.name := cur.entry]; }
        cur := new Cursor(Fresh(header.value.name));
        if header.value.rest != "" {
          var _ := cur.ApplyLine(header.value.rest);
        }
        assert header.value.rest == "" ==> ParseSetting("").None? by { EmptyIsNoSetting(); }
      } else if cur != null {
        if line == "!" || line == "" {
          BangCloses();
          EmptyCloses();
          TrimIndented("", line);
          assert "" + line == line;
          res := res[cur.entry.name := cur.entry];
          cur := null;
        } else {
          var ours := cur.ApplyLine(line);
          if !ours {
            res := res[cur.entry.name := cur.entry];
            cur := null;
          }
        }
      }
      assert Parser(Under(cur), res) == ReadLine(before, lines[i]);
      assert lines[i..][1..] == lines[i + 1..];
      i := i + 1;
    }
    if cur != null { res := res[cur.entry.name := cur.entry]; }
  }

  lemma {:induction false} FlagSettingsSnoc(flags: set<Flag>, order: seq<Flag>, f: Flag)
    ensures FlagSettings(flags, order + [f])
         == FlagSettings(flags, order) + if f in flags then [Switch(f)] else []
  {
    if order == [] {
      assert [f][1..] == [];
    } else {
      assert (order + [f])[1..] == order[1..] + [f];
      FlagSettingsSnoc(flags, order[1..], f);
      var head, middle := if order[0] in flags then [Switch(order[0])] else [], FlagSettings(flags, order[1..]);
      var last := if f in flags then [Switch(f)] else [];
      assert head + (middle + last) == (head + middle) + last;
    }
  }

  lemma OneMoreLine(settings: seq<Setting>, s: Setting)
    ensures SettingLines(settings + [s]) == SettingLines(settings) + [SettingLine(s)]
  {
    hide SettingLine;
  }

  lemma FirstLines(p: Proxy)
    ensures SettingLines([if p.ndns then DomainNdns else DomainStatic(p.zone),
                          Upstream(p.scheme, p.address, p.port), SecurityLevel(p.level)])
         == [if p.ndns then "domain ndns" else "domain static " + p.zone,
             "upstream " + p.scheme + " " + p.address + " " + Number(p.port),
             "security-level " + p.level]
  {}

  /** The commands for p, gathered as the source gathers them. */
  method BuildCommands(p: Proxy) returns (cmds: seq<string>)
    ensures cmds == ProxyCommands(p)
  {
    hide SettingLines, FlagSettings, HeaderLine, Number;
    var domain := if p.ndns then "domain ndns" else "domain static " + p.zone;
    cmds := [HeaderLine(p.name), domain,
             "upstream " + p.scheme + " " + p.address + " " + Number(p.port),
             "security-level " + p.level];
    ghost var first := [if p.ndns then DomainNdns else DomainStatic(p.zone),
                        Upstream(p.scheme, p.address, p.port), SecurityLevel(p.level)];
    ghost var sent := first;
    FirstLines(p);
    assert cmds == [HeaderLine(p.name)] + SettingLines(sent);
    var order := FLAG_ORDER;
    NoFlags(p.flags);
    assert first + [] == first && order[..0] == [];
    for i := 0 to |order|
      invariant cmds == [HeaderLine(p.name)] + SettingLines(sent)
      invariant sent == first + FlagSettings(p.flags, order[..i])
    {
      assert order[..i + 1] == order[..i] + [order[i]];
      FlagSettingsSnoc(p.flags, order[..i], order[i]);
      if order[i] in p.flags {
        OneMoreLine(sent, Switch(order[i]));
        cmds, sent := cmds + [FlagLine(order[i])], sent + [Switch(order[i])];
      }
    }
    assert order[..|order|] == order;
    if p.auth {
      OneMoreLine(sent, Auth(true));
      cmds, sent := cmds + ["auth"], sent + [Auth(true)];
    }
    assert sent == CommandSettings(p);
    cmds := cmds + ["exit"];
  }

  lemma NoFlags(flags: set<Flag>)
    ensures FlagSettings(flags, []) == []
  {}

  // ----- sections -----

  /** A proxy block, or lines none of which opens one. */
  datatype Section =
    | Block(name: string, indent: string, settings: seq<Setting>, closer: string)
    | Foreign(lines: seq<string>)

  function Indented(indent: string, settings: seq<Setting>): seq<string> {
    seq(|settings|, i requires 0 <= i < |settings| => indent + SettingLine(settings[i]))
  }

  function SectionLines(s: Section): seq<string> {
    match s
    case Block(name, indent, settings, closer) =>
      [HeaderLine(name)] + Indented(indent, settings) + [closer]
    case Foreign(lines) => lines
  }

  function ConfigLines(sections: seq<Section>): seq<string> {
    if sections == [] then [] else SectionLines(sections[0]) + ConfigLines(sections[1..])
  }

  predicate OpensBlock(line: string) { HeaderOf(Trim(line)).Some? }

  /** A line that is neither a header nor a setting ends the block it stands in. */
  predicate Closes(line: string) { !OpensBlock(line) && ParseSetting(Trim(line)).None? }

  predicate SectionOk(s: Section) {
    match s
    case Block(name, indent, settings, closer) =>
      && IsWord(name)
      && IsLine(indent) && (forall c <- indent :: IsSpace(c))
      && (forall x <- settings :: SettingOk(x))
      && IsLine(closer) && Closes(closer)
    case Foreign(lines) => forall l <- lines :: IsLine(l) && !OpensBlock(l)
  }

  /** What the sections mean, without reading any text. */
  function TableOf(sections: seq<Section>, res: map<string, Proxy>): map<string, Proxy> {
    if sections == [] then res else
      var s := sections[0];
      TableOf(sections[1..],
              if s.Foreign? then res else res[s.name := ApplyAll(Fresh(s.name), s.settings)])
  }

  lemma {:induction false} ApplyAllKeepsName(p: Proxy, settings: seq<Setting>)
    ensures ApplyAll(p, settings).name == p.name
    decreases |settings|
  {
    if settings != [] { ApplyAllKeepsName(Apply(p, settings[0]), settings[1..]); }
  }

  lemma {:induction false} ReadConcat(st: Parser, a: seq<string>, b: seq<string>)
    ensures ReadLines(st, a + b) == ReadLines(ReadLines(st, a), b)
    decreases |a|
  {
    if a == [] {
      assert a + b == b;
    } else {
      assert (a + b)[1..] == a[1..] + b;
      ReadConcat(ReadLine(st, a[0]), a[1..], b);
    }
  }

  lemma ReadSetting(p: Proxy, done: map<string, Proxy>, indent: string, s: Setting)
    requires forall c <- indent :: IsSpace(c)
    requires SettingOk(s)
    ensures ReadLine(Parser(Some(p), done), indent + SettingLine(s)) == Parser(Some(Apply(p, s)), done)
  {
    SettingLineShape(s);
    TrimIndented(indent, SettingLine(s));
    SettingRoundTrip(s);
    assert HeaderOf(SettingLine(s)).None? by { assert HEADER[0] == 'i'; }
  }

  lemma EmptyIsNoSetting()
    ensures ParseSetting("").None?
  {
    assert Words("") == [];
  }

  lemma ReadHeader(done: map<string, Proxy>, name: string)
    requires IsWord(name)
    ensures ReadLine(Parser(None, done), HeaderLine(name)) == Parser(Some(Fresh(name)), done)
  {
    HeaderRoundTrip(name);
    TrimIndented("", HeaderLine(name));
    assert "" + HeaderLine(name) == HeaderLine(name);
    EmptyIsNoSetting();
  }

  lemma IndentedNone(indent: string)
    ensures Indented(indent, []) == []
  {}

  lemma IndentedNext(indent: string, settings: seq<Setting>)
    requires settings != []
    ensures var lines := Indented(indent, settings);
            && lines != [] && lines[0] == indent + SettingLine(settings[0])
            && lines[1..] == Indented(indent, settings[1..])
  {
    hide SettingLine;
  }

  lemma {:induction false} ReadBody(p: Proxy, done: map<string, Proxy>, indent: string, settings: seq<Setting>)
    requires forall c <- indent :: IsSpace(c)
    requires forall x <- settings :: SettingOk(x)
    ensures ReadLines(Parser(Some(p), done), Indented(indent, settings))
         == Parser(Some(ApplyAll(p, settings)), done)
    decreases |settings|
  {
    hide ReadLine, SettingOk, Indented, Apply;
    if settings == [] {
      IndentedNone(indent);
    } else {
      ReadSetting(p, done, indent, settings[0]);
      IndentedNext(indent, settings);
      ReadBody(Apply(p, settings[0]), done, indent, settings[1..]);
    }
  }

  lemma ReadSkipped(done: map<string, Proxy>, raw: string)
    requires !OpensBlock(raw)
    ensures ReadLine(Parser(None, done), raw) == Parser(None, done)
  {}

  lemma {:induction false} ReadForeign(done: map<string, Proxy>, lines: seq<string>)
    requires forall l <- lines :: !OpensBlock(l)
    ensures ReadLines(Parser(None, done), lines) == Parser(None, done)
    decreases |lines|
  {
    if lines != [] {
      ReadSkipped(done, lines[0]);
      ReadForeign(done, lines[1..]);
    }
  }

  lemma ReadCloser(p: Proxy, done: map<string, Proxy>, closer: string)
    requires Closes(closer)
    ensures ReadLine(Parser(Some(p), done), closer) == Parser(None, done[p.name := p])
  {}

  lemma FreshName(name: string)
    ensures Fresh(name).name == name
  {}

  lemma ReadBlock(done: map<string, Proxy>, s: Section)
    requires s.Block? && SectionOk(s)
    ensures ReadLines(Parser(None, done), SectionLines(s))
         == Parser(None, done[s.name := ApplyAll(Fresh(s.name), s.settings)])
  {
    hide ReadLine, SettingOk, Closes, HeaderLine, ApplyAll, Indented, Fresh;
    var begun := Parser(Some(Fresh(s.name)), done);
    var body := Indented(s.indent, s.settings);
    var p := ApplyAll(Fresh(s.name), s.settings);
    var lines := SectionLines(s);
    ReadHeader(done, s.name);
    ReadBody(Fresh(s.name), done, s.indent, s.settings);
    ReadConcat(begun, body, [s.closer]);
    ApplyAllKeepsName(Fresh(s.name), s.settings);
    FreshName(s.name);
    ReadCloser(p, done, s.closer);
    assert ReadLines(Parser(Some(p), done), [s.closer]) == Parser(None, done[p.name := p]) by {
      assert [s.closer][1..] == [];
    }
    assert lines[0] == HeaderLine(s.name) && lines[1..] == body + [s.closer];
  }

  lemma {:induction false} ReadSections(sections: seq<Section>, done: map<string, Proxy>)
    requires forall s <- sections :: SectionOk(s)
    ensures ReadLines(Parser(None, done), ConfigLines(sections)) == Parser(None, TableOf(sections, done))
    decreases |sections|
  {
    if sections != [] {
      var s, rest := sections[0], ConfigLines(sections[1..]);
      ReadConcat(Parser(None, done), SectionLines(s), rest);
      if s.Block? {
        ReadBlock(done, s);
        ReadSections(sections[1..], done[s.name := ApplyAll(Fresh(s.name), s.settings)]);
      } else {
        ReadForeign(done, s.lines);
        ReadSections(sections[1..], done);
      }
    }
  }

  lemma SectionIsText(s: Section)
    requires SectionOk(s)
    ensures forall l <- SectionLines(s) :: IsLine(l)
  {
    if s.Block? {
      HeaderRoundTrip(s.name);
      forall i | 0 <= i < |s.settings| ensures IsLine(s.indent + SettingLine(s.settings[i])) {
        SettingLineShape(s.settings[i]);
      }
    }
  }

  lemma {:induction false} ConfigIsText(sections: seq<Section>)
    requires forall s <- sections :: SectionOk(s)
    ensures forall l <- ConfigLines(sections) :: IsLine(l)
  {
    if sections != [] {
      SectionIsText(sections[0]);
      ConfigIsText(sections[1..]);
    }
  }

  /**
   * A running configuration of proxy blocks and foreign sections in any order parses to exactly
   * its blocks, the last block of a name winning; foreign sections leave no trace.
   */
  lemma ParseConfig(sections: seq<Section>, eol: string)
    requires forall s <- sections :: SectionOk(s)
    requires IsEol(eol)
    ensures ParseText(Unlines(ConfigLines(sections), eol)) == TableOf(sections, map[])
  {
    ConfigIsText(sections);
    ScanUnlines(ConfigLines(sections), eol);
    ReadSections(sections, map[]);
  }

  lemma {:induction false} ConfigOfTwo(a: Section, b: Section)
    ensures ConfigLines([a, b]) == SectionLines(a) + SectionLines(b)
    ensures forall res :: TableOf([a, b], res) == TableOf([b], TableOf([a], res))
  {
    hide SectionLines;
    assert [a, b][1..] == [b] && [b][1..] == [] && [a][1..] == [];
    assert ConfigLines([]) == [];
    assert ConfigLines([b]) == SectionLines(b) + ConfigLines([]) == SectionLines(b);
  }

  /** Of a block with a line the parser does not know, only what stands before that line is read. */
  lemma UnknownLineCuts(name: string, indent: string, read: seq<Setting>, unknown: string, lost: seq<Setting>,
                        closer: string, eol: string)
    requires IsWord(name) && IsLine(indent) && (forall c <- indent :: IsSpace(c)) && IsEol(eol)
    requires (forall s <- read :: SettingOk(s)) && (forall s <- lost :: SettingOk(s))
    requires IsLine(unknown) && Closes(unknown) && IsLine(closer) && Closes(closer)
    ensures var block := [HeaderLine(name)] + Indented(indent, read) + [unknown] + Indented(indent, lost) + [closer];
            ParseText(Unlines(block, eol)) == map[name := ApplyAll(Fresh(name), read)]
  {
    hide ParseText, Unlines, SettingOk, HeaderLine, Closes, ApplyAll, Fresh;
    var a, b := Block(name, indent, read, unknown), Foreign(Indented(indent, lost) + [closer]);
    LostLinesForeign(indent, lost, closer);
    ConfigOfTwo(a, b);
    assert SectionLines(a) + SectionLines(b)
        == [HeaderLine(name)] + Indented(indent, read) + [unknown] + Indented(indent, lost) + [closer];
    assert forall s <- [a, b] :: SectionOk(s);
    ParseConfig([a, b], eol);
    assert [a][1..] == [] && [b][1..] == [];
    var one := map[name := ApplyAll(Fresh(name), read)];
    assert TableOf([a], map[]) == one by { assert TableOf([], one) == one; }
    assert TableOf([b], one) == one by { assert TableOf([], one) == one; }
  }

  lemma LostLinesForeign(indent: string, lost: seq<Setting>, closer: string)
    requires IsLine(indent) && (forall c <- indent :: IsSpace(c))
    requires (forall s <- lost :: SettingOk(s)) && IsLine(closer) && Closes(closer)
    ensures SectionOk(Foreign(Indented(indent, lost) + [closer]))
  {
    hide SettingLine, SettingOk, Trim, ParseSetting;
    forall l | l in Indented(indent, lost) ensures IsLine(l) && !OpensBlock(l) {
      var i :| 0 <= i < |lost| && l == indent + SettingLine(lost[i]);
      SettingLineShape(lost[i]);
      TrimIndented(indent, SettingLine(lost[i]));
      assert HEADER[0] == 'i';
    }
  }

  // ----- the order of lines inside a block -----

  datatype Kind = OfDomain | OfUpstream | OfLevel | OfFlag(flag: Flag) | OfAuth

  function KindOf(s: Setting): Kind {
    match s
    case DomainNdns => OfDomain
    case DomainStatic(_) => OfDomain
    case Upstream(_, _, _) => OfUpstream
    case SecurityLevel(_) => OfLevel
    case Switch(f) => OfFlag(f)
    case Auth(_) => OfAuth
  }

  predicate OncePerKind(settings: seq<Setting>) {
    forall i, j | 0 <= i < j < |settings| :: KindOf(settings[i]) != KindOf(settings[j])
  }

  lemma ApplyCommutes(p: Proxy, s: Setting, t: Setting)
    requires KindOf(s) != KindOf(t)
    ensures Apply(Apply(p, s), t) == Apply(Apply(p, t), s)
  {
    if s.Switch? && t.Switch? {
      assert p.flags + {s.flag} + {t.flag} == p.flags + {t.flag} + {s.flag};
    }
  }

  lemma {:induction false} ApplyFirst(p: Proxy, before: seq<Setting>, s: Setting)
    requires forall t <- before :: KindOf(t) != KindOf(s)
    ensures ApplyAll(p, before + [s]) == ApplyAll(Apply(p, s), before)
    decreases |before|
  {
    if before != [] {
      assert (before + [s])[1..] == before[1..] + [s];
      ApplyFirst(Apply(p, before[0]), before[1..], s);
      ApplyCommutes(p, before[0], s);
    }
  }

  lemma RemoveAt(a: seq<Setting>, b: seq<Setting>, k: nat)
    requires a != [] && k < |b| && b[k] == a[0] && multiset(a) == multiset(b)
    ensures multiset(a[1..]) == multiset(b[..k] + b[k + 1..])
  {
    var before, after := b[..k], b[k + 1..];
    assert a == [a[0]] + a[1..];
    assert b == before + ([b[k]] + after);
    assert multiset(a) == multiset{a[0]} + multiset(a[1..]);
    assert multiset(b) == multiset(before) + multiset([b[k]] + after);
    assert multiset([b[k]] + after) == multiset{b[k]} + multiset(after);
    assert multiset(before + after) == multiset(before) + multiset(after);
    assert multiset(a[1..]) == multiset(a) - multiset{a[0]};
    assert multiset(before + after) == multiset(b) - multiset{b[k]};
  }

  lemma PullToFront(p: Proxy, b: seq<Setting>, k: nat)
    requires k < |b| && OncePerKind(b)
    ensures ApplyAll(p, b) == ApplyAll(Apply(p, b[k]), b[..k] + b[k + 1..])
    ensures OncePerKind(b[..k] + b[k + 1..])
  {
    hide Apply, ApplyAll, KindOf;
    var before, after := b[..k], b[k + 1..];
    assert b == before + [b[k]] + after;
    ApplyAllConcat(p, before + [b[k]], after);
    ApplyFirst(p, before, b[k]);
    ApplyAllConcat(Apply(p, b[k]), before, after);
    StillOncePerKind(b, k);
  }

  lemma StillOncePerKind(b: seq<Setting>, k: nat)
    requires k < |b| && OncePerKind(b)
    ensures OncePerKind(b[..k] + b[k + 1..])
  {
    hide KindOf;
    var rest := b[..k] + b[k + 1..];
    assert forall i | 0 <= i < |rest| :: rest[i] == if i < k then b[i] else b[i + 1];
  }

  /** Lines that each occur once may stand in any order inside a block. */
  lemma {:induction false} BlockOrderIrrelevant(p: Proxy, a: seq<Setting>, b: seq<Setting>)
    requires multiset(a) == multiset(b) && OncePerKind(a) && OncePerKind(b)
    ensures ApplyAll(p, a) == ApplyAll(p, b)
    decreases |a|
  {
    assert |a| == |multiset(a)| == |multiset(b)| == |b|;
    if a != [] {
      assert a[0] in multiset(b);
      var k :| 0 <= k < |b| && b[k] == a[0];
      PullToFront(p, b, k);
      RemoveAt(a, b, k);
      BlockOrderIrrelevant(Apply(p, a[0]), a[1..], b[..k] + b[k + 1..]);
    }
  }

  // ----- printer and parser undo each other -----

  function CommandSection(p: Proxy): Section {
    Block(p.name, "", CommandSettings(p), "exit")
  }

  function CommandSections(ps: seq<Proxy>): seq<Section> {
    if ps == [] then [] else [CommandSection(ps[0])] + CommandSections(ps[1..])
  }

  /** The commands of several entries, one entry after the other. */
  function AllCommands(ps: seq<Proxy>): seq<string> {
    if ps == [] then [] else ProxyCommands(ps[0]) + AllCommands(ps[1..])
  }

  /** p as it reads back: no zone beside `ndns`, and `auth` said only when it is on. */
  function Normalised(p: Proxy): Proxy {
    p.(zone := if p.ndns then "" else p.zone, authSet := p.auth)
  }

  lemma WordCloses(w: string)
    requires IsPrintable(w) && w[0] != 'i' && Keyword(w).None?
    ensures Closes(w) && IsLine(w)
  {
    PrintableIsWord(w);
    WordsLast(w);
    TrimIndented("", w);
    assert "" + w == w;
    assert HEADER[0] == 'i';
  }

  lemma EmptyCloses()
    ensures Closes("") && IsLine("")
  {
    EmptyIsNoSetting();
  }

  lemma ExitCloses()
    ensures Closes("exit") && IsLine("exit")
  {
    assert IsPrintable("exit");
    WordCloses("exit");
  }

  lemma BangCloses()
    ensures Closes("!") && IsLine("!")
  {
    assert IsPrintable("!");
    WordCloses("!");
  }

  lemma ApplyToFresh(p: Proxy)
    ensures ApplyAll(Fresh(p.name), CommandSettings(p)) == Normalised(p)
  {
    ApplyCommands(Fresh(p.name), p);
    assert {} + p.flags == p.flags;
  }

  lemma CommandSectionOk(p: Proxy)
    requires ProxyOk(p)
    ensures SectionOk(CommandSection(p))
    ensures SectionLines(CommandSection(p)) == ProxyCommands(p)
  {
    hide SettingLine, SettingOk, Closes, CommandSettings, HeaderLine, Indented, SettingLines, IsWord;
    CheckedName(p);
    CommandSettingsOk(p);
    ExitCloses();
    NotIndented(CommandSettings(p));
  }

  lemma CheckedName(p: Proxy)
    requires ProxyOk(p)
    ensures IsWord(p.name)
  {
    CheckedIsWord(p.name);
  }

  lemma NotIndented(settings: seq<Setting>)
    ensures Indented("", settings) == SettingLines(settings)
  {
    hide SettingLine;
    forall i | 0 <= i < |settings| ensures "" + SettingLine(settings[i]) == SettingLine(settings[i]) {}
  }

  predicate DistinctNames(ps: seq<Proxy>) {
    forall i, j | 0 <= i < j < |ps| :: ps[i].name != ps[j].name
  }

  lemma {:induction false} CommandText(ps: seq<Proxy>)
    requires forall p <- ps :: ProxyOk(p)
    ensures forall s <- CommandSections(ps) :: SectionOk(s)
    ensures ConfigLines(CommandSections(ps)) == AllCommands(ps)
  {
    if ps != [] {
      CommandSectionOk(ps[0]);
      CommandText(ps[1..]);
      assert CommandSections(ps)[1..] == CommandSections(ps[1..]);
    }
  }

  lemma {:induction false} TableElsewhere(ps: seq<Proxy>, res: map<string, Proxy>, n: string)
    requires forall p <- ps :: p.name != n
    ensures var t := TableOf(CommandSections(ps), res);
            (n in t <==> n in res) && (n in res ==> t[n] == res[n])
  {
    if ps != [] {
      TableElsewhere(ps[1..], res[ps[0].name := ApplyAll(Fresh(ps[0].name), CommandSettings(ps[0]))], n);
      assert CommandSections(ps)[1..] == CommandSections(ps[1..]);
    }
  }

  lemma {:induction false} TableAt(ps: seq<Proxy>, res: map<string, Proxy>, k: nat)
    requires DistinctNames(ps) && k < |ps|
    ensures var t := TableOf(CommandSections(ps), res);
            ps[k].name in t && t[ps[k].name] == Normalised(ps[k])
  {
    var res' := res[ps[0].name := ApplyAll(Fresh(ps[0].name), CommandSettings(ps[0]))];
    assert CommandSections(ps)[1..] == CommandSections(ps[1..]);
    if k == 0 {
      ApplyToFresh(ps[0]);
      forall p | p in ps[1..] ensures p.name != ps[0].name {}
      TableElsewhere(ps[1..], res', ps[0].name);
    } else {
      TableAt(ps[1..], res', k - 1);
    }
  }

  /**
   * Parsing the commands of a list of checked entries gives back those entries and no others,
   * each satisfying the entry it came from.
   */
  lemma PrintThenParse(ps: seq<Proxy>, eol: string)
    requires forall p <- ps :: ProxyOk(p)
    requires DistinctNames(ps)
    requires IsEol(eol)
    ensures var t := ParseText(Unlines(AllCommands(ps), eol));
            && (forall n :: n in t ==> exists k :: 0 <= k < |ps| && ps[k].name == n)
            && (forall k | 0 <= k < |ps| ::
                  ps[k].name in t && t[ps[k].name] == Normalised(ps[k]) && Satisfied(t[ps[k].name], ps[k]))
  {
    hide ProxyOk, ParseText, Unlines, Satisfied;
    CommandText(ps);
    ParseConfig(CommandSections(ps), eol);
    var t := TableOf(CommandSections(ps), map[]);
    forall n | n in t ensures exists k :: 0 <= k < |ps| && ps[k].name == n {
      if forall p <- ps :: p.name != n { TableElsewhere(ps, map[], n); }
    }
    forall k | 0 <= k < |ps|
      ensures ps[k].name in t && t[ps[k].name] == Normalised(ps[k]) && Satisfied(t[ps[k].name], ps[k])
    {
      TableAt(ps, map[], k);
      NormalisedSatisfies(ps[k]);
    }
  }

  lemma NormalisedSatisfies(p: Proxy)
    requires ProxyOk(p)
    ensures Satisfied(Normalised(p), p)
  {}

  // ----- the flat form -----

  function FlatLine(name: string, s: Setting): string { HeaderLine(name) + " " + SettingLine(s) }

  function FlatLines(name: string, settings: seq<Setting>): seq<string> {
    seq(|settings|, i requires 0 <= i < |settings| => FlatLine(name, settings[i]))
  }

  lemma FlatHeader(name: string, s: Setting)
    requires IsWord(name) && SettingOk(s)
    ensures HeaderOf(Trim(FlatLine(name, s))) == Some(Header(name, SettingLine(s)))
    ensures Opened(Header(name, SettingLine(s))) == Apply(Fresh(name), s)
  {
    hide ParseSetting, SettingLine, AfterHeader, Trim, HeaderOf, IsLine, Apply;
    var line, rest := FlatLine(name, s), SettingLine(s);
    SettingLineShape(s);
    SettingRoundTrip(s);
    FlatIsTrimmed(name, rest);
    TrimIndented("", line);
    assert "" + line == line;
    assert line == HEADER + (" " + (name + (" " + rest)));
    HeaderCut(" " + (name + (" " + rest)));
    NamedHeader(name, " " + rest);
    TrimIndented(" ", rest);
  }

  lemma FlatIsTrimmed(name: string, rest: string)
    requires rest != "" && IsTrimmed(rest)
    ensures IsTrimmed(HeaderLine(name) + " " + rest)
  {
    var line := HeaderLine(name) + " " + rest;
    assert line[0] == HEADER[0] == 'i' && line[|line| - 1] == rest[|rest| - 1];
  }

  /** Several flat lines for one name do not add up: only the last one is kept. */
  lemma {:induction false} FlatLinesKeepTheLast(name: string, settings: seq<Setting>, st: Parser)
    requires IsWord(name) && settings != []
    requires forall s <- settings :: SettingOk(s)
    requires st.cur.Some? ==> st.cur.value.name == name
    ensures ReadLines(st, FlatLines(name, settings)).Flushed()
         == st.done[name := Apply(Fresh(name), settings[|settings| - 1])]
    decreases |settings|
  {
    hide ParseSetting, SettingLine, AfterHeader, SettingOk;
    var lines := FlatLines(name, settings);
    var s, rest := settings[0], settings[1..];
    FlatHeader(name, s);
    assert ReadLine(st, lines[0]) == Parser(Some(Apply(Fresh(name), s)), st.Flushed());
    assert lines[1..] == FlatLines(name, rest);
    if rest != [] {
      FlatLinesKeepTheLast(name, rest, ReadLine(st, lines[0]));
    }
  }

  // ----- when flat lines do add up -----

  /** The entry holds something of this kind. */
  predicate Says(p: Proxy, k: Kind) {
    match k
    case OfDomain => p.ndns || p.zone != ""
    case OfUpstream => p.scheme != ""
    case OfLevel => p.level != ""
    case OfFlag(f) => f in p.flags
    case OfAuth => p.authSet
  }

  lemma SaidNow(p: Proxy, s: Setting, k: Kind)
    requires SettingOk(s) && (Says(p, k) || KindOf(s) == k)
    ensures Says(Apply(p, s), k)
  {}

  lemma {:induction false} StaysSaid(p: Proxy, settings: seq<Setting>, k: Kind)
    requires forall s <- settings :: SettingOk(s)
    requires Says(p, k) || exists s <- settings :: KindOf(s) == k
    ensures Says(ApplyAll(p, settings), k)
    decreases |settings|
  {
    hide SettingOk, Apply;
    if settings != [] {
      assert settings == [settings[0]] + settings[1..];
      if Says(p, k) || KindOf(settings[0]) == k { SaidNow(p, settings[0], k); }
      StaysSaid(Apply(p, settings[0]), settings[1..], k);
    }
  }

  lemma NothingElseSaid(name: string, s: Setting, k: Kind)
    requires k != KindOf(s)
    ensures !Says(Apply(Fresh(name), s), k)
  {}

  lemma Overwrites(p: Proxy, s: Setting, t: Setting)
    requires KindOf(s) == KindOf(t)
    ensures Apply(Apply(p, s), t) == Apply(p, t)
  {
    if s.Switch? { assert p.flags + {s.flag} + {s.flag} == p.flags + {s.flag}; }
  }

  lemma {:induction false} LastOverwrites(p: Proxy, settings: seq<Setting>)
    requires settings != []
    requires forall s <- settings :: KindOf(s) == KindOf(settings[|settings| - 1])
    ensures ApplyAll(p, settings) == Apply(p, settings[|settings| - 1])
    decreases |settings|
  {
    hide Apply, KindOf;
    var last := settings[|settings| - 1];
    if |settings| > 1 {
      LastOverwrites(Apply(p, settings[0]), settings[1..]);
      assert settings[0] in settings;
      Overwrites(p, settings[0], last);
    } else {
      assert settings[1..] == [];
    }
  }

  /** Keeping only the last of several settings loses nothing exactly when all are of one kind. */
  lemma LastSufficesExactly(name: string, settings: seq<Setting>)
    requires settings != [] && forall s <- settings :: SettingOk(s)
    ensures var last := settings[|settings| - 1];
            ApplyAll(Fresh(name), settings) == Apply(Fresh(name), last)
            <==> forall s <- settings :: KindOf(s) == KindOf(last)
  {
    hide SettingOk, Apply, ApplyAll, KindOf, Says, Fresh;
    var last := settings[|settings| - 1];
    if forall s <- settings :: KindOf(s) == KindOf(last) {
      LastOverwrites(Fresh(name), settings);
    } else {
      var s :| s in settings && KindOf(s) != KindOf(last);
      StaysSaid(Fresh(name), settings, KindOf(s));
      NothingElseSaid(name, last, KindOf(s));
    }
  }

  /** Flat lines for one name add up exactly when they all are of one kind. */
  lemma FlatLinesAddUp(name: string, settings: seq<Setting>, st: Parser)
    requires IsWord(name) && settings != []
    requires forall s <- settings :: SettingOk(s)
    requires st.cur.Some? ==> st.cur.value.name == name
    ensures ReadLines(st, FlatLines(name, settings)).Flushed() == st.done[name := ApplyAll(Fresh(name), settings)]
       <==> forall s <- settings :: KindOf(s) == KindOf(settings[|settings| - 1])
  {
    hide ReadLines, SettingOk, ApplyAll, KindOf, Apply;
    FlatLinesKeepTheLast(name, settings, st);
    LastSufficesExactly(name, settings);
    var a, b := ApplyAll(Fresh(name), settings), Apply(Fresh(name), settings[|settings| - 1]);
    assert st.done[name := a][name] == a && st.done[name := b][name] == b;
  }
}
