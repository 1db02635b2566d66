/**
 * The entries of `ip http proxy` as the operator reads and writes them: one line of a block,
 * the commands that produce an entry, the parser of a running configuration, and the comparison
 * that decides whether an entry has to be written again.
 */
module Proxies {
  import opened Text
  import opened Validation

  /** The switches that are only ever turned on, one value per boolean field of an entry. */
  datatype Flag = SslRedirect | XRealIp | PreserveHost | PreserveReferer | PreserveOrigin

  datatype Proxy = Proxy(
    name: string, zone: string, ndns: bool,
    scheme: string, address: string, port: int,
    level: string, flags: set<Flag>,
    auth: bool, authSet: bool)

  /** An entry of which only the name is known. */
  function Fresh(name: string): Proxy {
    Proxy(name, "", false, "", "", 0, "", {}, false, false)
  }

  /** What one line inside an entry's block can say. */
  datatype Setting =
    | DomainNdns
    | DomainStatic(zone: string)
    | Upstream(scheme: string, address: string, port: int)
    | SecurityLevel(level: string)
    | Switch(flag: Flag)
    | Auth(on: bool)

  function FlagLine(f: Flag): string {
    match f
    case SslRedirect => "ssl redirect"
    case XRealIp => "x-real-ip"
    case PreserveHost => "preserve-host"
    case PreserveReferer => "preserve-referer"
    case PreserveOrigin => "preserve-origin"
  }

  function SettingLine(s: Setting): string {
    match s
    case DomainNdns => "domain ndns"
    case DomainStatic(zone) => "domain static " + zone
    case Upstream(scheme, address, port) => "upstream " + scheme + " " + address + " " + Number(port)
    case SecurityLevel(level) => "security-level " + level
    case Switch(f) => FlagLine(f)
    case Auth(on) => if on then "auth" else "no auth"
  }

  /** The settings a line can carry without being misread. */
  predicate SettingOk(s: Setting) {
    match s
    case DomainStatic(zone) => IsWord(zone)
    case Upstream(scheme, address, port) =>
      (scheme == "http" || scheme == "https") && IsWord(address) && 0 <= port <= 99999
    case SecurityLevel(level) => level == "public" || level == "private"
    case _ => true
  }

  /** The lines that are read as a whole. */
  function Keyword(line: string): Option<Setting> {
    if line == "domain ndns" then Some(DomainNdns)
    else if line == "ssl redirect" then Some(Switch(SslRedirect))
    else if line == "x-real-ip" then Some(Switch(XRealIp))
    else if line == "preserve-host" then Some(Switch(PreserveHost))
    else if line == "preserve-referer" then Some(Switch(PreserveReferer))
    else if line == "preserve-origin" then Some(Switch(PreserveOrigin))
    else if line == "auth" then Some(Auth(true))
    else if line == "no auth" then Some(Auth(false))
    else None
  }

  /** The lines that are read word by word. */
  function Phrase(w: seq<string>): Option<Setting> {
    if |w| == 3 && w[0] == "domain" && w[1] == "static" then Some(DomainStatic(w[2]))
    else if |w| == 4 && w[0] == "upstream" && (w[1] == "http" || w[1] == "https")
            && IsDigits(w[3]) && |w[3]| <= 5
    then Some(Upstream(w[1], w[2], DecimalValue(w[3])))
    else if |w| == 2 && w[0] == "security-level" && (w[1] == "public" || w[1] == "private")
    then Some(SecurityLevel(w[1]))
    else None
  }

  /** What a trimmed line of a block says; None when it does not belong to a block. */
  function ParseSetting(line: string): Option<Setting> {
    match Keyword(line)
    case Some(s) => Some(s)
    case None => Phrase(Words(line))
  }

  function Apply(p: Proxy, s: Setting): Proxy {
    match s
    case DomainNdns => p.(ndns := true, zone := "")
    case DomainStatic(zone) => p.(zone := zone, ndns := false)
    case Upstream(scheme, address, port) => p.(scheme := scheme, address := address, port := port)
    case SecurityLevel(level) => p.(level := level)
    case Switch(f) => p.(flags := p.flags + {f})
    case Auth(on) => p.(auth := on, authSet := true)
  }

  function ApplyAll(p: Proxy, settings: seq<Setting>): Proxy
    decreases |settings|
  {
    if settings == [] then p else ApplyAll(Apply(p, settings[0]), settings[1..])
  }

  // ----- one line and back -----

  lemma StaticRoundTrip(zone: string)
    requires IsWord(zone)
    ensures ParseSetting(SettingLine(DomainStatic(zone))) == Some(DomainStatic(zone))
  {
    hide Words, Phrase, Keyword, IsWord, IsPrintable;
    var line := SettingLine(DomainStatic(zone));
    StaticWords();
    assert line == "domain" + " " + ("static" + " " + zone);
    WordsOfThree("domain", "static", zone);
    NoKeyword(line, zone);
    PhraseOfStatic(zone);
  }

  lemma StaticWords()
    ensures IsWord("domain") && IsWord("static")
  {
    assert IsPrintable("domain") && IsPrintable("static");
    PrintableIsWord("domain");
    PrintableIsWord("static");
  }

  lemma NoKeyword(line: string, zone: string)
    requires line == "domain static " + zone
    ensures Keyword(line).None?
  {
    assert line[0] == 'd' && line[7] == 's';
  }

  lemma PhraseOfStatic(zone: string)
    ensures Phrase(["domain", "static", zone]) == Some(DomainStatic(zone))
  {}

  lemma SchemeIsWord(scheme: string)
    requires scheme == "http" || scheme == "https"
    ensures IsWord(scheme)
  {
    assert IsPrintable("http") && IsPrintable("https");
    PrintableIsWord(scheme);
  }

  lemma LevelIsWord(level: string)
    requires level == "public" || level == "private"
    ensures IsWord(level)
  {
    assert IsPrintable("public") && IsPrintable("private");
    PrintableIsWord(level);
  }

  lemma KeywordStart(line: string)
    requires line != "" && (line[0] == 'u' || (|line| > 1 && line[0] == 's' && line[1] == 'e'))
    ensures Keyword(line).None?
  {}

  lemma UpstreamWords(scheme: string, address: string, port: int)
    requires SettingOk(Upstream(scheme, address, port))
    ensures Words(SettingLine(Upstream(scheme, address, port))) == ["upstream", scheme, address, Decimal(port)]
  {
    var digits := Decimal(port);
    assert IsPrintable("upstream");
    PrintableIsWord("upstream");
    DecimalIsWord(port);
    SchemeIsWord(scheme);
    assert SettingLine(Upstream(scheme, address, port))
        == "upstream" + " " + (scheme + " " + (address + " " + digits));
    WordsOfFour("upstream", scheme, address, digits);
  }

  lemma UpstreamRoundTrip(scheme: string, address: string, port: int)
    requires SettingOk(Upstream(scheme, address, port))
    ensures ParseSetting(SettingLine(Upstream(scheme, address, port))) == Some(Upstream(scheme, address, port))
  {
    UpstreamWords(scheme, address, port);
    DecimalRoundTrip(port);
    assert Pow10(5) == 100000;
    DecimalLength(port, 5, 100000);
    KeywordStart(SettingLine(Upstream(scheme, address, port)));
  }

  lemma LevelRoundTrip(level: string)
    requires SettingOk(SecurityLevel(level))
    ensures ParseSetting(SettingLine(SecurityLevel(level))) == Some(SecurityLevel(level))
  {
    hide Words, Phrase, Keyword, IsWord, IsPrintable;
    LevelIsWord(level);
    LevelWord();
    var line := SettingLine(SecurityLevel(level));
    assert line == "security-level" + " " + level;
    assert line[0] == 's' && line[1] == 'e';
    WordsOfTwo("security-level", level);
    KeywordStart(line);
    PhraseOfLevel(level);
  }

  lemma LevelWord()
    ensures IsWord("security-level")
  {
    assert IsPrintable("security-level");
    PrintableIsWord("security-level");
  }

  lemma PhraseOfLevel(level: string)
    requires SettingOk(SecurityLevel(level))
    ensures Phrase(["security-level", level]) == Some(SecurityLevel(level))
  {}

  /** Reading a printed line gives back the setting, the decimal port included. */
  lemma SettingRoundTrip(s: Setting)
    requires SettingOk(s)
    ensures ParseSetting(SettingLine(s)) == Some(s)
  {
    match s
    case DomainStatic(zone) => StaticRoundTrip(zone);
    case Upstream(scheme, address, port) => UpstreamRoundTrip(scheme, address, port);
    case SecurityLevel(level) => LevelRoundTrip(level);
    case _ =>
  }

  /** The digits of a port: at most five, leading zeros allowed. */
  predicate PortText(digits: string, port: int) {
    1 <= |digits| <= 5 && (forall c <- digits :: IsDigit(c)) && DecimalValue(digits) == port
  }

  /** Which lines say what. */
  ghost predicate SaysSetting(line: string, s: Setting) {
    match s
    case DomainNdns => line == "domain ndns"
    case Switch(SslRedirect) => line == "ssl redirect"
    case Switch(XRealIp) => line == "x-real-ip"
    case Switch(PreserveHost) => line == "preserve-host"
    case Switch(PreserveReferer) => line == "preserve-referer"
    case Switch(PreserveOrigin) => line == "preserve-origin"
    case Auth(on) => line == if on then "auth" else "no auth"
    case DomainStatic(zone) => Words(line) == ["domain", "static", zone]
    case SecurityLevel(level) => (level == "public" || level == "private") && Words(line) == ["security-level", level]
    case Upstream(scheme, address, port) =>
      && (scheme == "http" || scheme == "https")
      && exists digits :: PortText(digits, port) && Words(line) == ["upstream", scheme, address, digits]
  }

  lemma PhraseExactly(line: string, s: Setting)
    ensures Phrase(Words(line)) == Some(s) <==>
              (s.DomainStatic? || s.SecurityLevel? || s.Upstream?) && SaysSetting(line, s)
  {
    hide Words;
    var w := Words(line);
    if Phrase(w) == Some(s) {
      assert s.Upstream? ==> PortText(w[3], s.port) && w == ["upstream", s.scheme, s.address, w[3]];
    }
  }

  lemma PrintableWords(a: string, b: string)
    requires IsPrintable(a) && IsPrintable(b)
    ensures Words(a) == [a] && Words(a + " " + b) == [a, b]
  {
    hide Words, IsWord, IsPrintable;
    PrintableIsWord(a);
    PrintableIsWord(b);
    WordsLast(a);
    WordsOfTwo(a, b);
  }

  lemma OneWordLine(line: string)
    requires line in ["x-real-ip", "preserve-host", "preserve-referer", "preserve-origin", "auth"]
    ensures IsPrintable(line) && |Words(line)| == 1
  {
    hide Words;
    assert IsPrintable(line);
    PrintableWords(line, line);
  }

  lemma TwoWordLine(line: string, a: string, b: string)
    requires IsPrintable(a) && IsPrintable(b) && line == a + " " + b && a != "security-level"
    ensures Phrase(Words(line)).None?
  {
    hide Words, IsPrintable;
    PrintableWords(a, b);
  }

  /** The keyword lines are no phrases. */
  lemma KeywordWords(line: string)
    requires Keyword(line).Some?
    ensures Phrase(Words(line)).None?
  {
    hide Words;
    if line == "domain ndns" {
      TwoWordLine(line, "domain", "ndns");
    } else if line == "ssl redirect" {
      TwoWordLine(line, "ssl", "redirect");
    } else if line == "no auth" {
      TwoWordLine(line, "no", "auth");
    } else {
      OneWordLine(line);
    }
  }

  /** A line is recognised as a setting exactly if it says it. */
  lemma RecognisedExactly(line: string, s: Setting)
    ensures ParseSetting(line) == Some(s) <==> SaysSetting(line, s)
  {
    hide Words, Phrase;
    PhraseExactly(line, s);
    if Keyword(line).Some? { KeywordWords(line); }
  }

  lemma LineOfWords(a: string, b: string)
    requires a != "" && IsLine(a) && !IsSpace(a[0])
    requires IsWord(b)
    ensures IsLine(a + b) && IsTrimmed(a + b) && a + b != "" && (a + b)[0] == a[0]
  {
    WordIsLine(b);
  }

  lemma UpstreamShape(scheme: string, address: string, port: int)
    requires SettingOk(Upstream(scheme, address, port))
    ensures var l := SettingLine(Upstream(scheme, address, port));
            IsTrimmed(l) && IsLine(l) && l != "" && l[0] != 'i'
  {
    SchemeIsWord(scheme);
    WordIsLine(scheme);
    WordIsLine(address);
    var before := "upstream " + scheme + " " + address + " ";
    assert before[0] == 'u';
    assert IsLine("upstream ");
    DecimalIsWord(port);
    LineOfWords(before, Decimal(port));
  }

  lemma FlagLineShape(f: Flag)
    ensures var l := FlagLine(f); IsTrimmed(l) && IsLine(l) && l != "" && l[0] != 'i'
  {}

  lemma SettingLineShape(s: Setting)
    requires SettingOk(s)
    ensures IsTrimmed(SettingLine(s)) && IsLine(SettingLine(s))
    ensures SettingLine(s) != "" && SettingLine(s)[0] != 'i'
  {
    match s
    case DomainStatic(zone) =>
      assert IsLine("domain static ");
      LineOfWords("domain static ", zone);
    case Upstream(scheme, address, port) =>
      UpstreamShape(scheme, address, port);
    case SecurityLevel(level) =>
      assert IsLine("security-level ");
      LevelIsWord(level);
      LineOfWords("security-level ", level);
    case Switch(f) =>
      FlagLineShape(f);
    case _ =>
  }

  lemma WordIsLine(w: string)
    requires IsWord(w)
    ensures IsLine(w) && IsTrimmed(w)
  {
    assert w[0] in w && w[|w| - 1] in w;
  }

  // ----- headers -----

  const HEADER: string := "ip http proxy"

  datatype Header = Header(name: string, rest: string)

  function AfterHeader(s: string): Option<Header> {
    var t := SkipBlanks(s);
    if s == "" || !IsBlank(s[0]) || t == "" then None
    else Some(Header(t[..WordLength(t)], Trim(t[WordLength(t)..])))
  }

  /** The entry name and the flat remainder of a line that opens a block. */
  function HeaderOf(line: string): Option<Header> {
    if |line| < |HEADER| || line[..|HEADER|] != HEADER then None
    else AfterHeader(line[|HEADER|..])
  }

  function HeaderLine(name: string): string { HEADER + " " + name }

  lemma HeaderCut(s: string)
    ensures HeaderOf(HEADER + s) == AfterHeader(s)
  {
    assert (HEADER + s)[..|HEADER|] == HEADER;
    assert (HEADER + s)[|HEADER|..] == s;
  }

  lemma NamedHeader(name: string, rest: string)
    requires IsWord(name)
    requires rest == "" || IsBlank(rest[0])
    ensures AfterHeader(" " + (name + rest)) == Some(Header(name, Trim(rest)))
  {
    var t := name + rest;
    assert (" " + t)[1..] == t;
    assert name[0] in name && t[0] == name[0];
    assert SkipBlanks(t) == t;
    assert SkipBlanks(" " + t) == t;
    WordLengthOf(name, rest);
    assert t[..|name|] == name && t[|name|..] == rest;
  }

  lemma HeaderRoundTrip(name: string)
    requires IsWord(name)
    ensures HeaderOf(HeaderLine(name)) == Some(Header(name, ""))
    ensures IsTrimmed(HeaderLine(name)) && IsLine(HeaderLine(name))
  {
    assert HeaderLine(name) == HEADER + (" " + (name + ""));
    HeaderCut(" " + (name + ""));
    NamedHeader(name, "");
    assert IsLine(HEADER + " ");
    LineOfWords(HEADER + " ", name);
  }

  lemma {:induction false} SkippedBlanks(s: string)
    ensures |SkipBlanks(s)| <= |s| && s[|s| - |SkipBlanks(s)|..] == SkipBlanks(s)
    ensures forall c <- s[..|s| - |SkipBlanks(s)|] :: IsBlank(c)
  {
    if s != "" && IsBlank(s[0]) {
      SkippedBlanks(s[1..]);
      var n := |s| - |SkipBlanks(s)|;
      assert s[..n] == [s[0]] + s[1..][..n - 1] && s[n..] == s[1..][n - 1..];
    }
  }

  lemma {:induction false} SkipGap(gap: string, t: string)
    requires (forall c <- gap :: IsBlank(c)) && (t != "" ==> !IsBlank(t[0]))
    ensures SkipBlanks(gap + t) == t
  {
    if gap == "" {
      assert gap + t == t;
    } else {
      assert gap[0] in gap && (gap + t)[1..] == gap[1..] + t;
      SkipGap(gap[1..], t);
    }
  }

  /** The line consists of the three words, blanks, the name, and nothing or a blank and anything else. */
  predicate OpensFor(line: string, gap: string, name: string, tail: string) {
    && line == "ip http proxy" + gap + name + tail
    && gap != "" && (forall c <- gap :: IsBlank(c))
    && name != "" && (forall c <- name :: !IsBlank(c))
    && (tail == "" || IsBlank(tail[0]))
  }

  lemma OpenedSo(line: string) returns (gap: string, tail: string)
    requires HeaderOf(line).Some?
    ensures OpensFor(line, gap, HeaderOf(line).value.name, tail)
  {
    hide SkipBlanks, Trim, WordLength;
    var s := line[|HEADER|..];
    var t := SkipBlanks(s);
    SkippedBlanks(s);
    var name := t[..WordLength(t)];
    gap, tail := s[..|s| - |t|], t[WordLength(t)..];
    assert HeaderOf(line).value.name == name;
    assert gap != "" by { assert gap == "" ==> t == s; }
    HeaderParts(line, s, t, gap, name, tail);
  }

  lemma HeaderParts(line: string, s: string, t: string, gap: string, name: string, tail: string)
    requires |line| >= |HEADER| && line[..|HEADER|] == HEADER && s == line[|HEADER|..]
    requires |t| <= |s| && gap == s[..|s| - |t|] && s[|s| - |t|..] == t
    requires |name| <= |t| && name == t[..|name|] && tail == t[|name|..]
    ensures line == "ip http proxy" + gap + name + tail
  {
    assert line == HEADER + s;
    assert s == gap + t;
    assert t == name + tail;
    assert HEADER + (gap + (name + tail)) == HEADER + gap + name + tail;
  }

  lemma OpensSo(line: string, gap: string, name: string, tail: string)
    requires OpensFor(line, gap, name, tail)
    ensures HeaderOf(line).Some? && HeaderOf(line).value.name == name
  {
    hide SkipBlanks, Trim, HeaderOf;
    var t := name + tail;
    assert line == HEADER + (gap + t);
    HeaderCut(gap + t);
    assert name[0] in name && t[0] == name[0] && gap[0] in gap && (gap + t)[0] == gap[0];
    SkipGap(gap, t);
    WordLengthOf(name, tail);
    assert t[..|name|] == name;
  }

  /** Which lines open a block, and of which name. */
  lemma HeaderExactly(line: string, name: string)
    ensures HeaderOf(line).Some? && HeaderOf(line).value.name == name <==>
              exists gap, tail :: OpensFor(line, gap, name, tail)
  {
    hide HeaderOf, OpensFor;
    if HeaderOf(line).Some? { var gap, tail := OpenedSo(line); }
    if gap, tail :| OpensFor(line, gap, name, tail) { OpensSo(line, gap, name, tail); }
  }

  // ----- the parser, one line at a time -----

  /** The entry whose block is open, and the entries already closed. */
  datatype Parser = Parser(cur: Option<Proxy>, done: map<string, Proxy>) {
    function Flushed(): map<string, Proxy> {
      if cur.None? then done else done[cur.value.name := cur.value]
    }
  }

  /** The entry a header opens, with the flat remainder applied when it is a setting. */
  function Opened(h: Header): Proxy {
    match ParseSetting(h.rest)
    case None => Fresh(h.name)
    case Some(s) => Apply(Fresh(h.name), s)
  }

  function ReadLine(st: Parser, raw: string): Parser {
    var line := Trim(raw);
    match HeaderOf(line)
    case Some(h) => Parser(Some(Opened(h)), st.Flushed())
    case None =>
      if st.cur.None? then st else
      match ParseSetting(line)
      case Some(s) => st.(cur := Some(Apply(st.cur.value, s)))
      case None => Parser(None, st.Flushed())
  }

  function ReadLines(st: Parser, lines: seq<string>): Parser
    decreases |lines|
  {
    if lines == [] then st else ReadLines(ReadLine(st, lines[0]), lines[1..])
  }

  const START := Parser(None, map[])

  function ParseText(text: string): map<string, Proxy> {
    ReadLines(START, ScanLines(text)).Flushed()
  }

  // ----- comparison -----

  predicate DomainSatisfied(cur: Proxy, want: Proxy) {
    if want.ndns then cur.ndns else !cur.ndns && EqualFold(cur.zone, want.zone)
  }

  /** Whether the entry the router shows is good enough to be left alone. */
  predicate Satisfied(cur: Proxy, want: Proxy) {
    && DomainSatisfied(cur, want)
    && cur.scheme == want.scheme && cur.address == want.address && cur.port == want.port
    && !(cur.level != "" && cur.level != want.level)
    && !(cur.authSet && cur.auth != want.auth)
    && want.flags <= cur.flags
  }

  // ----- checks and commands -----

  predicate ProxyOk(p: Proxy) {
    && NameOk(p.name)
    && (!p.ndns ==> HostnameOk(p.zone))
    && Ipv4Ok(p.address)
    && 1 <= p.port <= 65535
    && (p.scheme == "http" || p.scheme == "https")
    && (p.level == "public" || p.level == "private")
  }

  const FLAG_ORDER := [SslRedirect, XRealIp, PreserveHost, PreserveReferer, PreserveOrigin]

  function FlagSettings(flags: set<Flag>, order: seq<Flag>): seq<Setting> {
    if order == [] then []
    else (if order[0] in flags then [Switch(order[0])] else []) + FlagSettings(flags, order[1..])
  }

  /** The settings that bring an entry to p, in the order they are sent. */
  function CommandSettings(p: Proxy): seq<Setting>
  {
    [if p.ndns then DomainNdns else DomainStatic(p.zone),
     Upstream(p.scheme, p.address, p.port),
     SecurityLevel(p.level)]
    + FlagSettings(p.flags, FLAG_ORDER)
    + (if p.auth then [Auth(true)] else [])
  }

  function SettingLines(settings: seq<Setting>): seq<string> {
    seq(|settings|, i requires 0 <= i < |settings| => SettingLine(settings[i]))
  }

  function ProxyCommands(p: Proxy): seq<string>
  {
    [HeaderLine(p.name)] + SettingLines(CommandSettings(p)) + ["exit"]
  }

  lemma {:induction false} FlagSettingsOk(flags: set<Flag>, order: seq<Flag>)
    ensures forall s <- FlagSettings(flags, order) :: s.Switch?
  {
    if order != [] { FlagSettingsOk(flags, order[1..]); }
  }

  lemma CommandSettingsOk(p: Proxy)
    requires ProxyOk(p)
    ensures forall s <- CommandSettings(p) :: SettingOk(s)
  {
    CheckedIsWord(p.address);
    if !p.ndns { CheckedIsWord(p.zone); }
    FlagSettingsOk(p.flags, FLAG_ORDER);
  }

  /** What an entry becomes when every setting sent for p has been applied to it. */
  function Merged(e: Proxy, p: Proxy): Proxy {
    e.(ndns := p.ndns, zone := if p.ndns then "" else p.zone,
       scheme := p.scheme, address := p.address, port := p.port, level := p.level,
       flags := e.flags + p.flags,
       auth := e.auth || p.auth, authSet := e.authSet || p.auth)
  }

  lemma {:induction false} ApplyAllConcat(p: Proxy, a: seq<Setting>, b: seq<Setting>)
    ensures ApplyAll(p, a + b) == ApplyAll(ApplyAll(p, a), b)
    decreases |a|
  {
    if a == [] {
      assert a + b == b;
    } else {
      assert (a + b)[1..] == a[1..] + b;
      ApplyAllConcat(Apply(p, a[0]), a[1..], b);
    }
  }

  function Chosen(flags: set<Flag>, order: seq<Flag>): set<Flag> { set f | f in order && f in flags }

  lemma ChosenNext(flags: set<Flag>, order: seq<Flag>)
    requires order != []
    ensures Chosen(flags, order)
         == (if order[0] in flags then {order[0]} else {}) + Chosen(flags, order[1..])
  {
    assert order == [order[0]] + order[1..];
  }

  lemma {:induction false} ApplyFlags(e: Proxy, flags: set<Flag>, order: seq<Flag>)
    ensures ApplyAll(e, FlagSettings(flags, order)) == e.(flags := e.flags + Chosen(flags, order))
    decreases |order|
  {
    if order != [] {
      hide Chosen;
      var first := if order[0] in flags then [Switch(order[0])] else [];
      var e' := e.(flags := e.flags + if order[0] in flags then {order[0]} else {});
      ApplyAllConcat(e, first, FlagSettings(flags, order[1..]));
      assert e.flags + {} == e.flags && [Switch(order[0])][1..] == [];
      assert ApplyAll(e, first) == e';
      ApplyFlags(e', flags, order[1..]);
      ChosenNext(flags, order);
      assert e'.flags + Chosen(flags, order[1..]) == e.flags + Chosen(flags, order);
    } else {
      assert e.flags + {} == e.flags && Chosen(flags, []) == {};
    }
  }

  lemma ApplyThree(e: Proxy, s: seq<Setting>)
    requires |s| == 3
    ensures ApplyAll(e, s) == Apply(Apply(Apply(e, s[0]), s[1]), s[2])
  {
    var t := s[1..];
    assert t[1..] == [s[2]] && [s[2]][1..] == [];
    assert ApplyAll(Apply(Apply(e, s[0]), s[1]), [s[2]]) == Apply(Apply(Apply(e, s[0]), s[1]), s[2]);
  }

  lemma ApplyCommands(e: Proxy, p: Proxy)
    ensures ApplyAll(e, CommandSettings(p)) == Merged(e, p)
  {
    var first := [if p.ndns then DomainNdns else DomainStatic(p.zone),
                  Upstream(p.scheme, p.address, p.port), SecurityLevel(p.level)];
    var flags := FlagSettings(p.flags, FLAG_ORDER);
    var last := if p.auth then [Auth(true)] else [];
    ApplyAllConcat(e, first + flags, last);
    ApplyAllConcat(e, first, flags);
    ApplyThree(e, first);
    assert ApplyAll(e, first)
        == e.(ndns := p.ndns, zone := if p.ndns then "" else p.zone,
              scheme := p.scheme, address := p.address, port := p.port, level := p.level) by {
      assert first[1..][1..][1..] == [];
    }
    ApplyFlags(ApplyAll(e, first), p.flags, FLAG_ORDER);
    AllFlagsInOrder(p.flags);
  }

  lemma AllFlagsInOrder(flags: set<Flag>)
    ensures Chosen(flags, FLAG_ORDER) == flags
  {
    forall f: Flag ensures f in FLAG_ORDER {
      assert f == FLAG_ORDER[match f case SslRedirect => 0 case XRealIp => 1 case PreserveHost => 2
                             case PreserveReferer => 3 case PreserveOrigin => 4];
    }
  }
}
