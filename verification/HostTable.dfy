/**
 * The router's `ip host` table, keyed by (name, address): how it is printed and read back, and the
 * commands after which a name has exactly one address.
 */
module HostTable {
  import opened Text
  import opened Validation
  import opened Terminal

  datatype Pair = Pair(name: string, addr: string)

  // ----- reading -----

  datatype Found = Found(pair: Pair, rest: string)

  const IP_HOST: string := "ip host"

  predicate StartsWith(s: string, prefix: string) { |s| >= |prefix| && s[..|prefix|] == prefix }

  /** An entry at the very beginning of s, blanks and line ends before it included. */
  function MatchHost(s: string): (r: Option<Found>)
    ensures r.Some? ==> |r.value.rest| < |s|
  {
    var t := SkipBlanks(s);
    if !StartsWith(t, IP_HOST) then None else MatchArguments(t[|IP_HOST|..])
  }

  function MatchArguments(s: string): (r: Option<Found>)
    ensures r.Some? ==> |r.value.rest| < |s|
  {
    var t := SkipBlanks(s);
    var n := WordLength(t);
    var u := SkipBlanks(t[n..]);
    if s == "" || !IsBlank(s[0]) || t == "" || u == "" then None
    else Some(Found(Pair(t[..n], u[..WordLength(u)]), u[WordLength(u)..]))
  }

  /** All entries of a text; each starts at the beginning of a line. */
  function ScanHosts(s: string, lineStart: bool): seq<Pair>
    decreases |s|
  {
    if s == "" then [] else
    match (if lineStart then MatchHost(s) else None)
    case Some(f) => [f.pair] + ScanHosts(f.rest, false)
    case None => ScanHosts(s[1..], s[0] == '\n')
  }

  /** The addresses of a name, in the order of the table. */
  function AddrsOf(pairs: seq<Pair>, n: string): seq<string> {
    if pairs == [] then []
    else if Lower(pairs[0].name) == n then [pairs[0].addr] + AddrsOf(pairs[1..], n)
    else AddrsOf(pairs[1..], n)
  }

  function NamesOf(pairs: seq<Pair>): set<string> { set p | p in pairs :: Lower(p.name) }

  function Grouped(pairs: seq<Pair>): map<string, seq<string>> {
    map n | n in NamesOf(pairs) :: AddrsOf(pairs, n)
  }

  lemma {:induction false} AddrsOfSnoc(pairs: seq<Pair>, p: Pair, n: string)
    ensures AddrsOf(pairs + [p], n) == AddrsOf(pairs, n) + if Lower(p.name) == n then [p.addr] else []
  {
    if pairs == [] {
      assert [p][1..] == [];
    } else {
      assert (pairs + [p])[1..] == pairs[1..] + [p];
      AddrsOfSnoc(pairs[1..], p, n);
    }
  }

  lemma {:induction false} AddrsOfAbsent(pairs: seq<Pair>, n: string)
    ensures AddrsOf(pairs, n) == [] <==> n !in NamesOf(pairs)
  {
    if pairs != [] {
      AddrsOfAbsent(pairs[1..], n);
      assert NamesOf(pairs) == {Lower(pairs[0].name)} + NamesOf(pairs[1..]) by {
        assert pairs == [pairs[0]] + pairs[1..];
      }
    }
  }

  lemma GroupedSnoc(pairs: seq<Pair>, p: Pair)
    ensures var host, g := Lower(p.name), Grouped(pairs);
            Grouped(pairs + [p]) == g[host := (if host in g then g[host] else []) + [p.addr]]
  {
    hide Lower;
    var host, g := Lower(p.name), Grouped(pairs);
    assert NamesOf(pairs + [p]) == NamesOf(pairs) + {host};
    AddrsOfAbsent(pairs, host);
    forall n | n in NamesOf(pairs + [p])
      ensures Grouped(pairs + [p])[n] == g[host := (if host in g then g[host] else []) + [p.addr]][n]
    {
      AddrsOfSnoc(pairs, p, n);
    }
  }

  /** Every name with all its addresses. */
  method ListHosts(text: string) returns (res: map<string, seq<string>>)
    ensures res == Grouped(ScanHosts(text, true))
  {
    hide Grouped, Lower;
    var pairs := ScanHosts(text, true);
    res := map[];
    assert Grouped([]) == map[] by { NothingGrouped(); }
    for i := 0 to |pairs|
      invariant res == Grouped(pairs[..i])
    {
      var host := Lower(pairs[i].name);
      assert pairs[..i + 1] == pairs[..i] + [pairs[i]];
      GroupedSnoc(pairs[..i], pairs[i]);
      res := res[host := (if host in res then res[host] else []) + [pairs[i].addr]];
    }
    assert pairs[..|pairs|] == pairs;
  }

  lemma NothingGrouped()
    ensures Grouped([]) == map[]
  {}

  /** How many pairs have a name outside a set. */
  ghost function CountOutside(pairs: seq<Pair>, names: set<string>): nat {
    if pairs == [] then 0
    else (if Lower(pairs[0].name) in names then 0 else 1) + CountOutside(pairs[1..], names)
  }

  lemma {:induction false} CountOneMore(pairs: seq<Pair>, names: set<string>, n: string)
    requires n in names
    ensures CountOutside(pairs, names - {n}) == CountOutside(pairs, names) + |AddrsOf(pairs, n)|
  {
    if pairs != [] { CountOneMore(pairs[1..], names, n); }
  }

  lemma {:induction false} CountEnds(pairs: seq<Pair>, names: set<string>)
    ensures NamesOf(pairs) <= names ==> CountOutside(pairs, names) == 0
    ensures CountOutside(pairs, {}) == |pairs|
  {
    if pairs != [] {
      assert pairs == [pairs[0]] + pairs[1..];
      assert NamesOf(pairs) == {Lower(pairs[0].name)} + NamesOf(pairs[1..]);
      CountEnds(pairs[1..], names);
    }
  }

  /** The number of entries, counted by address and not by name. */
  method CountHosts(text: string) returns (n: nat)
    ensures n == |ScanHosts(text, true)|
  {
    ghost var pairs := ScanHosts(text, true);
    var hosts := ListHosts(text);
    var rest := hosts.Keys;
    n := 0;
    CountEnds(pairs, rest);
    while rest != {}
      invariant rest <= NamesOf(pairs)
      invariant n == CountOutside(pairs, rest)
    {
      var k :| k in rest;
      CountOneMore(pairs, rest, k);
      n := n + |hosts[k]|;
      rest := rest - {k};
    }
    CountEnds(pairs, {});
  }

  method HasHost(text: string, host: string, ip: string) returns (has: bool)
    ensures has <==> ip in AddrsOf(ScanHosts(text, true), Lower(host))
  {
    var hosts := ListHosts(text);
    AddrsOfAbsent(ScanHosts(text, true), Lower(host));
    has := Lower(host) in hosts && ip in hosts[Lower(host)];
  }

  // ----- printing and reading back -----

  /** A line of a printed configuration: an entry of the table, or any other line. */
  datatype Item = HostItem(indent: string, pair: Pair) | OtherItem(line: string)

  function ItemLine(i: Item): string {
    match i
    case HostItem(indent, p) => indent + IP_HOST + " " + p.name + " " + p.addr
    case OtherItem(line) => line
  }

  predicate ItemOk(i: Item) {
    match i
    case HostItem(indent, p) => IsLine(indent) && (forall c <- indent :: IsBlank(c)) && IsWord(p.name) && IsWord(p.addr)
    case OtherItem(line) => IsLine(line) && !BeginsEntry(SkipBlanks(line))
  }

  /** The words `ip host`, and not just letters that go on. */
  predicate BeginsEntry(t: string) {
    StartsWith(t, IP_HOST) && (|t| == |IP_HOST| || IsBlank(t[|IP_HOST|]))
  }

  function ItemsText(items: seq<Item>, eol: string): string {
    if items == [] then "" else ItemLine(items[0]) + eol + ItemsText(items[1..], eol)
  }

  function PairsOf(items: seq<Item>): seq<Pair> {
    if items == [] then []
    else if items[0].HostItem? then [items[0].pair] + PairsOf(items[1..])
    else PairsOf(items[1..])
  }

  lemma {:induction false} SkipIndent(indent: string, s: string)
    requires forall c <- indent :: IsBlank(c)
    ensures SkipBlanks(indent + s) == SkipBlanks(s)
  {
    if indent == "" {
      assert indent + s == s;
    } else {
      assert indent[0] in indent;
      assert (indent + s)[1..] == indent[1..] + s;
      SkipIndent(indent[1..], s);
    }
  }

  lemma {:induction false} SkipToEnd(line: string, eol: string, rest: string)
    requires IsLine(line) && IsEol(eol)
    ensures ScanHosts(line + eol + rest, false) == ScanHosts(rest, true)
  {
    var s := line + eol + rest;
    if line != "" {
      LineTail(line);
      assert s[1..] == line[1..] + eol + rest;
      SkipToEnd(line[1..], eol, rest);
    } else if eol == "\n" {
      assert s[1..] == rest;
    } else {
      assert s[1..] == "\n" + rest;
      assert ("\n" + rest)[1..] == rest;
    }
  }

  lemma MatchPrintedArguments(p: Pair, rest: string)
    requires IsWord(p.name) && IsWord(p.addr) && rest != "" && IsBlank(rest[0])
    ensures MatchArguments(" " + (p.name + (" " + (p.addr + rest)))) == Some(Found(p, rest))
  {
    assert p.name[0] in p.name && p.addr[0] in p.addr;
    var v := p.addr + rest;
    var u := p.name + (" " + v);
    SkipIndent(" ", u);
    assert SkipBlanks(u) == u;
    WordLengthOf(p.name, " " + v);
    assert u[..|p.name|] == p.name && u[|p.name|..] == " " + v;
    SkipIndent(" ", v);
    assert SkipBlanks(v) == v;
    WordLengthOf(p.addr, rest);
    assert v[..|p.addr|] == p.addr && v[|p.addr|..] == rest;
  }

  lemma MatchPrinted(indent: string, p: Pair, rest: string)
    requires ItemOk(HostItem(indent, p)) && rest != "" && IsBlank(rest[0])
    ensures MatchHost(ItemLine(HostItem(indent, p)) + rest) == Some(Found(p, rest))
  {
    hide MatchArguments;
    var tail := " " + (p.name + (" " + (p.addr + rest)));
    var t := IP_HOST + tail;
    assert ItemLine(HostItem(indent, p)) + rest == indent + t;
    SkipIndent(indent, t);
    assert IP_HOST[0] == 'i';
    assert SkipBlanks(t) == t;
    assert t[..|IP_HOST|] == IP_HOST && t[|IP_HOST|..] == tail;
    MatchPrintedArguments(p, rest);
  }

  lemma NoMatchOther(line: string, rest: string)
    requires ItemOk(OtherItem(line)) && SkipBlanks(line) != ""
    requires rest != "" && (rest[0] == '\n' || rest[0] == '\r')
    ensures MatchHost(line + rest).None?
  {
    hide SkipBlanks;
    SkipBlanksConcat(line, rest);
    NotAnEntry(SkipBlanks(line), rest);
  }

  lemma NotAnEntry(t: string, rest: string)
    requires !BeginsEntry(t) && rest != "" && (rest[0] == '\n' || rest[0] == '\r')
    ensures StartsWith(t + rest, IP_HOST) ==> MatchArguments((t + rest)[|IP_HOST|..]).None?
  {
    hide SkipBlanks;
    var s := t + rest;
    assert s[|t|] == rest[0];
    assert forall i | 0 <= i < |IP_HOST| :: IP_HOST[i] != '\n' && IP_HOST[i] != '\r';
    assert |t| < |IP_HOST| <= |s| ==> s[..|IP_HOST|][|t|] == rest[0];
    assert |t| >= |IP_HOST| ==> s[..|IP_HOST|] == t[..|IP_HOST|];
  }

  lemma {:induction false} OnlyBlanks(line: string)
    requires SkipBlanks(line) == ""
    ensures forall c <- line :: IsBlank(c)
  {
    if line != "" { OnlyBlanks(line[1..]); }
  }

  /** A blank line changes nothing, although the search for an entry may run across it. */
  lemma BlankLine(line: string, eol: string, rest: string)
    requires IsLine(line) && SkipBlanks(line) == "" && IsEol(eol)
    ensures ScanHosts(line + eol + rest, true) == ScanHosts(rest, true)
  {
    hide SkipBlanks, MatchArguments;
    var s := line + eol + rest;
    OnlyBlanks(line);
    SkipIndent(line + eol, rest);
    assert MatchHost(s) == MatchHost(rest) && s != "";
    if MatchHost(rest).None? {
      if line != "" {
        LineTail(line);
        assert s[1..] == line[1..] + eol + rest;
        SkipToEnd(line[1..], eol, rest);
      } else if eol == "\n" {
        assert s[1..] == rest;
      } else {
        assert s[1..] == "" + "\n" + rest;
        SkipToEnd("", "\n", rest);
      }
    }
  }

  lemma {:induction false} SkipBlanksConcat(s: string, rest: string)
    requires SkipBlanks(s) != ""
    ensures SkipBlanks(s + rest) == SkipBlanks(s) + rest
  {
    if IsBlank(s[0]) {
      assert (s + rest)[1..] == s[1..] + rest;
      SkipBlanksConcat(s[1..], rest);
    }
  }

  /** A printed configuration reads back as exactly the pairs of the table, in order. */
  lemma {:induction false} HostsReadBack(items: seq<Item>, eol: string)
    requires forall i <- items :: ItemOk(i)
    requires IsEol(eol)
    ensures ScanHosts(ItemsText(items, eol), true) == PairsOf(items)
  {
    if items != [] {
      HostsReadBack(items[1..], eol);
      ItemReadBack(items[0], eol, ItemsText(items[1..], eol));
    }
  }

  lemma ItemReadBack(item: Item, eol: string, rest: string)
    requires ItemOk(item) && IsEol(eol)
    ensures ScanHosts(ItemLine(item) + eol + rest, true)
         == if item.HostItem? then [item.pair] + ScanHosts(rest, true) else ScanHosts(rest, true)
  {
    hide MatchHost, IsWord, StartsWith, ItemLine;
    var line := ItemLine(item);
    var s := line + (eol + rest);
    assert line + eol + rest == s;
    match item
    case HostItem(indent, p) =>
      assert s != "";
      MatchPrinted(indent, p, eol + rest);
      SkipToEnd("", eol, rest);
      assert "" + eol + rest == eol + rest;
    case OtherItem(_) =>
      OtherLine(item);
      if SkipBlanks(line) == "" {
        BlankLine(line, eol, rest);
      } else {
        NoMatchOther(line, eol + rest);
        LineTail(line);
        assert s[1..] == line[1..] + eol + rest;
        SkipToEnd(line[1..], eol, rest);
      }
  }

  lemma OtherLine(item: Item)
    requires item.OtherItem? && ItemOk(item)
    ensures ItemLine(item) == item.line && IsLine(item.line)
    ensures SkipBlanks(item.line) != "" ==> item.line != ""
  {}

  // ----- commands and what they do -----

  function AddLine(host: string, addr: string): string { IP_HOST + " " + host + " " + addr }

  function NoHostLine(host: string, addr: string): string { "no " + AddLine(host, addr) }

  /** The pairs that stay when a name loses a set of addresses. */
  function Without(pairs: seq<Pair>, n: string, addrs: set<string>): seq<Pair> {
    if pairs == [] then []
    else if pairs[0].name == n && pairs[0].addr in addrs then Without(pairs[1..], n, addrs)
    else [pairs[0]] + Without(pairs[1..], n, addrs)
  }

  /** One command at the top level. The router folds the case of a name and keeps a pair once. */
  function Exec(pairs: seq<Pair>, line: string): seq<Pair> {
    var w := Words(line);
    if |w| == 4 && w[0] == "ip" && w[1] == "host" then
      var p := Pair(Lower(w[2]), w[3]);
      if p in pairs then pairs else pairs + [p]
    else if |w| == 5 && w[0] == "no" && w[1] == "ip" && w[2] == "host" then
      Without(pairs, Lower(w[3]), {w[4]})
    else pairs
  }

  function ExecAll(pairs: seq<Pair>, lines: seq<string>): seq<Pair>
    decreases |lines|
  {
    if lines == [] then pairs else ExecAll(Exec(pairs, lines[0]), lines[1..])
  }

  /** The tables a router can hold. */
  predicate TableOk(pairs: seq<Pair>) {
    && (forall p <- pairs :: Lower(p.name) == p.name && IsWord(p.name) && IsWord(p.addr))
    && (forall i, j | 0 <= i < j < |pairs| :: pairs[i] != pairs[j])
  }

  function Removals(host: string, ip: string, current: seq<string>): seq<string> {
    if current == [] then []
    else if current[0] == ip then Removals(host, ip, current[1..])
    else [NoHostLine(host, current[0])] + Removals(host, ip, current[1..])
  }

  /** The commands after which host has the address ip and no other. */
  function HostCommands(host: string, ip: string, current: seq<string>): seq<string> {
    Removals(host, ip, current) + if ip in current then [] else [AddLine(host, ip)]
  }

  lemma {:induction false} RemovalsSnoc(host: string, ip: string, current: seq<string>, a: string)
    ensures Removals(host, ip, current + [a])
         == Removals(host, ip, current) + if a == ip then [] else [NoHostLine(host, a)]
  {
    if current == [] {
      assert [a][1..] == [];
    } else {
      assert (current + [a])[1..] == current[1..] + [a];
      RemovalsSnoc(host, ip, current[1..], a);
    }
  }

  method BuildHostCommands(host: string, ip: string, current: seq<string>) returns (cmds: seq<string>)
    ensures cmds == HostCommands(host, ip, current)
  {
    hide NoHostLine, AddLine;
    cmds := [];
    var found := false;
    for i := 0 to |current|
      invariant cmds == Removals(host, ip, current[..i])
      invariant found <==> ip in current[..i]
    {
      assert current[..i + 1] == current[..i] + [current[i]];
      RemovalsSnoc(host, ip, current[..i], current[i]);
      if current[i] == ip {
        found := true;
        continue;
      }
      cmds := cmds + [NoHostLine(host, current[i])];
    }
    assert current[..|current|] == current;
    if !found {
      cmds := cmds + [AddLine(host, ip)];
    }
  }

  lemma {:induction false} ExecConcat(pairs: seq<Pair>, a: seq<string>, b: seq<string>)
    ensures ExecAll(pairs, a + b) == ExecAll(ExecAll(pairs, a), b)
    decreases |a|
  {
    if a == [] {
      assert a + b == b;
    } else {
      assert (a + b)[1..] == a[1..] + b;
      ExecConcat(Exec(pairs, a[0]), a[1..], b);
    }
  }

  lemma ExecAdd(pairs: seq<Pair>, host: string, ip: string)
    requires IsWord(host) && IsWord(ip)
    ensures var p := Pair(Lower(host), ip);
            Exec(pairs, AddLine(host, ip)) == if p in pairs then pairs else pairs + [p]
  {
    assert IsPrintable("ip") && IsPrintable("host");
    PrintableIsWord("ip");
    PrintableIsWord("host");
    assert AddLine(host, ip) == "ip" + " " + ("host" + " " + (host + " " + ip));
    WordsOfFour("ip", "host", host, ip);
  }

  lemma ExecRemove(pairs: seq<Pair>, host: string, ip: string)
    requires IsWord(host) && IsWord(ip)
    ensures Exec(pairs, NoHostLine(host, ip)) == Without(pairs, Lower(host), {ip})
  {
    assert IsPrintable("no") && IsPrintable("ip") && IsPrintable("host");
    PrintableIsWord("no");
    PrintableIsWord("ip");
    PrintableIsWord("host");
    assert NoHostLine(host, ip) == "no" + " " + ("ip" + " " + ("host" + " " + (host + " " + ip)));
    WordsOfFive("no", "ip", "host", host, ip);
  }

  // ----- removing addresses -----

  lemma {:induction false} WithoutShrinks(pairs: seq<Pair>, n: string, s: set<string>)
    ensures |Without(pairs, n, s)| <= |pairs|
    ensures forall p <- Without(pairs, n, s) :: p in pairs && !(p.name == n && p.addr in s)
  {
    if pairs != [] { WithoutShrinks(pairs[1..], n, s); }
  }

  lemma {:induction false} WithoutTwice(pairs: seq<Pair>, n: string, s: set<string>, t: set<string>)
    ensures Without(Without(pairs, n, s), n, t) == Without(pairs, n, s + t)
  {
    if pairs != [] {
      WithoutTwice(pairs[1..], n, s, t);
      var rest := Without(pairs[1..], n, s);
      if !(pairs[0].name == n && pairs[0].addr in s) {
        assert ([pairs[0]] + rest)[1..] == rest;
      }
    }
  }

  lemma {:induction false} WithoutNothing(pairs: seq<Pair>, n: string)
    ensures Without(pairs, n, {}) == pairs
  {
    if pairs != [] { WithoutNothing(pairs[1..], n); }
  }

  lemma {:induction false} WithoutKeepsOk(pairs: seq<Pair>, n: string, s: set<string>)
    requires TableOk(pairs)
    ensures TableOk(Without(pairs, n, s))
  {
    hide IsWord, Lower;
    if pairs != [] {
      WithoutKeepsOk(pairs[1..], n, s);
      WithoutShrinks(pairs[1..], n, s);
      var rest := Without(pairs[1..], n, s);
      forall p | p in rest ensures p != pairs[0] { assert p in pairs[1..]; }
    }
  }

  /** Removing addresses of n loses exactly those, and nothing of any other name. */
  lemma {:induction false} AddrsWithout(pairs: seq<Pair>, n: string, s: set<string>, m: string)
    requires TableOk(pairs)
    ensures m != n ==> AddrsOf(Without(pairs, n, s), m) == AddrsOf(pairs, m)
    ensures forall a <- AddrsOf(Without(pairs, n, s), n) :: a in AddrsOf(pairs, n) && a !in s
    ensures forall a <- AddrsOf(pairs, n) | a !in s :: a in AddrsOf(Without(pairs, n, s), n)
    ensures |Without(pairs, n, s)| + |AddrsOf(pairs, n)| == |pairs| + |AddrsOf(Without(pairs, n, s), n)|
  {
    hide IsWord, Lower;
    if pairs != [] {
      AddrsWithout(pairs[1..], n, s, m);
      var rest := Without(pairs[1..], n, s);
      assert ([pairs[0]] + rest)[1..] == rest;
    }
  }

  lemma {:induction false} AddrsOfMember(pairs: seq<Pair>, n: string, a: string)
    requires TableOk(pairs)
    ensures a in AddrsOf(pairs, n) <==> Pair(n, a) in pairs
  {
    hide IsWord, Lower;
    if pairs != [] { AddrsOfMember(pairs[1..], n, a); }
  }

  predicate NoDuplicates(s: seq<string>) { forall i, j | 0 <= i < j < |s| :: s[i] != s[j] }

  lemma {:induction false} AddrsDistinct(pairs: seq<Pair>, n: string)
    requires TableOk(pairs)
    ensures NoDuplicates(AddrsOf(pairs, n))
  {
    hide IsWord, Lower;
    if pairs != [] {
      AddrsDistinct(pairs[1..], n);
      AddrsOfMember(pairs[1..], n, pairs[0].addr);
    }
  }

  function Stale(current: seq<string>, ip: string): set<string> { set a | a in current && a != ip }

  lemma {:induction false} ExecRemovals(pairs: seq<Pair>, host: string, ip: string, current: seq<string>)
    requires IsWord(host) && forall a <- current :: IsWord(a)
    ensures ExecAll(pairs, Removals(host, ip, current)) == Without(pairs, Lower(host), Stale(current, ip))
    decreases |current|
  {
    hide Exec, NoHostLine, IsWord;
    var n := Lower(host);
    if current == [] {
      WithoutNothing(pairs, n);
      assert Stale(current, ip) == {};
    } else {
      var a, rest := current[0], current[1..];
      assert current == [a] + rest;
      if a == ip {
        assert Stale(current, ip) == Stale(rest, ip);
        ExecRemovals(pairs, host, ip, rest);
      } else {
        assert Stale(current, ip) == {a} + Stale(rest, ip);
        ExecRemove(pairs, host, a);
        var tail := Removals(host, ip, rest);
        assert ([NoHostLine(host, a)] + tail)[1..] == tail;
        ExecRemovals(Without(pairs, n, {a}), host, ip, rest);
        WithoutTwice(pairs, n, {a}, Stale(rest, ip));
      }
    }
  }

  // ----- EnsureHost -----

  /** The commands sent for a name, given the table. */
  function Sent(pairs: seq<Pair>, host: string, ip: string): seq<string> {
    HostCommands(host, ip, AddrsOf(pairs, Lower(host)))
  }

  function Converged(pairs: seq<Pair>, host: string, ip: string): seq<Pair> {
    var n := Lower(host);
    Without(pairs, n, Stale(AddrsOf(pairs, n), ip)) + if Pair(n, ip) in pairs then [] else [Pair(n, ip)]
  }

  lemma AddrsAreWords(pairs: seq<Pair>, n: string)
    requires TableOk(pairs)
    ensures forall a <- AddrsOf(pairs, n) :: IsWord(a)
  {
    forall a | a in AddrsOf(pairs, n) ensures IsWord(a) { AddrsOfMember(pairs, n, a); }
  }

  lemma ExecSent(pairs: seq<Pair>, host: string, ip: string)
    requires TableOk(pairs) && IsWord(host) && IsWord(ip)
    ensures ExecAll(pairs, Sent(pairs, host, ip)) == Converged(pairs, host, ip)
  {
    hide Exec, AddLine, IsWord;
    var n := Lower(host);
    var current := AddrsOf(pairs, n);
    var kept := Without(pairs, n, Stale(current, ip));
    var last := if ip in current then [] else [AddLine(host, ip)];
    AddrsAreWords(pairs, n);
    ExecRemovals(pairs, host, ip, current);
    ExecConcat(pairs, Removals(host, ip, current), last);
    AddrsOfMember(pairs, n, ip);
    if ip !in current {
      ExecAdd(kept, host, ip);
      WithoutShrinks(pairs, n, Stale(current, ip));
      assert [AddLine(host, ip)][1..] == [];
      assert ExecAll(kept, last) == Exec(kept, AddLine(host, ip));
    }
  }

  lemma SingleAddress(s: seq<string>, ip: string)
    requires NoDuplicates(s) && forall a <- s :: a == ip
    ensures s == if ip in s then [ip] else []
  {
    assert |s| > 0 ==> s[0] in s;
    assert |s| > 1 ==> s[0] == ip && s[1] == ip by {
      assert |s| > 1 ==> s[0] in s && s[1] in s;
    }
  }

  /**
   * One run leaves exactly the wanted address on the name and every other name as it was; the
   * table grows by the new pair and shrinks by all former ones, and the next run sends nothing.
   */
  lemma HostConverges(pairs: seq<Pair>, host: string, ip: string)
    requires TableOk(pairs) && IsWord(host) && IsWord(ip)
    ensures var n, r := Lower(host), ExecAll(pairs, Sent(pairs, host, ip));
            && TableOk(r)
            && AddrsOf(r, n) == [ip]
            && (forall m | m != n :: AddrsOf(r, m) == AddrsOf(pairs, m))
            && |r| == |pairs| - |AddrsOf(pairs, n)| + 1
            && Sent(r, host, ip) == []
  {
    hide Exec, IsWord, Sent;
    var n := Lower(host);
    var current := AddrsOf(pairs, n);
    var stale := Stale(current, ip);
    var kept := Without(pairs, n, stale);
    ExecSent(pairs, host, ip);
    WithoutKeepsOk(pairs, n, stale);
    AddrsWithout(pairs, n, stale, n);
    AddrsDistinct(kept, n);
    AddrsOfMember(pairs, n, ip);
    AddrsOfMember(kept, n, ip);
    SingleAddress(AddrsOf(kept, n), ip);
    var r := Converged(pairs, host, ip);
    LowerTwice(host);
    LowerWord(host);
    AddrsOfSnoc(kept, Pair(n, ip), n);
    forall m | m != n ensures AddrsOf(r, m) == AddrsOf(pairs, m) {
      AddrsWithout(pairs, n, stale, m);
      AddrsOfSnoc(kept, Pair(n, ip), m);
      assert r == kept || r == kept + [Pair(n, ip)];
    }
    assert ip in current ==> kept + [] == kept;
    ConvergedOk(pairs, kept, n, ip);
    NothingToSend(r, host, ip);
  }

  lemma ConvergedOk(pairs: seq<Pair>, kept: seq<Pair>, n: string, ip: string)
    requires TableOk(kept) && Lower(n) == n && IsWord(n) && IsWord(ip)
    ensures Pair(n, ip) !in kept ==> TableOk(kept + [Pair(n, ip)])
  {}

  lemma NothingToSend(pairs: seq<Pair>, host: string, ip: string)
    ensures AddrsOf(pairs, Lower(host)) == [ip] ==> Sent(pairs, host, ip) == []
  {
    hide AddLine, NoHostLine;
    assert [ip][1..] == [] && Removals(host, ip, []) == [];
    assert Removals(host, ip, [ip]) == [];
  }

  /**
   * Between any two commands of one run the table is never larger than before the run, unless the
   * wanted pair is missing, when it may be larger by that one pair.
   */
  lemma NeverLarger(pairs: seq<Pair>, host: string, ip: string, k: nat)
    requires TableOk(pairs) && IsWord(host) && IsWord(ip)
    requires k <= |Sent(pairs, host, ip)|
    ensures |ExecAll(pairs, Sent(pairs, host, ip)[..k])|
         <= |pairs| + if Pair(Lower(host), ip) in pairs then 0 else 1
    ensures TableOk(ExecAll(pairs, Sent(pairs, host, ip)[..k]))
    ensures forall p <- ExecAll(pairs, Sent(pairs, host, ip)[..k]) :: p in pairs || p == Pair(Lower(host), ip)
  {
    hide Exec, AddLine, IsWord, ExecAll;
    var n := Lower(host);
    var current := AddrsOf(pairs, n);
    var removals, cmds := Removals(host, ip, current), Sent(pairs, host, ip);
    AddrsAreWords(pairs, n);
    if k <= |removals| {
      assert cmds[..k] == removals[..k];
      RemovalsNeverGrow(pairs, host, ip, current, k);
    } else {
      assert cmds[..k] == cmds;
      ExecSent(pairs, host, ip);
      WithoutShrinks(pairs, n, Stale(current, ip));
      HostConverges(pairs, host, ip);
    }
  }

  lemma {:induction false} RemovalsNeverGrow(pairs: seq<Pair>, host: string, ip: string, current: seq<string>, k: nat)
    requires TableOk(pairs) && IsWord(host) && forall a <- current :: IsWord(a)
    requires k <= |Removals(host, ip, current)|
    ensures |ExecAll(pairs, Removals(host, ip, current)[..k])| <= |pairs|
    ensures TableOk(ExecAll(pairs, Removals(host, ip, current)[..k]))
    ensures forall p <- ExecAll(pairs, Removals(host, ip, current)[..k]) :: p in pairs
    decreases |current|
  {
    hide Exec, NoHostLine, IsWord;
    if k > 0 {
      var a, rest := current[0], current[1..];
      assert current == [a] + rest;
      var removals := Removals(host, ip, current);
      if a == ip {
        RemovalsNeverGrow(pairs, host, ip, rest, k);
      } else {
        var tail := Removals(host, ip, rest);
        assert removals[..k] == [NoHostLine(host, a)] + tail[..k - 1];
        assert removals[..k][1..] == tail[..k - 1];
        ExecRemove(pairs, host, a);
        WithoutShrinks(pairs, Lower(host), {a});
        WithoutKeepsOk(pairs, Lower(host), {a});
        RemovalsNeverGrow(Without(pairs, Lower(host), {a}), host, ip, rest, k - 1);
      }
    }
  }

  // ----- sessions that break off -----

  /** All entries of a list but one value. */
  function Minus(s: seq<string>, a: string): seq<string> {
    if s == [] then [] else if s[0] == a then Minus(s[1..], a) else [s[0]] + Minus(s[1..], a)
  }

  lemma {:induction false} AddrsMinus(pairs: seq<Pair>, n: string, a: string)
    requires TableOk(pairs)
    ensures AddrsOf(Without(pairs, n, {a}), n) == Minus(AddrsOf(pairs, n), a)
  {
    hide IsWord, Lower;
    if pairs != [] {
      AddrsMinus(pairs[1..], n, a);
      var rest := Without(pairs[1..], n, {a});
      assert ([pairs[0]] + rest)[1..] == rest;
      var addrs := AddrsOf(pairs[1..], n);
      assert ([pairs[0].addr] + addrs)[1..] == addrs;
    }
  }

  lemma {:induction false} MinusAbsent(s: seq<string>, a: string)
    requires a !in s
    ensures Minus(s, a) == s
  {
    if s != [] { MinusAbsent(s[1..], a); }
  }

  /** Without the first address that has to go, the remaining removals are the same as before. */
  lemma {:induction false} NextRemovals(host: string, ip: string, current: seq<string>) returns (a: string)
    requires NoDuplicates(current) && Removals(host, ip, current) != []
    ensures a != ip && a in current && Removals(host, ip, current)[0] == NoHostLine(host, a)
    ensures Removals(host, ip, Minus(current, a)) == Removals(host, ip, current)[1..]
    ensures ip in Minus(current, a) <==> ip in current
    decreases |current|
  {
    hide NoHostLine;
    var rest := current[1..];
    assert current == [current[0]] + rest;
    if current[0] == ip {
      a := NextRemovals(host, ip, rest);
      var m := Minus(rest, a);
      assert ([ip] + m)[1..] == m;
    } else {
      a := current[0];
      MinusAbsent(rest, a);
      var tail := Removals(host, ip, rest);
      assert ([NoHostLine(host, a)] + tail)[1..] == tail;
    }
  }

  lemma ResumeStep(pairs: seq<Pair>, host: string, ip: string)
    requires TableOk(pairs) && IsWord(host) && IsWord(ip) && Sent(pairs, host, ip) != []
    ensures var cmds := Sent(pairs, host, ip);
            var r := Exec(pairs, cmds[0]);
            TableOk(r) && Sent(r, host, ip) == cmds[1..]
  {
    hide Exec, IsWord, AddLine, NoHostLine, Lower;
    var n := Lower(host);
    var current := AddrsOf(pairs, n);
    var removals, last := Removals(host, ip, current), if ip in current then [] else [AddLine(host, ip)];
    AddrsDistinct(pairs, n);
    AddrsAreWords(pairs, n);
    if removals != [] {
      var a := NextRemovals(host, ip, current);
      ExecRemove(pairs, host, a);
      WithoutKeepsOk(pairs, n, {a});
      AddrsMinus(pairs, n, a);
      assert (removals + last)[1..] == removals[1..] + last;
    } else {
      assert Sent(pairs, host, ip) == [AddLine(host, ip)];
      HostConverges(pairs, host, ip);
      OneCommand(pairs, AddLine(host, ip));
    }
  }

  lemma OneCommand(pairs: seq<Pair>, line: string)
    ensures ExecAll(pairs, [line]) == Exec(pairs, line)
  {
    assert [line][1..] == [];
  }

  /** After a session broken off anywhere the next run sends exactly the commands that are left. */
  lemma {:induction false} ResumesWhereItStopped(pairs: seq<Pair>, host: string, ip: string, k: nat)
    requires TableOk(pairs) && IsWord(host) && IsWord(ip) && k <= |Sent(pairs, host, ip)|
    ensures var cmds := Sent(pairs, host, ip);
            TableOk(ExecAll(pairs, cmds[..k])) && Sent(ExecAll(pairs, cmds[..k]), host, ip) == cmds[k..]
    decreases k
  {
    hide Exec, IsWord, Sent, TableOk;
    var cmds := Sent(pairs, host, ip);
    if k == 0 {
      assert cmds[..0] == [];
    } else {
      ResumeStep(pairs, host, ip);
      ResumesWhereItStopped(Exec(pairs, cmds[0]), host, ip, k - 1);
      assert cmds[..k][1..] == cmds[1..][..k - 1] && cmds[1..][k - 1..] == cmds[k..];
    }
  }

  /** The table in force and the one in flash. */
  datatype Stored = Stored(running: seq<Pair>, saved: seq<Pair>)

  function Store(st: Stored, line: string): Stored {
    if line == SAVE then st.(saved := st.running) else st.(running := Exec(st.running, line))
  }

  function StoreAll(st: Stored, lines: seq<string>): Stored
    decreases |lines|
  {
    if lines == [] then st else StoreAll(Store(st, lines[0]), lines[1..])
  }

  lemma {:induction false} StoreCommands(st: Stored, cmds: seq<string>)
    requires SAVE !in cmds
    ensures StoreAll(st, cmds) == Stored(ExecAll(st.running, cmds), st.saved)
    ensures StoreAll(st, cmds + [SAVE]) == Stored(ExecAll(st.running, cmds), ExecAll(st.running, cmds))
    decreases |cmds|
  {
    hide Exec;
    if cmds == [] {
      assert cmds + [SAVE] == [SAVE] && [SAVE][1..] == [];
      assert StoreAll(Store(st, SAVE), []) == Store(st, SAVE);
    } else {
      assert cmds[0] in cmds;
      assert (cmds + [SAVE])[1..] == cmds[1..] + [SAVE];
      StoreCommands(Store(st, cmds[0]), cmds[1..]);
    }
  }

  lemma {:induction false} RemovalsNeverSave(host: string, ip: string, current: seq<string>)
    ensures SAVE !in Removals(host, ip, current)
  {
    assert SAVE[0] == 's';
    if current != [] { RemovalsNeverSave(host, ip, current[1..]); }
  }

  lemma SentNeverSaves(pairs: seq<Pair>, host: string, ip: string)
    ensures SAVE !in Sent(pairs, host, ip)
  {
    RemovalsNeverSave(host, ip, AddrsOf(pairs, Lower(host)));
    assert SAVE[0] == 's' && AddLine(host, ip)[0] == IP_HOST[0] == 'i';
  }

  /** One run of `EnsureHost` on a router that keeps a table in flash. */
  function EnsuredHost(st: Stored, host: string, ip: string): Stored {
    var cmds := Sent(st.running, host, ip);
    if cmds == [] then st else StoreAll(st, cmds + [SAVE])
  }

  /**
   * A run broken off after k commands is retried in full: the name converges in any case, but what is
   * in flash catches up exactly unless the first session had sent everything except the save.
   */
  lemma HostRetrySavesExactly(st: Stored, host: string, ip: string, k: nat)
    requires TableOk(st.running) && IsWord(host) && IsWord(ip)
    requires var cmds := Sent(st.running, host, ip); cmds != [] && k <= |cmds| + 1
    ensures var cmds := Sent(st.running, host, ip);
            var retried := EnsuredHost(StoreAll(st, (cmds + [SAVE])[..k]), host, ip);
            && retried.running == ExecAll(st.running, cmds)
            && retried.saved == if k == |cmds| then st.saved else retried.running
  {
    hide Exec, IsWord, Sent, TableOk, StoreAll, ExecAll;
    var cmds := Sent(st.running, host, ip);
    SentNeverSaves(st.running, host, ip);
    StoreCommands(st, cmds);
    if k <= |cmds| {
      var done, left := cmds[..k], cmds[k..];
      assert (cmds + [SAVE])[..k] == done && cmds == done + left;
      assert SAVE !in done && SAVE !in left by { assert forall x <- done + left :: x in cmds; }
      StoreCommands(st, done);
      ResumesWhereItStopped(st.running, host, ip, k);
      StoreCommands(StoreAll(st, done), left);
      ExecConcat(st.running, done, left);
      if k == |cmds| { assert left == [] && done == cmds; }
    } else {
      assert (cmds + [SAVE])[..k] == cmds + [SAVE];
      ResumesWhereItStopped(st.running, host, ip, |cmds|);
      assert cmds[..|cmds|] == cmds && cmds[|cmds|..] == [];
    }
  }

  // ----- the client -----

  predicate HostIpOk(host: string, ip: string) { HostnameOk(host) && Ipv4Ok(ip) }

  lemma NothingExecuted(pairs: seq<Pair>)
    ensures ExecAll(pairs, []) == pairs
  {}

  class HostRouter {
    var pairs: seq<Pair>
    var saved: seq<Pair>

    method Run(lines: seq<string>)
      modifies this
      ensures Stored(pairs, saved) == StoreAll(old(Stored(pairs, saved)), lines)
    {
      hide Exec;
      var i := 0;
      while i < |lines|
        invariant 0 <= i <= |lines|
        invariant StoreAll(Stored(pairs, saved), lines[i..]) == StoreAll(old(Stored(pairs, saved)), lines)
      {
        assert lines[i..][1..] == lines[i + 1..];
        if lines[i] == SAVE { saved := pairs; } else { pairs := Exec(pairs, lines[i]); }
        i := i + 1;
      }
    }

    /** Brings a name to exactly one address, whatever else the router prints between its entries. */
    method EnsureHost(host: string, ip: string, printed: string, ghost items: seq<Item>, ghost eol: string)
      returns (ok: bool)
      requires TableOk(pairs)
      requires IsEol(eol) && (forall i <- items :: ItemOk(i))
      requires printed == ItemsText(items, eol) && PairsOf(items) == pairs
      modifies this
      ensures ok <==> HostIpOk(host, ip)
      ensures !ok ==> pairs == old(pairs) && saved == old(saved)
      ensures ok ==> Stored(pairs, saved) == EnsuredHost(old(Stored(pairs, saved)), host, ip)
      ensures ok ==> TableOk(pairs) && AddrsOf(pairs, Lower(host)) == [ip]
      ensures ok ==> forall m | m != Lower(host) :: AddrsOf(pairs, m) == AddrsOf(old(pairs), m)
    {
      hide Exec, HostnameOk, Ipv4Ok, IsWord, ExecAll, StoreAll, TableOk, Lower, ItemOk;
      ok := HostIpOk(host, ip);
      if !ok { return; }
      CheckedIsWord(host);
      CheckedIsWord(ip);
      HostsReadBack(items, eol);
      HostConverges(pairs, host, ip);
      var hosts := ListHosts(printed);
      var n := Lower(host);
      AddrsOfAbsent(pairs, n);
      var current := if n in hosts then hosts[n] else [];
      var cmds := BuildHostCommands(host, ip, current);
      assert cmds == Sent(pairs, host, ip);
      NothingExecuted(pairs);
      if cmds == [] { return; }
      SentNeverSaves(pairs, host, ip);
      StoreCommands(Stored(pairs, saved), cmds);
      Run(cmds + [SAVE]);
    }

    /** Removes one pair; a pair that could never have been written is left alone. */
    method DeleteHost(host: string, ip: string)
      modifies this
      ensures pairs == if HostIpOk(host, ip) then Without(old(pairs), Lower(host), {ip}) else old(pairs)
      ensures saved == if HostIpOk(host, ip) then pairs else old(saved)
    {
      if !HostIpOk(host, ip) { return; }
      CheckedIsWord(host);
      CheckedIsWord(ip);
      hide Exec, HostnameOk, Ipv4Ok, IsWord, StoreAll, ExecAll;
      var line := NoHostLine(host, ip);
      ExecRemove(pairs, host, ip);
      OneCommand(pairs, line);
      assert SAVE !in [line] by { assert line[0] == 'n' && SAVE[0] == 's'; }
      StoreCommands(Stored(pairs, saved), [line]);
      Run([line] + [SAVE]);
    }
  }
}
