/** The checks made on a field before it is pasted into a router command. */
module Validation {
  import opened Text

  predicate IsNameChar(c: char) { IsAlnum(c) || c == '_' || c == '-' }

  /** What may name an entry of the router's proxy table. */
  predicate NameOk(s: string) {
    1 <= |s| <= 32 && IsAlnum(s[0]) && forall c <- s :: IsNameChar(c)
  }

  predicate LabelOk(s: string) {
    && 1 <= |s| <= 63 && IsAlnum(s[0]) && IsAlnum(s[|s| - 1])
    && forall c <- s :: IsAlnum(c) || c == '-'
  }

  /** A host name in the sense of section 2.1 of RFC 1123: labels joined by dots. */
  predicate HostnameOk(s: string) { forall l <- Split(s, '.') :: LabelOk(l) }

  predicate OctetOk(s: string) {
    IsDigits(s) && |s| <= 3 && (|s| > 1 ==> s[0] != '0') && DecimalValue(s) <= 255
  }

  predicate Ipv4Ok(s: string) {
    var parts := Split(s, '.');
    |parts| == 4 && forall o <- parts :: OctetOk(o)
  }

  /** Everything after the first dot, or nothing when there is no dot. */
  function ZoneOf(host: string): string {
    var n := IndexOf(host, '.');
    if n == |host| then "" else host[n + 1..]
  }

  /** Everything before the first dot. */
  function FirstLabel(host: string): string { host[..IndexOf(host, '.')] }

  /** A host and the zone right above it. */
  predicate LiesUnder(host: string, first: string, zone: string) { '.' !in first && host == first + "." + zone }

  lemma UnderExactly(host: string, first: string, zone: string)
    ensures LiesUnder(host, first, zone) <==> '.' in host && first == FirstLabel(host) && zone == ZoneOf(host)
  {
    var n := IndexOf(host, '.');
    if '.' in host {
      assert n < |host| by { assert host[..|host|] == host; }
      assert host == host[..n] + "." + host[n + 1..];
    }
    if LiesUnder(host, first, zone) {
      assert host == first + ['.'] + zone;
      IndexOfFirst(first, '.', zone);
      assert host[|first|] == '.';
    }
  }

  /** The host lies right below a zone that is, but for case, this one. */
  ghost predicate RightBelow(host: string, zone: string) {
    exists first, z :: LiesUnder(host, first, z) && EqualFold(z, zone)
  }

  lemma RightBelowExactly(host: string, zone: string)
    ensures RightBelow(host, zone) <==> '.' in host && EqualFold(ZoneOf(host), zone)
  {
    UnderExactly(host, FirstLabel(host), ZoneOf(host));
    if first, z :| LiesUnder(host, first, z) && EqualFold(z, zone) { UnderExactly(host, first, z); }
  }

  lemma {:induction false} SplitWord(s: string, c: char)
    requires !IsSpace(c)
    requires forall p <- Split(s, c) :: IsWord(p)
    ensures IsWord(s)
    decreases |s|
  {
    hide IsSpace, IsWord, IndexOf;
    var n := IndexOf(s, c);
    if n < |s| {
      var head, tail := s[..n], s[n + 1..];
      assert Split(s, c) == [head] + Split(tail, c);
      assert head in Split(s, c) && forall p <- Split(tail, c) :: p in Split(s, c);
      SplitWord(tail, c);
      JoinedWord(head, c, tail);
      assert s == head + [c] + tail;
    } else {
      assert s == Split(s, c)[0];
    }
  }

  lemma JoinedWord(a: string, c: char, b: string)
    requires IsWord(a) && !IsSpace(c) && IsWord(b)
    ensures IsWord(a + [c] + b)
  {
    hide IsSpace;
  }

  /** A checked value never breaks out of its place in a command line. */
  lemma CheckedIsWord(s: string)
    requires NameOk(s) || HostnameOk(s) || Ipv4Ok(s)
    ensures IsWord(s)
  {
    if !NameOk(s) {
      SplitWord(s, '.');
    }
  }

  /** The zone of a host is itself a host name exactly when the host has a second label. */
  lemma ZoneOk(host: string)
    requires HostnameOk(host)
    ensures HostnameOk(ZoneOf(host)) <==> '.' in host
  {
    var n := IndexOf(host, '.');
    if n < |host| {
      assert host[n] in host;
      assert Split(host, '.')[1..] == Split(host[n + 1..], '.');
    } else {
      assert host[..n] == host;
      assert Split("", '.')[0] == "" && !LabelOk("");
    }
  }

  // ----- the case of a host name -----

  lemma {:induction false} IndexOfLower(s: string, c: char)
    requires !('a' <= c <= 'z') && !('A' <= c <= 'Z')
    ensures IndexOf(Lower(s), c) == IndexOf(s, c)
  {
    if s != "" && s[0] != c {
      assert Lower(s)[1..] == Lower(s[1..]);
      IndexOfLower(s[1..], c);
    }
  }

  function AllLower(parts: seq<string>): seq<string> { seq(|parts|, i requires 0 <= i < |parts| => Lower(parts[i])) }

  lemma NoParts()
    ensures AllLower([]) == []
  {}

  lemma AllLowerCons(x: string, rest: seq<string>)
    ensures AllLower([x] + rest) == [Lower(x)] + AllLower(rest)
  {
    hide Lower;
  }

  lemma LowerParts(s: string, n: nat)
    requires n < |s|
    ensures Lower(s)[..n] == Lower(s[..n]) && Lower(s)[n + 1..] == Lower(s[n + 1..]) && |Lower(s)| == |s|
  {}

  lemma {:induction false} SplitLower(s: string)
    ensures Split(Lower(s), '.') == AllLower(Split(s, '.'))
    decreases |s|
  {
    hide Lower, IndexOf, AllLower;
    var n := IndexOf(s, '.');
    IndexOfLower(s, '.');
    assert |Lower(s)| == |s| by { SameLength(s); }
    if n < |s| {
      LowerParts(s, n);
      SplitLower(s[n + 1..]);
      AllLowerCons(s[..n], Split(s[n + 1..], '.'));
    } else {
      AllLowerCons(s, []);
      assert [s] + [] == [s] && [Lower(s)] + [] == [Lower(s)] && AllLower([]) == [] by { NoParts(); }
    }
  }

  lemma SameLength(s: string)
    ensures |Lower(s)| == |s|
  {}

  lemma LabelLower(l: string)
    ensures LabelOk(Lower(l)) <==> LabelOk(l)
  {
    if LabelOk(Lower(l)) {
      forall c | c in l ensures IsAlnum(c) || c == '-' {
        var i :| 0 <= i < |l| && l[i] == c;
        assert Lower(l)[i] in Lower(l);
      }
    }
  }

  /** Whether a host name is valid does not depend on its case. */
  lemma HostnameFolds(s: string)
    ensures HostnameOk(Lower(s)) <==> HostnameOk(s)
  {
    hide LabelOk, Lower, Split;
    SplitLower(s);
    var a, b := Split(Lower(s), '.'), Split(s, '.');
    forall i | 0 <= i < |b| ensures LabelOk(a[i]) <==> LabelOk(b[i]) { LabelLower(b[i]); }
    assert (forall l <- a :: LabelOk(l)) <==> forall i | 0 <= i < |a| :: LabelOk(a[i]);
    assert (forall l <- b :: LabelOk(l)) <==> forall i | 0 <= i < |b| :: LabelOk(b[i]);
  }

  // ----- which texts are addresses -----

  function Quad(a: nat, b: nat, c: nat, d: nat): string {
    Decimal(a) + "." + (Decimal(b) + "." + (Decimal(c) + "." + Decimal(d)))
  }

  lemma OctetExactly(s: string)
    ensures OctetOk(s) <==> exists n :: 0 <= n <= 255 && s == Decimal(n)
  {
    if OctetOk(s) {
      DecimalExactly(s);
    } else if n :| 0 <= n <= 255 && s == Decimal(n) {
      DecimalRoundTrip(n);
      DecimalStarts(n);
      assert Pow10(3) == 1000;
      DecimalLength(n, 3, 1000);
    }
  }

  lemma SplitOne(head: string, c: char, tail: string)
    requires c !in head
    ensures Split(head + [c] + tail, c) == [head] + Split(tail, c)
  {
    IndexOfFirst(head, c, tail);
    var s := head + [c] + tail;
    assert s[..|head|] == head && s[|head| + 1..] == tail;
  }

  lemma SplitNone(s: string, c: char)
    requires c !in s
    ensures Split(s, c) == [s]
  {
    assert forall i | 0 <= i < |s| :: s[i] != c;
  }

  lemma NoDotInNumber(n: nat)
    ensures '.' !in Decimal(n)
  {}

  lemma QuadSplits(a: nat, b: nat, c: nat, d: nat)
    ensures Split(Quad(a, b, c, d), '.') == [Decimal(a), Decimal(b), Decimal(c), Decimal(d)]
  {
    hide Decimal, Split;
    NoDotInNumber(a);
    NoDotInNumber(b);
    NoDotInNumber(c);
    NoDotInNumber(d);
    SplitOne(Decimal(a), '.', Decimal(b) + "." + (Decimal(c) + "." + Decimal(d)));
    SplitOne(Decimal(b), '.', Decimal(c) + "." + Decimal(d));
    SplitOne(Decimal(c), '.', Decimal(d));
    SplitNone(Decimal(d), '.');
  }

  lemma {:induction false} SplitJoins(s: string, c: char)
    ensures Split(s, c) == [s] || (s == Split(s, c)[0] + [c] + s[|Split(s, c)[0]| + 1..]
                                   && Split(s, c)[1..] == Split(s[|Split(s, c)[0]| + 1..], c))
    ensures |Split(s, c)[0]| < |s| || Split(s, c) == [s]
  {
    var n := IndexOf(s, c);
    if n < |s| { assert s == s[..n] + [c] + s[n + 1..]; }
  }

  /** Exactly four printed numbers up to 255, joined by dots, are an address. */
  lemma Ipv4Exactly(s: string)
    ensures Ipv4Ok(s) <==> exists a, b, c, d ::
              0 <= a <= 255 && 0 <= b <= 255 && 0 <= c <= 255 && 0 <= d <= 255 && s == Quad(a, b, c, d)
  {
    hide Split, OctetOk, Decimal;
    var parts := Split(s, '.');
    if Ipv4Ok(s) {
      FourParts(s);
      forall i | 0 <= i < 4 ensures OctetOk(parts[i]) {}
      OctetExactly(parts[0]);
      OctetExactly(parts[1]);
      OctetExactly(parts[2]);
      OctetExactly(parts[3]);
      var a :| 0 <= a <= 255 && parts[0] == Decimal(a);
      var b :| 0 <= b <= 255 && parts[1] == Decimal(b);
      var c :| 0 <= c <= 255 && parts[2] == Decimal(c);
      var d :| 0 <= d <= 255 && parts[3] == Decimal(d);
      assert s == Quad(a, b, c, d);
    } else if a, b, c, d :| 0 <= a <= 255 && 0 <= b <= 255 && 0 <= c <= 255 && 0 <= d <= 255 && s == Quad(a, b, c, d) {
      QuadSplits(a, b, c, d);
      OctetExactly(Decimal(a));
      OctetExactly(Decimal(b));
      OctetExactly(Decimal(c));
      OctetExactly(Decimal(d));
    }
  }

  lemma FourParts(s: string)
    requires |Split(s, '.')| == 4
    ensures var p := Split(s, '.'); s == p[0] + "." + (p[1] + "." + (p[2] + "." + p[3]))
  {
    hide Split;
    var p := Split(s, '.');
    SplitJoins(s, '.');
    var t := s[|p[0]| + 1..];
    SplitJoins(t, '.');
    var u := t[|p[1]| + 1..];
    SplitJoins(u, '.');
    var v := u[|p[2]| + 1..];
    SplitJoins(v, '.');
  }

  // ----- which texts are names and host names -----

  predicate LetterOrDigit(c: char) { 'a' <= c <= 'z' || 'A' <= c <= 'Z' || '0' <= c <= '9' }

  /** Exactly a letter or digit, and at most 31 more, underscores or hyphens, are an entry name. */
  lemma NameExactly(s: string)
    ensures NameOk(s) <==> exists first: char, rest: string ::
              && s == [first] + rest && |rest| <= 31 && LetterOrDigit(first)
              && forall c <- rest :: LetterOrDigit(c) || c == '_' || c == '-'
  {
    if NameOk(s) {
      assert s == [s[0]] + s[1..];
      assert forall c <- s[1..] :: c in s;
    }
  }

  /** One label of a host name: at most 63 letters, digits and hyphens, with no hyphen at either end. */
  predicate HostLabel(l: string) {
    && 1 <= |l| <= 63 && l[0] != '-' && l[|l| - 1] != '-' && forall c <- l :: LetterOrDigit(c) || c == '-'
  }

  function Dotted(labels: seq<string>): string
    requires labels != []
  {
    if |labels| == 1 then labels[0] else labels[0] + "." + Dotted(labels[1..])
  }

  lemma {:induction false} SplitDotted(labels: seq<string>)
    requires labels != [] && forall l <- labels :: '.' !in l
    ensures Split(Dotted(labels), '.') == labels
  {
    if |labels| == 1 {
      SplitNone(labels[0], '.');
    } else {
      SplitDotted(labels[1..]);
      SplitOne(labels[0], '.', Dotted(labels[1..]));
      assert labels == [labels[0]] + labels[1..];
    }
  }

  lemma {:induction false} DottedSplit(s: string)
    ensures Dotted(Split(s, '.')) == s
    decreases |s|
  {
    var parts := Split(s, '.');
    SplitJoins(s, '.');
    if |parts| > 1 {
      DottedSplit(s[|parts[0]| + 1..]);
    }
  }

  lemma LabelExactly(l: string)
    ensures LabelOk(l) <==> HostLabel(l)
  {
    assert l != "" ==> l[0] in l && l[|l| - 1] in l;
  }

  /** Exactly labels joined by dots are a host name. */
  lemma HostnameExactly(s: string)
    ensures HostnameOk(s) <==> exists labels ::
              labels != [] && (forall l <- labels :: HostLabel(l)) && s == Dotted(labels)
  {
    hide Split, LabelOk;
    forall l: string ensures LabelOk(l) <==> HostLabel(l) { LabelExactly(l); }
    DottedSplit(s);
    if labels :| labels != [] && (forall l <- labels :: HostLabel(l)) && s == Dotted(labels) {
      forall l | l in labels ensures '.' !in l {}
      SplitDotted(labels);
    }
  }
}
