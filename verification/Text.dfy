/** Strings as the operator handles them: ASCII folding, trimming, words, lines and decimal numbers. */
module Text {

  datatype Option<+T> = None | Some(value: T)

  predicate IsDigit(c: char) { '0' <= c <= '9' }

  predicate IsAlnum(c: char) { 'a' <= c <= 'z' || 'A' <= c <= 'Z' || IsDigit(c) }

  /** What `\s` matches in a pattern. */
  predicate IsBlank(c: char) {
    c == '\t' || c == '\n' || c == '\U{000C}' || c == '\r' || c == ' '
  }

  /** What trimming removes: every blank and the other Unicode white space. */
  predicate IsSpace(c: char) {
    || IsBlank(c) || c == '\U{000B}' || c == '\U{0085}' || c == '\U{00A0}' || c == '\U{1680}'
    || '\U{2000}' <= c <= '\U{200A}' || c == '\U{2028}' || c == '\U{2029}' || c == '\U{202F}'
    || c == '\U{205F}' || c == '\U{3000}'
  }

  /** A non-empty run of characters none of which is white space. */
  predicate IsWord(s: string) { s != "" && forall c <- s :: !IsSpace(c) }

  predicate IsPrintable(s: string) { s != "" && forall i | 0 <= i < |s| :: '!' <= s[i] <= '~' }

  lemma PrintableIsWord(s: string)
    requires IsPrintable(s)
    ensures IsWord(s)
  {}

  // ----- case -----

  function LowerChar(c: char): char {
    if 'A' <= c <= 'Z' then ((c as int) + 32) as char else c
  }

  function Lower(s: string): string { seq(|s|, i requires 0 <= i < |s| => LowerChar(s[i])) }

  predicate EqualFold(a: string, b: string) { Lower(a) == Lower(b) }

  lemma LowerTwice(s: string)
    ensures Lower(Lower(s)) == Lower(s)
  {}

  lemma LowerWord(s: string)
    requires IsWord(s)
    ensures IsWord(Lower(s))
  {
    forall c | c in Lower(s) ensures !IsSpace(c) {
      var i :| 0 <= i < |s| && Lower(s)[i] == c;
      assert s[i] in s;
    }
  }

  /** The same character, or the same letter in the other case. */
  predicate SameLetter(a: char, b: char) {
    || a == b
    || ('A' <= a <= 'Z' && b as int == a as int + 32)
    || ('A' <= b <= 'Z' && a as int == b as int + 32)
  }

  /** Two texts fold to each other exactly if they differ in nothing but the case of letters. */
  lemma FoldsExactly(a: string, b: string)
    ensures EqualFold(a, b) <==> |a| == |b| && forall i | 0 <= i < |a| :: SameLetter(a[i], b[i])
  {
    assert |Lower(a)| == |a| && |Lower(b)| == |b|;
    if EqualFold(a, b) {
      forall i | 0 <= i < |a| ensures SameLetter(a[i], b[i]) { assert Lower(a)[i] == Lower(b)[i]; }
    }
    if |a| == |b| && forall i | 0 <= i < |a| :: SameLetter(a[i], b[i]) {
      forall i | 0 <= i < |a| ensures Lower(a)[i] == Lower(b)[i] {}
    }
  }

  // ----- trimming -----

  function TrimLeft(s: string): string {
    if s != "" && IsSpace(s[0]) then TrimLeft(s[1..]) else s
  }

  function TrimRight(s: string): string {
    if s != "" && IsSpace(s[|s| - 1]) then TrimRight(s[..|s| - 1]) else s
  }

  function Trim(s: string): string { TrimRight(TrimLeft(s)) }

  predicate IsTrimmed(s: string) { s == "" || (!IsSpace(s[0]) && !IsSpace(s[|s| - 1])) }

  lemma {:induction false} TrimIndented(indent: string, s: string)
    requires forall c <- indent :: IsSpace(c)
    requires IsTrimmed(s)
    ensures Trim(indent + s) == s
  {
    if indent == "" {
      assert indent + s == s;
    } else {
      assert (indent + s)[1..] == indent[1..] + s;
      assert indent[0] in indent;
      assert IsSpace((indent + s)[0]);
      TrimIndented(indent[1..], s);
    }
  }

  // ----- words -----

  function SkipBlanks(s: string): (r: string)
    ensures |r| <= |s|
    ensures r != "" ==> !IsBlank(r[0])
  {
    if s != "" && IsBlank(s[0]) then SkipBlanks(s[1..]) else s
  }

  /** How many characters the first word of s has. */
  function WordLength(s: string): (n: nat)
    ensures n <= |s|
    ensures s != "" && !IsBlank(s[0]) ==> n > 0
    ensures forall c <- s[..n] :: !IsBlank(c)
    ensures n < |s| ==> IsBlank(s[n])
  {
    if s == "" || IsBlank(s[0]) then 0 else 1 + WordLength(s[1..])
  }

  /** The words of s: the maximal runs without a blank. */
  function Words(s: string): seq<string>
    decreases |s|
  {
    var t := SkipBlanks(s);
    if t == "" then [] else [t[..WordLength(t)]] + Words(t[WordLength(t)..])
  }

  lemma {:induction false} WordLengthOf(w: string, rest: string)
    requires forall c <- w :: !IsBlank(c)
    requires rest == "" || IsBlank(rest[0])
    ensures WordLength(w + rest) == |w|
  {
    if w == "" {
      assert w + rest == rest;
    } else {
      assert w[0] in w;
      assert (w + rest)[1..] == w[1..] + rest;
      WordLengthOf(w[1..], rest);
    }
  }

  lemma WordsLast(w: string)
    requires IsWord(w)
    ensures Words(w) == [w]
  {
    assert w[0] in w;
    WordLengthOf(w, "");
    assert w + "" == w;
  }

  lemma WordsNext(w: string, rest: string)
    requires IsWord(w)
    ensures Words(w + " " + rest) == [w] + Words(rest)
  {
    var s := w + " " + rest;
    assert w[0] in w;
    assert s == w + (" " + rest);
    WordLengthOf(w, " " + rest);
    assert s[|w|..] == " " + rest;
    assert (" " + rest)[1..] == rest;
    assert SkipBlanks(" " + rest) == SkipBlanks(rest);
  }

  lemma WordsOfTwo(a: string, b: string)
    requires IsWord(a) && IsWord(b)
    ensures Words(a + " " + b) == [a, b]
  {
    WordsNext(a, b);
    WordsLast(b);
  }

  lemma WordsOfThree(a: string, b: string, c: string)
    requires IsWord(a) && IsWord(b) && IsWord(c)
    ensures Words(a + " " + (b + " " + c)) == [a, b, c]
  {
    WordsNext(a, b + " " + c);
    WordsOfTwo(b, c);
  }

  lemma WordsOfFour(a: string, b: string, c: string, d: string)
    requires IsWord(a) && IsWord(b) && IsWord(c) && IsWord(d)
    ensures Words(a + " " + (b + " " + (c + " " + d))) == [a, b, c, d]
  {
    WordsNext(a, b + " " + (c + " " + d));
    WordsOfThree(b, c, d);
  }

  lemma WordsOfFive(a: string, b: string, c: string, d: string, e: string)
    requires IsWord(a) && IsWord(b) && IsWord(c) && IsWord(d) && IsWord(e)
    ensures Words(a + " " + (b + " " + (c + " " + (d + " " + e)))) == [a, b, c, d, e]
  {
    WordsNext(a, b + " " + (c + " " + (d + " " + e)));
    WordsOfFour(b, c, d, e);
  }

  // ----- cutting at a separator -----

  /** The index of the first c in s, or the length of s. */
  function IndexOf(s: string, c: char): (n: nat)
    ensures n <= |s|
    ensures c !in s[..n]
    ensures n < |s| ==> s[n] == c
  {
    if s == "" || s[0] == c then 0 else 1 + IndexOf(s[1..], c)
  }

  lemma {:induction false} IndexOfFirst(a: string, c: char, rest: string)
    requires c !in a
    ensures IndexOf(a + [c] + rest, c) == |a|
  {
    if a != "" {
      assert (a + [c] + rest)[1..] == a[1..] + [c] + rest;
      IndexOfFirst(a[1..], c, rest);
    }
  }

  /** The pieces of s between separators; one more piece than there are separators. */
  function Split(s: string, c: char): (r: seq<string>)
    ensures |r| > 0
    decreases |s|
  {
    var n := IndexOf(s, c);
    if n == |s| then [s] else [s[..n]] + Split(s[n + 1..], c)
  }

  // ----- lines -----

  predicate IsLine(s: string) { forall c <- s :: c != '\n' && c != '\r' }

  lemma LineTail(s: string)
    requires s != "" && IsLine(s)
    ensures IsLine(s[1..]) && s[0] != '\n' && s[0] != '\r'
  {
    assert s[0] in s;
    forall c | c in s[1..] ensures c in s {}
  }

  function DropReturn(s: string): string {
    if s != "" && s[|s| - 1] == '\r' then s[..|s| - 1] else s
  }

  /** The lines of a text, each without its end mark; a last line without an end mark still counts. */
  function ScanLines(text: string): seq<string>
    decreases |text|
  {
    if text == "" then [] else
      var n := IndexOf(text, '\n');
      [DropReturn(text[..n])] + if n < |text| then ScanLines(text[n + 1..]) else []
  }

  /** The text of a list of lines, ended as the router's terminal ends them. */
  function Unlines(lines: seq<string>, eol: string): string {
    if lines == [] then "" else lines[0] + eol + Unlines(lines[1..], eol)
  }

  predicate IsEol(eol: string) { eol == "\n" || eol == "\r\n" }

  lemma {:induction false} ScanUnlines(lines: seq<string>, eol: string)
    requires IsEol(eol)
    requires forall l <- lines :: IsLine(l)
    ensures ScanLines(Unlines(lines, eol)) == lines
  {
    hide ScanLines, DropReturn, IsLine;
    if lines == [] {
      NoLines();
    } else {
      var l, rest := lines[0], Unlines(lines[1..], eol);
      EolSplit(l, eol, rest);
      ScanOneLine(l + eol[..|eol| - 1], rest);
      DropReturnOfLine(l, eol);
      ScanUnlines(lines[1..], eol);
    }
  }

  lemma EolSplit(l: string, eol: string, rest: string)
    requires IsEol(eol) && IsLine(l)
    ensures l + eol + rest == l + eol[..|eol| - 1] + ['\n'] + rest
    ensures '\n' !in l + eol[..|eol| - 1]
  {
    var b := eol[..|eol| - 1];
    EolParts(eol);
    assert l + (b + ['\n']) == l + b + ['\n'];
    assert forall c <- l + b :: c in l || c in b;
  }

  lemma EolParts(eol: string)
    requires IsEol(eol)
    ensures eol == eol[..|eol| - 1] + ['\n'] && '\n' !in eol[..|eol| - 1]
  {}

  lemma NoLines()
    ensures ScanLines("") == []
  {}

  lemma ScanOneLine(line: string, rest: string)
    requires '\n' !in line
    ensures ScanLines(line + ['\n'] + rest) == [DropReturn(line)] + ScanLines(rest)
  {
    var text := line + ['\n'] + rest;
    IndexOfFirst(line, '\n', rest);
    assert text[..|line|] == line;
    assert text[|line| + 1..] == rest;
  }

  lemma DropReturnOfLine(l: string, eol: string)
    requires IsEol(eol) && IsLine(l)
    ensures DropReturn(l + eol[..|eol| - 1]) == l
  {
    if eol == "\n" {
      assert l + eol[..|eol| - 1] == l;
      assert l != "" ==> l[|l| - 1] in l;
    } else {
      assert l + eol[..|eol| - 1] == l + "\r";
    }
  }

  // ----- decimal numbers -----

  function DigitChar(d: nat): (c: char)
    requires d < 10
    ensures IsDigit(c)
  {
    ('0' as int + d) as char
  }

  function DigitValue(c: char): (d: nat)
    requires IsDigit(c)
    ensures d < 10
  {
    (c as int) - ('0' as int)
  }

  predicate IsDigits(s: string) { s != "" && forall c <- s :: IsDigit(c) }

  function Decimal(n: nat): (s: string)
    ensures IsDigits(s)
  {
    if n < 10 then [DigitChar(n)] else Decimal(n / 10) + [DigitChar(n % 10)]
  }

  function DecimalValue(s: string): nat
    requires forall c <- s :: IsDigit(c)
  {
    if s == "" then 0 else 10 * DecimalValue(s[..|s| - 1]) + DigitValue(s[|s| - 1])
  }

  /** A number as `%d` prints it. */
  function Number(n: int): string { if n < 0 then "-" + Decimal(-n) else Decimal(n) }

  lemma DecimalIsWord(n: nat)
    ensures IsWord(Decimal(n))
  {
    forall i | 0 <= i < |Decimal(n)| ensures '!' <= Decimal(n)[i] <= '~' {
      assert Decimal(n)[i] in Decimal(n);
    }
    PrintableIsWord(Decimal(n));
  }

  lemma {:induction false} DecimalRoundTrip(n: nat)
    ensures DecimalValue(Decimal(n)) == n
  {
    if n >= 10 {
      DecimalRoundTrip(n / 10);
      assert Decimal(n)[..|Decimal(n)| - 1] == Decimal(n / 10);
    }
  }

  /** A number as it is printed begins with no zero, unless it is zero. */
  lemma {:induction false} DecimalExactly(s: string)
    requires IsDigits(s) && (|s| > 1 ==> s[0] != '0')
    ensures Decimal(DecimalValue(s)) == s
    decreases |s|
  {
    var n, head, last := DecimalValue(s), s[..|s| - 1], s[|s| - 1];
    assert last in s && s == head + [last];
    if |s| == 1 {
      assert DecimalValue(head) == 0;
    } else {
      assert forall c <- head :: c in s;
      DecimalExactly(head);
      FirstDigitCounts(head);
      assert n / 10 == DecimalValue(head) && n % 10 == DigitValue(last);
    }
  }

  lemma {:induction false} FirstDigitCounts(s: string)
    requires IsDigits(s) && s[0] != '0'
    ensures DecimalValue(s) > 0
    decreases |s|
  {
    assert s[0] in s && s[|s| - 1] in s;
    if |s| > 1 {
      assert forall c <- s[..|s| - 1] :: c in s;
      FirstDigitCounts(s[..|s| - 1]);
    }
  }

  lemma {:induction false} DecimalStarts(n: nat)
    ensures |Decimal(n)| > 1 ==> Decimal(n)[0] != '0'
    ensures n > 0 ==> Decimal(n)[0] != '0'
  {
    if n >= 10 { DecimalStarts(n / 10); }
  }

  lemma {:induction false} DecimalLength(n: nat, digits: nat, bound: nat)
    requires digits > 0 && bound == Pow10(digits) && n < bound
    ensures |Decimal(n)| <= digits
  {
    if n >= 10 && digits > 1 {
      DecimalLength(n / 10, digits - 1, Pow10(digits - 1));
    }
  }

  function Pow10(n: nat): nat { if n == 0 then 1 else 10 * Pow10(n - 1) }
}
