/**
 * Waiting for the router's prompt: the test looks at a sliding window of the last bytes read, and
 * agrees with looking at everything read so far. Control sequences are those of section 5.4 of
 * ECMA-48.
 */
module Prompt {
  import opened Text

  const ESC: char := '\U{001B}'
  const WINDOW := 128

  predicate IsParameter(c: char) { IsDigit(c) || c == ';' || c == '?' }

  predicate IsIntermediate(c: char) { ' ' <= c <= '/' }

  predicate IsFinal(c: char) { '@' <= c <= '~' }

  function SkipParameters(s: string, i: nat): (j: nat)
    requires i <= |s|
    ensures i <= j <= |s|
    decreases |s| - i
  {
    if i < |s| && IsParameter(s[i]) then SkipParameters(s, i + 1) else i
  }

  function SkipIntermediates(s: string, i: nat): (j: nat)
    requires i <= |s|
    ensures i <= j <= |s|
    decreases |s| - i
  {
    if i < |s| && IsIntermediate(s[i]) then SkipIntermediates(s, i + 1) else i
  }

  /** The length of the control sequence s begins with, or 0. */
  function EscapeLength(s: string): (n: nat)
    ensures n <= |s|
  {
    if |s| < 2 || s[0] != ESC || s[1] != '[' then 0 else
      var j := SkipIntermediates(s, SkipParameters(s, 2));
      if j < |s| && IsFinal(s[j]) then j + 1 else 0
  }

  /** s without its control sequences. */
  function Strip(s: string): string
    decreases |s|
  {
    if s == "" then ""
    else if EscapeLength(s) > 0 then Strip(s[EscapeLength(s)..])
    else [s[0]] + Strip(s[1..])
  }

  predicate IsBreak(c: char) { c == '\r' || c == '\n' }

  /** What is trimmed from the end before the last line is looked at. */
  predicate IsFiller(c: char) { c == ' ' || c == '\t' || IsBreak(c) }

  predicate IsVisible(s: string) { exists c <- s :: !IsFiller(c) }

  function TrimEnd(s: string): string {
    if s != "" && IsFiller(s[|s| - 1]) then TrimEnd(s[..|s| - 1]) else s
  }

  function LastLine(s: string): string {
    if exists c <- s :: IsBreak(c) then LastLine(s[1..]) else s
  }

  predicate IsContextChar(c: char) { IsAlnum(c) || c == '_' || c == '-' }

  const TOP_PROMPT: string := "(config)>"
  const NESTED_START: string := "(config-"
  const NESTED_END: string := ")>"

  /** A prompt of any context, and nothing else. */
  predicate IsPrompt(s: string) {
    || s == TOP_PROMPT
    || (&& |s| > |NESTED_START| + |NESTED_END|
        && s[..|NESTED_START|] == NESTED_START && s[|s| - |NESTED_END|..] == NESTED_END
        && forall c <- s[|NESTED_START|..|s| - |NESTED_END|] :: IsContextChar(c))
  }

  /** Whether a text ends on a line that is a prompt and nothing else. */
  predicate AtPrompt(s: string) { IsPrompt(LastLine(TrimEnd(Strip(s)))) }

  // ----- stripping works line by line -----

  lemma {:induction false} SkipParametersStop(x: string, rest: string, i: nat)
    requires i <= |x| && rest != "" && IsBreak(rest[0])
    ensures SkipParameters(x + rest, i) == SkipParameters(x, i)
    decreases |x| - i
  {
    if i < |x| && IsParameter(x[i]) { SkipParametersStop(x, rest, i + 1); }
  }

  lemma {:induction false} SkipIntermediatesStop(x: string, rest: string, i: nat)
    requires i <= |x| && rest != "" && IsBreak(rest[0])
    ensures SkipIntermediates(x + rest, i) == SkipIntermediates(x, i)
    decreases |x| - i
  {
    if i < |x| && IsIntermediate(x[i]) { SkipIntermediatesStop(x, rest, i + 1); }
  }

  lemma EscapeStops(x: string, rest: string)
    requires x != "" && rest != "" && IsBreak(rest[0])
    ensures EscapeLength(x + rest) == EscapeLength(x)
  {
    var s := x + rest;
    assert s[0] == x[0];
    if |x| >= 2 {
      assert s[1] == x[1];
      SkipParametersStop(x, rest, 2);
      SkipIntermediatesStop(x, rest, SkipParameters(x, 2));
    } else {
      assert s[1] == rest[0];
    }
  }

  /** No control sequence contains a line break, so stripping distributes over line breaks. */
  lemma {:induction false} StripAtBreak(x: string, br: char, y: string)
    requires IsBreak(br)
    ensures Strip(x + [br] + y) == Strip(x) + [br] + Strip(y)
    decreases |x|
  {
    var s := x + [br] + y;
    if x == "" {
      assert s[0] == br && s[1..] == y;
      assert EscapeLength(s) == 0;
    } else {
      assert s == x + ([br] + y);
      EscapeStops(x, [br] + y);
      var n := if EscapeLength(x) > 0 then EscapeLength(x) else 1;
      assert s[n..] == x[n..] + [br] + y;
      StripAtBreak(x[n..], br, y);
      if EscapeLength(x) == 0 {
        assert [x[0]] + (Strip(x[1..]) + [br] + Strip(y)) == ([x[0]] + Strip(x[1..])) + [br] + Strip(y);
      }
    }
  }

  lemma {:induction false} TrimEndVisible(u: string, v: string)
    requires IsVisible(v)
    ensures TrimEnd(u + v) == u + TrimEnd(v) && TrimEnd(v) != ""
    decreases |v|
  {
    assert v != "";
    var last := |v| - 1;
    assert (u + v)[|u + v| - 1] == v[last];
    if IsFiller(v[last]) {
      assert (u + v)[..|u + v| - 1] == u + v[..last];
      assert v == v[..last] + [v[last]];
      assert IsVisible(v[..last]) by {
        var c :| c in v && !IsFiller(c);
        assert c in v[..last];
      }
      TrimEndVisible(u, v[..last]);
    }
  }

  lemma {:induction false} LastLineAtBreak(u: string, br: char, v: string)
    requires IsBreak(br)
    ensures LastLine(u + [br] + v) == LastLine(v)
    decreases |u|
  {
    var s := u + [br] + v;
    assert br in s;
    if u == "" {
      assert s[1..] == v;
    } else {
      assert s[1..] == u[1..] + [br] + v;
      LastLineAtBreak(u[1..], br, v);
    }
  }

  /** Once text is visible after a line break, nothing before that break matters. */
  lemma OnlyTheLastLineMatters(x: string, br: char, y: string)
    requires IsBreak(br) && IsVisible(Strip(y))
    ensures AtPrompt(x + [br] + y) == IsPrompt(LastLine(TrimEnd(Strip(y))))
  {
    hide IsPrompt;
    StripAtBreak(x, br, y);
    TrimEndVisible(Strip(x) + [br], Strip(y));
    LastLineAtBreak(Strip(x), br, TrimEnd(Strip(y)));
    assert Strip(x) + [br] + TrimEnd(Strip(y)) == TrimEnd(Strip(x + [br] + y));
  }

  // ----- the window -----

  function Tail(s: string): string { if |s| > WINDOW then s[|s| - WINDOW..] else s }

  /** What one test looks at: the tail kept from before, and the new chunk. */
  function Seen(before: string, chunk: string): string { Tail(before) + chunk }

  /** The window holds a line break with visible text after it. */
  ghost predicate HasLineStart(window: string) {
    exists i | 0 <= i < |window| :: IsBreak(window[i]) && IsVisible(Strip(window[i + 1..]))
  }

  /** The window shows enough for its answer to hold whatever came before it. */
  ghost predicate Tells(window: string) {
    if AtPrompt(window) then HasLineStart(window) else !Completable(window)
  }

  /** The window's answer is the answer for everything read, as long as the window tells. */
  lemma WindowAgrees(before: string, chunk: string)
    requires |before| > WINDOW ==> Tells(Seen(before, chunk))
    ensures AtPrompt(Seen(before, chunk)) == AtPrompt(before + chunk)
  {
    hide AtPrompt, Tells, Seen;
    SplitAtWindow(before, chunk);
    if |before| > WINDOW {
      WindowExact(Seen(before, chunk));
    }
  }

  /** No weaker condition would do: the answer of a window that does not tell depends on the text cut off. */
  lemma WindowExact(w: string)
    ensures (forall cut: string :: AtPrompt(cut + w) == AtPrompt(w)) <==> Tells(w)
  {
    hide AtPrompt, HasLineStart, Completable;
    if AtPrompt(w) { PositiveExact(w); } else { NegativeExact(w); }
  }

  lemma LineStartTells(w: string)
    requires HasLineStart(w)
    ensures Tells(w)
  {
    hide AtPrompt, HasLineStart, Completable;
    if !AtPrompt(w) {
      NegativeExact(w);
      forall cut: string ensures AtPrompt(cut + w) == AtPrompt(w) { CutBeforeLine(cut, w); }
    }
  }

  lemma SplitAtWindow(before: string, chunk: string)
    ensures |before| > WINDOW ==> before + chunk == before[..|before| - WINDOW] + Seen(before, chunk)
    ensures |before| <= WINDOW ==> before + chunk == Seen(before, chunk)
  {}

  lemma CutBeforeLine(cut: string, w: string)
    requires HasLineStart(w)
    ensures AtPrompt(cut + w) == AtPrompt(w)
  {
    hide AtPrompt, Strip, IsPrompt, LastLine, TrimEnd, IsVisible, IsBreak;
    var i :| 0 <= i < |w| && IsBreak(w[i]) && IsVisible(Strip(w[i + 1..]));
    var a, b := w[..i], w[i + 1..];
    assert w == a + [w[i]] + b;
    assert cut + w == (cut + a) + [w[i]] + b;
    OnlyTheLastLineMatters(a, w[i], b);
    OnlyTheLastLineMatters(cut + a, w[i], b);
  }

  function Concat(chunks: seq<string>): string {
    if chunks == [] then "" else Concat(chunks[..|chunks| - 1]) + chunks[|chunks| - 1]
  }

  lemma ConcatSnoc(chunks: seq<string>, k: nat)
    requires k < |chunks|
    ensures Concat(chunks[..k + 1]) == Concat(chunks[..k]) + chunks[k]
  {
    assert chunks[..k + 1][..k] == chunks[..k];
  }

  lemma NothingRead(chunks: seq<string>)
    ensures Concat(chunks[..0]) == "" && Tail("") == ""
  {}

  /** The tail of everything read is the tail of what the last test looked at. */
  lemma TailMoves(before: string, chunk: string)
    ensures var seen := Seen(before, chunk);
            Tail(before + chunk) == if |seen| > WINDOW then seen[|seen| - WINDOW..] else seen
  {
    hide Seen, Tail;
    SplitAtWindow(before, chunk);
    var seen, s := Seen(before, chunk), before + chunk;
    TailLength(before, chunk);
    TailIs(s);
    if |before| > WINDOW {
      var cut := before[..|before| - WINDOW];
      assert s == cut + seen;
      assert |seen| > WINDOW ==> s[|s| - WINDOW..] == seen[|seen| - WINDOW..];
      assert |seen| == WINDOW ==> s[|s| - WINDOW..] == seen;
    }
  }

  lemma TailLength(before: string, chunk: string)
    ensures |before| > WINDOW ==> |Seen(before, chunk)| == WINDOW + |chunk|
  {}

  lemma TailIs(s: string)
    ensures Tail(s) == if |s| > WINDOW then s[|s| - WINDOW..] else s
  {}

  /** The test made after the (k+1)-th chunk. */
  predicate Fires(chunks: seq<string>, k: nat)
    requires k < |chunks|
  {
    chunks[k] != "" && AtPrompt(Seen(Concat(chunks[..k]), chunks[k]))
  }

  /**
   * Reads chunks until the prompt shows; `found` is false when the stream ends without one. The
   * tail kept between reads is always the last bytes read, as many as the window holds.
   */
  method ReadUntilPrompt(chunks: seq<string>) returns (found: bool, used: nat, out: string)
    ensures used <= |chunks| && out == Concat(chunks[..used])
    ensures found ==> used > 0 && Fires(chunks, used - 1)
    ensures !found ==> used == |chunks|
    ensures forall k | 0 <= k < (if found then used - 1 else used) :: !Fires(chunks, k)
  {
    hide AtPrompt, Tail, Concat;
    out := "";
    used := 0;
    var tail := "";
    NothingRead(chunks);
    while used < |chunks|
      invariant used <= |chunks|
      invariant out == Concat(chunks[..used])
      invariant tail == Tail(out)
      invariant forall k | 0 <= k < used :: !Fires(chunks, k)
    {
      var chunk := chunks[used];
      ConcatSnoc(chunks, used);
      used := used + 1;
      assert chunk == "" ==> out + chunk == out;
      if |chunk| > 0 {
        TailMoves(out, chunk);
        out := out + chunk;
        var combined := tail + chunk;
        if AtPrompt(combined) {
          return true, used, out;
        }
        if |combined| > WINDOW {
          combined := combined[|combined| - WINDOW..];
        }
        tail := combined;
      }
    }
    assert chunks[..|chunks|] == chunks;
    found := false;
  }

  /** Every window that has lost bytes still tells. */
  ghost predicate WindowsTell(chunks: seq<string>) {
    forall k | 0 <= k < |chunks| ::
      |Concat(chunks[..k])| > WINDOW && chunks[k] != "" ==> Tells(Seen(Concat(chunks[..k]), chunks[k]))
  }

  lemma AtPromptNeedsText(s: string)
    ensures AtPrompt(s) ==> s != ""
  {}

  /** A chunk makes the windowed test fire exactly when it brings everything read to a prompt. */
  lemma FiresExactly(chunks: seq<string>, k: nat)
    requires k < |chunks| && WindowsTell(chunks)
    ensures Fires(chunks, k) <==> chunks[k] != "" && AtPrompt(Concat(chunks[..k + 1]))
  {
    hide AtPrompt, Tells;
    ConcatSnoc(chunks, k);
    if chunks[k] != "" { WindowAgrees(Concat(chunks[..k]), chunks[k]); }
  }

  /** Everything read up to and including chunk k ends in a prompt. */
  predicate PromptAfter(chunks: seq<string>, k: nat)
    requires k < |chunks|
  {
    AtPrompt(Concat(chunks[..k + 1]))
  }

  lemma {:induction false} PromptMeansFired(chunks: seq<string>, j: nat)
    requires j < |chunks| && WindowsTell(chunks) && PromptAfter(chunks, j)
    ensures exists i | 0 <= i <= j :: Fires(chunks, i)
  {
    hide AtPrompt, WindowsTell, Tells;
    FiresExactly(chunks, j);
    ConcatSnoc(chunks, j);
    if chunks[j] == "" {
      assert Concat(chunks[..j + 1]) == Concat(chunks[..j]);
      AtPromptNeedsText(Concat(chunks[..j]));
      PromptMeansFired(chunks, j - 1);
    }
  }

  /**
   * Reading stops at the first chunk boundary at which everything read so far ends in a prompt, for
   * every stream and every way of cutting it into chunks.
   */
  lemma StopsWhereUnboundedStops(chunks: seq<string>, k: nat)
    requires k < |chunks| && WindowsTell(chunks)
    ensures Fires(chunks, k) && (forall j | 0 <= j < k :: !Fires(chunks, j))
       <==> PromptAfter(chunks, k) && (forall j | 0 <= j < k :: !PromptAfter(chunks, j))
  {
    hide AtPrompt, WindowsTell, Tells;
    forall j | 0 <= j <= k
      ensures Fires(chunks, j) ==> PromptAfter(chunks, j)
      ensures PromptAfter(chunks, j) ==> exists i | 0 <= i <= j :: Fires(chunks, i)
    {
      FiresExactly(chunks, j);
      if PromptAfter(chunks, j) { PromptMeansFired(chunks, j); }
    }
  }

  // ----- which answers of a window can be trusted, whatever came before it -----

  lemma {:induction false} StripPlainFirst(s: string, rest: string)
    requires ESC !in s
    ensures Strip(s + rest) == s + Strip(rest)
  {
    if s == "" {
      assert s + rest == rest;
    } else {
      assert EscapeLength(s + rest) == 0;
      assert (s + rest)[1..] == s[1..] + rest;
      StripPlainFirst(s[1..], rest);
    }
  }

  /** A line break that stripping leaves is a line break of the text, with the same text after it. */
  lemma {:induction false} BreakOrigin(w: string, j: nat) returns (i: nat)
    requires j < |Strip(w)| && IsBreak(Strip(w)[j])
    ensures i < |w| && IsBreak(w[i]) && Strip(w[i + 1..]) == Strip(w)[j + 1..]
    decreases |w|
  {
    hide EscapeLength, IsBreak;
    var n := EscapeLength(w);
    if n > 0 {
      var m := BreakOrigin(w[n..], j);
      i := n + m;
      assert w[i + 1..] == w[n..][m + 1..];
    } else if j == 0 {
      i := 0;
      assert Strip(w)[1..] == Strip(w[1..]);
    } else {
      assert Strip(w) == [w[0]] + Strip(w[1..]);
      var m := BreakOrigin(w[1..], j - 1);
      i := m + 1;
      assert w[i + 1..] == w[1..][m + 1..];
      assert Strip(w)[j + 1..] == Strip(w[1..])[j..];
    }
  }

  lemma {:induction false} TrimEndPrefix(s: string)
    ensures |TrimEnd(s)| <= |s| && TrimEnd(s) == s[..|TrimEnd(s)|]
    ensures TrimEnd(s) != "" ==> !IsFiller(TrimEnd(s)[|TrimEnd(s)| - 1])
    ensures IsVisible(s) <==> TrimEnd(s) != ""
  {
    if s != "" && IsFiller(s[|s| - 1]) {
      TrimEndPrefix(s[..|s| - 1]);
      assert s == s[..|s| - 1] + [s[|s| - 1]];
    } else if s != "" {
      assert s[|s| - 1] in s;
    }
  }

  lemma {:induction false} NoBreakLine(u: string, v: string)
    requires forall c <- v :: !IsBreak(c)
    ensures LastLine(u + v) == LastLine(u) + v
  {
    var s := u + v;
    if c :| c in u && IsBreak(c) {
      assert c in s;
      assert s[1..] == u[1..] + v;
      NoBreakLine(u[1..], v);
    } else {
      assert forall c <- s :: !IsBreak(c);
    }
  }

  /** A visible last line that begins inside the text has its line start there. */
  lemma BreakMeansLineStart(w: string, j: nat)
    requires j < |TrimEnd(Strip(w))| && IsBreak(TrimEnd(Strip(w))[j])
    ensures HasLineStart(w)
  {
    hide Strip;
    var s, v := Strip(w), TrimEnd(Strip(w));
    TrimEndPrefix(s);
    var i := BreakOrigin(w, j);
    var last := v[|v| - 1];
    assert last == s[|v| - 1] && j < |v| - 1 by { assert j == |v| - 1 ==> IsBreak(last); }
    assert s[j + 1..][|v| - 1 - (j + 1)] == last;
    assert last in s[j + 1..] && !IsFiller(last);
  }

  /** Neither the end of a line nor the beginning of a control sequence. */
  predicate InLine(c: char) { !IsBreak(c) && c != ESC }

  lemma ContextInLine(c: char)
    ensures IsContextChar(c) ==> InLine(c)
  {}

  lemma PiecesInLine()
    ensures forall i | 0 <= i < |TOP_PROMPT| :: InLine(TOP_PROMPT[i])
    ensures forall i | 0 <= i < |NESTED_START| :: InLine(NESTED_START[i])
    ensures forall i | 0 <= i < |NESTED_END| :: InLine(NESTED_END[i])
  {}

  lemma PromptShape(s: string)
    requires IsPrompt(s)
    ensures s != "" && s[0] == '(' && forall c <- s :: InLine(c)
  {
    hide IsBreak;
    PiecesInLine();
    var n := |s| - |NESTED_END|;
    forall c ensures IsContextChar(c) ==> InLine(c) { ContextInLine(c); }
    forall i | 0 <= i < |s| ensures InLine(s[i]) {
      if s == TOP_PROMPT {
        assert s[i] == TOP_PROMPT[i];
      } else if i < |NESTED_START| {
        assert s[i] == s[..|NESTED_START|][i] == NESTED_START[i];
      } else if i < n {
        assert s[i] == s[|NESTED_START|..n][i - |NESTED_START|];
        assert s[i] in s[|NESTED_START|..n];
      } else {
        assert s[i] == s[n..][i - n] == NESTED_END[i - n];
      }
    }
    assert s != TOP_PROMPT ==> s[0] == s[..|NESTED_START|][0];
  }

  /** A window that shows a prompt can be trusted exactly when it shows where the prompt's line starts. */
  lemma PositiveExact(w: string)
    requires AtPrompt(w)
    ensures (forall cut: string :: AtPrompt(cut + w)) <==> HasLineStart(w)
  {
    hide Strip, TrimEnd, LastLine, IsPrompt;
    if HasLineStart(w) {
      forall cut: string ensures AtPrompt(cut + w) { CutBeforeLine(cut, w); }
    } else {
      var v := TrimEnd(Strip(w));
      forall j | 0 <= j < |v| ensures !IsBreak(v[j]) {
        if IsBreak(v[j]) { BreakMeansLineStart(w, j); }
      }
      StartWithX(w);
      PromptShape(LastLine(v));
      NoBreakLine("x", v);
      NoBreakLine("", v);
      assert "" + v == v && LastLine("x") == "x" && LastLine("") == "" by { ShortLines(); }
      TrimEndPrefix(Strip(w));
      TrimEndVisible("x", Strip(w));
      NotAfterX(v);
      assert !AtPrompt("x" + w);
    }
  }

  lemma ShortLines()
    ensures LastLine("x") == "x" && LastLine("") == ""
  {}

  lemma StartWithX(w: string)
    ensures Strip("x" + w) == "x" + Strip(w)
  {
    StripPlainFirst("x", w);
  }

  lemma NotAfterX(v: string)
    ensures !IsPrompt("x" + v)
  {
    if IsPrompt("x" + v) { PromptShape("x" + v); }
  }

  /** How much of a text a control sequence takes whose beginning was cut off, or 0. */
  function SequenceRest(w: string): (n: nat)
    ensures n <= |w|
  {
    var j := SkipIntermediates(w, SkipParameters(w, 0));
    if j < |w| && IsFinal(w[j]) then j + 1 else 0
  }

  /** What is left of a window, given that the cut may have gone through a control sequence. */
  function Leftovers(w: string): set<string> {
    {w, w[SequenceRest(w)..]}
    + if w != "" && w[0] == '[' && SequenceRest(w[1..]) > 0 then {w[1..][SequenceRest(w[1..])..]} else {}
  }

  const LEAD: string := "(config-a"

  /** A text that is the end of some prompt. */
  predicate PromptTail(v: string) {
    || (|v| <= |TOP_PROMPT| && TOP_PROMPT[|TOP_PROMPT| - |v|..] == v)
    || (exists k | 0 <= k <= |LEAD| :: IsPrompt(LEAD[..k] + v))
  }

  /** What came before may make a prompt of the window. */
  predicate Completable(w: string) {
    exists t <- Leftovers(w) :: PromptTail(TrimEnd(Strip(t)))
  }

  lemma TailOfPrompt(p: string, v: string)
    requires IsPrompt(p + v)
    ensures PromptTail(v)
  {
    hide IsPrompt;
    var s, n := p + v, |p|;
    assert s[n..] == v;
    PromptParts(s);
    if s == TOP_PROMPT {
    } else if n <= |NESTED_START| {
      assert LEAD[..n] == NESTED_START[..n] == s[..n];
      assert LEAD[..n] + v == s;
    } else if n <= |s| - |NESTED_END| {
      assert LEAD[..|LEAD|] == LEAD;
      ShortenContext(s, n);
    } else {
      assert |v| == 1 ==> v[0] == s[|s| - |NESTED_END|..][1];
    }
  }

  lemma PromptParts(s: string)
    requires IsPrompt(s)
    ensures s != TOP_PROMPT ==>
              && |s| > |NESTED_START| + |NESTED_END|
              && s[..|NESTED_START|] == NESTED_START && s[|s| - |NESTED_END|..] == NESTED_END
  {}

  /** The part of a context name that is missing may be any one character. */
  lemma ShortenContext(s: string, n: nat)
    requires IsPrompt(s) && s != TOP_PROMPT && |NESTED_START| < n <= |s| - |NESTED_END|
    ensures IsPrompt(LEAD + s[n..])
  {
    var m := LEAD + s[n..];
    assert m[..|NESTED_START|] == NESTED_START;
    assert m[|m| - |NESTED_END|..] == s[|s| - |NESTED_END|..];
    var middle := s[n..|s| - |NESTED_END|];
    assert m[|NESTED_START|..|m| - |NESTED_END|] == ['a'] + middle;
    forall c | c in middle ensures c in s[|NESTED_START|..|s| - |NESTED_END|] {}
  }

  lemma PromptBefore(v: string) returns (p: string)
    requires PromptTail(v)
    ensures IsPrompt(p + v)
  {
    if |v| <= |TOP_PROMPT| && TOP_PROMPT[|TOP_PROMPT| - |v|..] == v {
      p := TOP_PROMPT[..|TOP_PROMPT| - |v|];
      assert p + v == TOP_PROMPT;
    } else {
      var k :| 0 <= k <= |LEAD| && IsPrompt(LEAD[..k] + v);
      p := LEAD[..k];
    }
  }

  lemma {:induction false} SkipParametersShift(x: string, w: string, i: nat)
    requires i <= |w|
    ensures SkipParameters(x + w, |x| + i) == |x| + SkipParameters(w, i)
    decreases |w| - i
  {
    if i < |w| && IsParameter(w[i]) { SkipParametersShift(x, w, i + 1); }
  }

  lemma {:induction false} SkipIntermediatesShift(x: string, w: string, i: nat)
    requires i <= |w|
    ensures SkipIntermediates(x + w, |x| + i) == |x| + SkipIntermediates(w, i)
    decreases |w| - i
  {
    if i < |w| && IsIntermediate(w[i]) { SkipIntermediatesShift(x, w, i + 1); }
  }

  lemma {:induction false} SkipParametersPass(s: string, i: nat, m: nat)
    requires i <= m <= |s| && m <= SkipParameters(s, i)
    ensures SkipParameters(s, i) == SkipParameters(s, m)
    decreases m - i
  {
    if i < m { SkipParametersPass(s, i + 1, m); }
  }

  lemma {:induction false} SkipIntermediatesPass(s: string, i: nat, m: nat)
    requires i <= m <= |s| && m <= SkipIntermediates(s, i)
    ensures SkipIntermediates(s, i) == SkipIntermediates(s, m)
    decreases m - i
  {
    if i < m { SkipIntermediatesPass(s, i + 1, m); }
  }

  /** A control sequence cut behind its first two characters. */
  lemma CutInside(cut: string, w: string)
    requires |cut| >= 2 && EscapeLength(cut + w) > |cut|
    ensures SequenceRest(w) == EscapeLength(cut + w) - |cut|
  {
    var s, m := cut + w, |cut|;
    var a := SkipParameters(s, 2);
    var j := SkipIntermediates(s, a);
    SkipIntermediatesShift(cut, w, 0);
    SkipParametersShift(cut, w, 0);
    if a >= m {
      SkipParametersPass(s, 2, m);
      SkipIntermediatesShift(cut, w, SkipParameters(w, 0));
    } else {
      SkipIntermediatesPass(s, a, m);
      assert w[0] == s[m];
      assert j > m ==> IsIntermediate(w[0]);
      assert !IsParameter(w[0]);
    }
  }

  /** A control sequence cut behind its escape character. */
  lemma CutAfterEscape(cut: string, w: string)
    requires |cut| == 1 && EscapeLength(cut + w) > 1
    ensures w != "" && w[0] == '[' && SequenceRest(w[1..]) == EscapeLength(cut + w) - 2 > 0
  {
    var s := cut + w;
    assert s[1] == w[0];
    assert s == (cut + ['[']) + w[1..];
    SkipParametersShift(cut + ['['], w[1..], 0);
    SkipIntermediatesShift(cut + ['['], w[1..], SkipParameters(w[1..], 0));
  }

  lemma {:induction false} ParametersInLine(w: string, i: nat)
    requires i <= |w|
    ensures forall j | i <= j < SkipParameters(w, i) :: InLine(w[j])
    decreases |w| - i
  {
    if i < |w| && IsParameter(w[i]) { ParametersInLine(w, i + 1); }
  }

  lemma {:induction false} IntermediatesInLine(w: string, i: nat)
    requires i <= |w|
    ensures forall j | i <= j < SkipIntermediates(w, i) :: InLine(w[j])
    decreases |w| - i
  {
    if i < |w| && IsIntermediate(w[i]) { IntermediatesInLine(w, i + 1); }
  }

  /** What a cut sequence takes from the window is part of one line. */
  lemma RestInLine(w: string)
    ensures forall j | 0 <= j < SequenceRest(w) :: InLine(w[j])
  {
    ParametersInLine(w, 0);
    IntermediatesInLine(w, SkipParameters(w, 0));
  }

  lemma LeftoverBehind(w: string, t: string) returns (x: string)
    requires t in Leftovers(w)
    ensures w == x + t && forall c <- x :: InLine(c)
  {
    RestInLine(w);
    x := w[..|w| - |t|];
    if w != "" && w[0] == '[' && t == w[1..][SequenceRest(w[1..])..] {
      RestInLine(w[1..]);
      assert forall j | 0 <= j < |x| :: j == 0 || x[j] == w[1..][j - 1];
    }
  }

  lemma ThroughTheCut(cut: string, w: string)
    requires cut != "" && EscapeLength(cut + w) > |cut|
    ensures w[EscapeLength(cut + w) - |cut|..] in Leftovers(w)
  {
    hide EscapeLength, SequenceRest;
    if |cut| == 1 {
      CutAfterEscape(cut, w);
      assert w[EscapeLength(cut + w) - 1..] == w[1..][SequenceRest(w[1..])..];
    } else {
      CutInside(cut, w);
    }
  }

  /** Stripping what came before and the window together, up to where the window's own text begins. */
  lemma {:induction false} StripSplit(cut: string, w: string) returns (p: string, t: string)
    ensures t in Leftovers(w) && Strip(cut + w) == p + Strip(t)
    decreases |cut|
  {
    hide EscapeLength, SequenceRest;
    var s, n := cut + w, EscapeLength(cut + w);
    if cut == "" {
      assert s == w;
      p, t := "", w;
      assert p + Strip(t) == Strip(t);
    } else if n > |cut| {
      ThroughTheCut(cut, w);
      p, t := "", w[n - |cut|..];
      assert s[n..] == t;
      assert p + Strip(t) == Strip(t);
    } else if n > 0 {
      assert s[n..] == cut[n..] + w;
      p, t := StripSplit(cut[n..], w);
    } else {
      assert s[1..] == cut[1..] + w;
      p, t := StripSplit(cut[1..], w);
      assert [s[0]] + (p + Strip(t)) == ([s[0]] + p) + Strip(t);
      p := [s[0]] + p;
    }
  }

  /** A prompt that begins on a line of its own is one wherever the window begins before it. */
  lemma BreakDecides(u: string, v: string, j: nat)
    requires j < |v| && IsBreak(v[j])
    ensures LastLine(u + v) == LastLine(v)
  {
    hide IsBreak;
    assert v == v[..j] + [v[j]] + v[j + 1..];
    assert u + v == (u + v[..j]) + [v[j]] + v[j + 1..];
    LastLineAtBreak(v[..j], v[j], v[j + 1..]);
    LastLineAtBreak(u + v[..j], v[j], v[j + 1..]);
  }

  lemma PromptFromLeftover(w: string, p: string, t: string)
    requires t in Leftovers(w) && !AtPrompt(w)
    requires IsPrompt(LastLine(TrimEnd(p + Strip(t))))
    ensures PromptTail(TrimEnd(Strip(t)))
  {
    hide Strip, TrimEnd, LastLine, IsPrompt, Leftovers, PromptTail, IsBreak;
    var v := TrimEnd(Strip(t));
    TrimEndPrefix(Strip(t));
    if v == "" {
      NothingIsTail();
    } else {
      TrimEndVisible(p, Strip(t));
      if j :| 0 <= j < |v| && IsBreak(v[j]) {
        BreakDecides(p, v, j);
        var x := LeftoverBehind(w, t);
        assert ESC !in x by { assert forall c <- x :: InLine(c); }
        StripPlainFirst(x, t);
        TrimEndVisible(x, Strip(t));
        BreakDecides(x, v, j);
      } else {
        NoBreakLine(p, v);
        TailOfPrompt(LastLine(p), v);
      }
    }
  }

  lemma NothingIsTail()
    ensures PromptTail("")
  {
    assert TOP_PROMPT[|TOP_PROMPT|..] == "";
  }

  /** How to come before a window so that one of its leftovers ends a prompt. */
  lemma CutFor(w: string, t: string, p: string) returns (cut: string)
    requires t in Leftovers(w) && ESC !in p
    ensures Strip(cut + w) == p + Strip(t)
  {
    hide Strip, SequenceRest;
    var open := if t == w then "" else if t == w[SequenceRest(w)..] then [ESC, '['] else [ESC];
    assert Strip(open + w) == Strip(t) by {
      if t == w {
        assert "" + w == w;
      } else if t == w[SequenceRest(w)..] {
        CompletesSequence(w);
      } else {
        CompletesSequence(w[1..]);
        assert [ESC] + w == [ESC, '['] + w[1..];
      }
    }
    cut := p + open;
    assert cut + w == p + (open + w);
    StripPlainFirst(p, open + w);
  }

  lemma CompletesSequence(w: string)
    requires SequenceRest(w) > 0
    ensures Strip([ESC, '['] + w) == Strip(w[SequenceRest(w)..])
  {
    var x: string := [ESC, '['];
    var s := x + w;
    SkipParametersShift(x, w, 0);
    SkipIntermediatesShift(x, w, SkipParameters(w, 0));
    assert EscapeLength(s) == 2 + SequenceRest(w);
    assert s[EscapeLength(s)..] == w[SequenceRest(w)..];
  }

  lemma LeftoverCompletes(w: string, t: string) returns (cut: string)
    requires t in Leftovers(w) && PromptTail(TrimEnd(Strip(t)))
    ensures AtPrompt(cut + w)
  {
    hide Strip, TrimEnd, LastLine, IsPrompt, Leftovers, PromptTail, IsBreak;
    var v := TrimEnd(Strip(t));
    var p := PromptBefore(v);
    PromptShape(p + v);
    assert ESC !in p by { assert forall c <- p :: c in p + v && InLine(c); }
    cut := CutFor(w, t, p);
    TrimEndPrefix(Strip(t));
    if v == "" {
      assert p + v == p;
      TrimFiller(p, Strip(t));
      PromptTrimmed(p);
    } else {
      TrimEndVisible(p, Strip(t));
    }
    assert forall c <- p + v :: !IsBreak(c) by { assert forall c <- p + v :: InLine(c); }
    WholeLine(p + v);
  }

  lemma WholeLine(s: string)
    requires forall c <- s :: !IsBreak(c)
    ensures LastLine(s) == s
  {}

  lemma {:induction false} TrimFiller(s: string, filler: string)
    requires !IsVisible(filler)
    ensures TrimEnd(s + filler) == TrimEnd(s)
    decreases |filler|
  {
    if filler == "" {
      assert s + filler == s;
    } else {
      var last := |filler| - 1;
      assert (s + filler)[..|s + filler| - 1] == s + filler[..last];
      assert forall c <- filler[..last] :: c in filler;
      assert filler[last] in filler;
      TrimFiller(s, filler[..last]);
    }
  }

  lemma PromptTrimmed(s: string)
    requires IsPrompt(s)
    ensures TrimEnd(s) == s
  {
    PromptParts(s);
    assert s[|s| - 1] == '>' by {
      if s == TOP_PROMPT { assert TOP_PROMPT[8] == '>'; } else { assert s[|s| - 2..][1] == NESTED_END[1]; }
    }
  }

  /** A window that shows no prompt can be trusted exactly when nothing could complete it to one. */
  lemma NegativeExact(w: string)
    requires !AtPrompt(w)
    ensures (forall cut: string :: !AtPrompt(cut + w)) <==> !Completable(w)
  {
    hide Strip, TrimEnd, LastLine, IsPrompt, Leftovers, PromptTail;
    if Completable(w) {
      var t :| t in Leftovers(w) && PromptTail(TrimEnd(Strip(t)));
      var cut := LeftoverCompletes(w, t);
      assert AtPrompt(cut + w);
    } else {
      forall cut: string ensures !AtPrompt(cut + w) {
        var p, t := StripSplit(cut, w);
        if AtPrompt(cut + w) { PromptFromLeftover(w, p, t); }
      }
    }
  }

  /** In particular a window in which nothing is visible says nothing at all. */
  lemma BlankWindow(w: string)
    requires !IsVisible(Strip(w))
    ensures !AtPrompt(w) && Completable(w)
  {
    hide Strip, IsVisible, Leftovers, PromptTail;
    TrimEndPrefix(Strip(w));
    ShortLines();
    NothingIsTail();
    assert w in Leftovers(w) by { Itself(w); }
    assert !IsPrompt("");
  }

  lemma Itself(w: string)
    ensures w in Leftovers(w)
  {}

  // ----- without a line start in the window the two tests differ -----

  function Spaces(n: nat): string { seq(n, _ => ' ') }

  lemma {:induction false} StripPlain(s: string)
    requires ESC !in s
    ensures Strip(s) == s
  {
    if s != "" {
      assert EscapeLength(s) == 0;
      StripPlain(s[1..]);
    }
  }

  lemma {:induction false} TrimSpaces(s: string, n: nat)
    ensures TrimEnd(s + Spaces(n)) == TrimEnd(s)
  {
    if n == 0 {
      assert s + Spaces(0) == s;
    } else {
      var t := s + Spaces(n);
      assert t[..|t| - 1] == s + Spaces(n - 1);
      TrimSpaces(s, n - 1);
    }
  }

  lemma PaddedPrompt(s: string, n: nat)
    requires s == TOP_PROMPT || s == "x" + TOP_PROMPT
    ensures AtPrompt(s + Spaces(n)) <==> s == TOP_PROMPT
  {
    assert forall i | 0 <= i < |s| :: s[i] != ESC && !IsFiller(s[i]);
    StripPlain(s + Spaces(n));
    TrimSpaces(s, n);
    assert TrimEnd(s) == s;
    assert LastLine(s) == s;
    assert s != TOP_PROMPT ==> s[0] == 'x' && NESTED_START[0] == '(' && TOP_PROMPT[0] == '(';
    assert s != TOP_PROMPT && |s| >= |NESTED_START| ==> s[..|NESTED_START|][0] == 'x';
  }

  /** A line longer than the window: cut off behind its first letter, it passes for a prompt. */
  lemma CutLineMisread()
    ensures var before, chunk := "x" + TOP_PROMPT + Spaces(119), Spaces(1);
            AtPrompt(Seen(before, chunk)) && !AtPrompt(before + chunk)
  {
    hide AtPrompt;
    var before, chunk := "x" + TOP_PROMPT + Spaces(119), Spaces(1);
    assert Tail(before) == TOP_PROMPT + Spaces(119);
    assert Spaces(119) + Spaces(1) == Spaces(120);
    assert Seen(before, chunk) == TOP_PROMPT + Spaces(120);
    assert before + chunk == ("x" + TOP_PROMPT) + Spaces(120);
    PaddedPrompt(TOP_PROMPT, 120);
    PaddedPrompt("x" + TOP_PROMPT, 120);
  }

  // ----- which texts are prompts -----

  /** The parts of a control sequence between ESC [ and its end. */
  predicate SequenceParts(parameters: string, intermediates: string, final: char) {
    && (forall c <- parameters :: '0' <= c <= '9' || c == ';' || c == '?')
    && (forall c <- intermediates :: ' ' <= c <= '/')
    && '@' <= final <= '~'
  }

  function Sequence(parameters: string, intermediates: string, final: char): string {
    "\U{001B}[" + parameters + intermediates + [final]
  }

  lemma {:induction false} SkipParametersTo(s: string, i: nat, a: nat)
    requires i <= a < |s| && (forall j | i <= j < a :: IsParameter(s[j])) && !IsParameter(s[a])
    ensures SkipParameters(s, i) == a
    decreases a - i
  {
    if i < a { SkipParametersTo(s, i + 1, a); }
  }

  lemma {:induction false} SkipIntermediatesTo(s: string, i: nat, b: nat)
    requires i <= b < |s| && (forall j | i <= j < b :: IsIntermediate(s[j])) && !IsIntermediate(s[b])
    ensures SkipIntermediates(s, i) == b
    decreases b - i
  {
    if i < b { SkipIntermediatesTo(s, i + 1, b); }
  }

  /** A whole control sequence leaves no trace. */
  lemma SequenceVanishes(parameters: string, intermediates: string, final: char, rest: string)
    requires SequenceParts(parameters, intermediates, final)
    ensures Strip(Sequence(parameters, intermediates, final) + rest) == Strip(rest)
  {
    var q := Sequence(parameters, intermediates, final);
    var s, a, b := q + rest, 2 + |parameters|, |q| - 1;
    assert forall i | 0 <= i < |q| :: s[i] == q[i];
    forall i | 2 <= i < a ensures IsParameter(s[i]) {
      assert s[i] == parameters[i - 2] && parameters[i - 2] in parameters;
    }
    forall i | a <= i < b ensures IsIntermediate(s[i]) {
      assert s[i] == intermediates[i - a] && intermediates[i - a] in intermediates;
    }
    assert s[b] == final;
    SkipParametersTo(s, 2, a);
    SkipIntermediatesTo(s, a, b);
    assert EscapeLength(s) == |q|;
    assert s[|q|..] == rest;
  }

  /** A control sequence at the beginning of the last line changes nothing. */
  lemma SequenceIgnored(before: string, br: char, parameters: string, intermediates: string, final: char,
                        line: string)
    requires IsBreak(br) && SequenceParts(parameters, intermediates, final) && IsVisible(Strip(line))
    ensures AtPrompt(before + [br] + (Sequence(parameters, intermediates, final) + line)) == AtPrompt(line)
  {
    hide IsPrompt, Sequence, SequenceParts, Strip, TrimEnd, LastLine;
    SequenceVanishes(parameters, intermediates, final, line);
    OnlyTheLastLineMatters(before, br, Sequence(parameters, intermediates, final) + line);
  }

  /** The name of a context: letters, digits, underscores and hyphens. */
  predicate IsContext(x: string) {
    x != "" && forall c <- x :: 'a' <= c <= 'z' || 'A' <= c <= 'Z' || '0' <= c <= '9' || c == '_' || c == '-'
  }

  /** A text of one line, with blanks behind it, is a prompt exactly if it is the top level's or some context's. */
  lemma PromptExactly(l: string, n: nat)
    requires l != "" && !IsFiller(l[|l| - 1]) && forall c <- l :: InLine(c)
    ensures AtPrompt(l + Spaces(n)) <==>
              l == "(config)>" || exists x :: IsContext(x) && l == "(config-" + x + ")>"
  {
    hide IsPrompt, IsBreak;
    assert ESC !in l by { assert forall c <- l :: InLine(c); }
    assert ESC !in l + Spaces(n);
    StripPlain(l + Spaces(n));
    TrimSpaces(l, n);
    assert TrimEnd(l) == l;
    assert forall c <- l :: InLine(c) && !IsBreak(c);
    WholeLine(l);
    PromptText(l);
  }

  lemma PromptText(l: string)
    ensures IsPrompt(l) <==> l == "(config)>" || exists x :: IsContext(x) && l == "(config-" + x + ")>"
  {
    if IsPrompt(l) && l != TOP_PROMPT {
      var x := l[|NESTED_START|..|l| - |NESTED_END|];
      assert l == l[..|NESTED_START|] + x + l[|l| - |NESTED_END|..];
      assert l == "(config-" + x + ")>";
      forall c | c in x ensures IsContextChar(c) {}
      assert IsContext(x);
    }
    if x :| IsContext(x) && l == "(config-" + x + ")>" {
      assert l[..|NESTED_START|] == NESTED_START && l[|l| - |NESTED_END|..] == NESTED_END;
      assert l[|NESTED_START|..|l| - |NESTED_END|] == x;
    }
  }
}
