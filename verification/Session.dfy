/**
 * A terminal session: the client sends a line only once it has seen the prompt, against a router
 * that silently discards whatever arrives before it is ready.
 */
module Session {
  import opened Prompt

  /** What the router writes until it is ready again, and what it still writes after the prompt. */
  datatype Reply = Reply(body: string, trailer: string)

  predicate IsSuffix(s: string, t: string) { |s| <= |t| && t[|t| - |s|..] == s }

  /** The output left unread when reply k begins. */
  predicate CanCarry(replies: nat -> Reply, k: nat, carry: string) {
    IsSuffix(carry, if k == 0 then "" else replies(k - 1).trailer)
  }

  /** Nothing short of the whole body reads as a prompt. */
  ghost predicate Quiet(carry: string, body: string) {
    forall j | 0 <= j < |carry + body| :: !AtPrompt((carry + body)[..j])
  }

  /** Every stretch of a full window tells. */
  ghost predicate KeepsTelling(text: string) {
    forall i, j | 0 <= i <= j <= |text| && j - i >= WINDOW :: Tells(text[i..j])
  }

  /** A router that prints a prompt-only line only when it is ready for the next command. */
  ghost predicate Polite(replies: nat -> Reply) {
    forall k: nat, carry | CanCarry(replies, k, carry) ::
      Quiet(carry, replies(k).body) && KeepsTelling(carry + replies(k).body + replies(k).trailer)
  }

  /** A router whose every reply ends at a prompt, and stays there while its trailer is written. */
  ghost predicate Prompting(replies: nat -> Reply) {
    forall k: nat, carry | CanCarry(replies, k, carry) ::
      AtPrompt(carry + replies(k).body + replies(k).trailer)
  }

  class Shell {
    const replies: nat -> Reply
    /** The lines the router has acted on, and how many it has thrown away. */
    var executed: seq<string>
    var discarded: nat
    /** The output written and not yet read. */
    var wire: string
    ghost var phase: nat
    ghost var carry: string
    ghost var got: string

    ghost predicate Valid()
      reads this
    {
      && Polite(replies)
      && CanCarry(replies, phase, carry)
      && carry + replies(phase).body + replies(phase).trailer == got + wire
    }

    /** All of the current reply up to its prompt has been delivered. */
    predicate Ready()
      reads this
    {
      |wire| <= |replies(|executed|).trailer|
    }

    constructor (replies: nat -> Reply)
      requires Polite(replies)
      ensures Valid() && phase == |executed| == discarded == 0 && got == ""
      ensures executed == []
    {
      this.replies := replies;
      executed := [];
      discarded := 0;
      wire := replies(0).body + replies(0).trailer;
      phase, carry, got := 0, "", "";
    }

    /** A line is acted on when the router is ready, and thrown away otherwise. */
    method Send(line: string)
      requires Valid() && phase == |executed|
      modifies this
      ensures Valid() && phase == |executed|
      ensures old(Ready()) ==> executed == old(executed) + [line] && discarded == old(discarded) && got == ""
      ensures !old(Ready()) ==> executed == old(executed) && discarded == old(discarded) + 1
    {
      if |wire| <= |replies(|executed|).trailer| {
        ghost var text := carry + replies(phase).body + replies(phase).trailer;
        assert wire == text[|got|..];
        assert IsSuffix(wire, replies(phase).trailer);
        executed := executed + [line];
        phase, carry, got := phase + 1, wire, "";
        wire := wire + replies(|executed|).body + replies(|executed|).trailer;
      } else {
        discarded := discarded + 1;
      }
    }

    /** Reads until the prompt; the chunks may be cut anywhere. */
    method Await() returns (found: bool)
      requires Valid() && phase == |executed| && got == ""
      modifies this`wire, this`got
      ensures Valid()
      ensures found ==> Ready()
      ensures Prompting(replies) ==> found
    {
      hide AtPrompt, Tells, Polite, Prompting, Concat, Fires, WindowsTell, Quiet, KeepsTelling, CanCarry;
      assert Concat([wire]) == wire by { ConcatOne(wire); }
      var chunks: seq<string> :| Concat(chunks) == wire;
      var used: nat, out: string;
      found, used, out := ReadUntilPrompt(chunks);
      PrefixOfWire(chunks, used);
      PoliteHere(replies, phase, carry);
      assert wire == carry + replies(phase).body + replies(phase).trailer;
      WindowsShow(chunks, wire);
      if found {
        PromptIsWhole(chunks, used, carry + replies(phase).body, replies(phase).trailer);
      } else if Prompting(replies) {
        PromptingHere(replies, phase, carry);
        EndIsFound(chunks);
      }
      got := out;
      wire := wire[|out|..];
    }
  }

  lemma ConcatOne(s: string)
    ensures Concat([s]) == s
  {
    assert [s][..0] == [];
    assert Concat([]) == "";
    assert "" + s == s;
  }

  /** The chunks up to a prompt hold the whole body before it. */
  lemma PromptIsWhole(chunks: seq<string>, used: nat, whole: string, trailer: string)
    requires 0 < used <= |chunks| && Fires(chunks, used - 1) && WindowsTell(chunks)
    requires Concat(chunks) == whole + trailer && Quiet("", whole)
    ensures |Concat(chunks[..used])| >= |whole|
  {
    hide AtPrompt, Tells, Fires, WindowsTell;
    FiresExactly(chunks, used - 1);
    PrefixOfWire(chunks, used);
    forall j | 0 <= j < |whole| ensures !AtPrompt(Concat(chunks)[..j]) {
      assert ("" + whole)[..j] == Concat(chunks)[..j];
    }
  }

  /** A stream that ends at a prompt makes the wait succeed. */
  lemma EndIsFound(chunks: seq<string>)
    requires AtPrompt(Concat(chunks)) && WindowsTell(chunks)
    ensures exists k | 0 <= k < |chunks| :: Fires(chunks, k)
  {
    hide AtPrompt, WindowsTell, Fires;
    AtPromptNeedsText(Concat(chunks));
    assert chunks[..|chunks|] == chunks;
    PromptMeansFired(chunks, |chunks| - 1);
  }

  lemma PromptingHere(replies: nat -> Reply, k: nat, carry: string)
    requires Prompting(replies) && CanCarry(replies, k, carry)
    ensures AtPrompt(carry + replies(k).body + replies(k).trailer)
  {}

  lemma PoliteHere(replies: nat -> Reply, k: nat, carry: string)
    requires Polite(replies) && CanCarry(replies, k, carry)
    ensures Quiet("", carry + replies(k).body) && KeepsTelling(carry + replies(k).body + replies(k).trailer)
  {
    assert "" + (carry + replies(k).body) == carry + replies(k).body;
  }

  lemma {:induction false} PrefixOfWire(chunks: seq<string>, k: nat)
    requires k <= |chunks|
    ensures |Concat(chunks[..k])| <= |Concat(chunks)|
    ensures Concat(chunks[..k]) == Concat(chunks)[..|Concat(chunks[..k])|]
    decreases |chunks| - k
  {
    if k == |chunks| {
      assert chunks[..k] == chunks;
    } else {
      ConcatSnoc(chunks, k);
      PrefixOfWire(chunks, k + 1);
    }
  }

  lemma WindowsShow(chunks: seq<string>, text: string)
    requires Concat(chunks) == text && KeepsTelling(text)
    ensures WindowsTell(chunks)
  {
    hide Tells, Concat, Seen;
    forall k | 0 <= k < |chunks| && |Concat(chunks[..k])| > WINDOW
      ensures Tells(Seen(Concat(chunks[..k]), chunks[k]))
    {
      var before := Concat(chunks[..k]);
      ConcatSnoc(chunks, k);
      PrefixOfWire(chunks, k + 1);
      SeenIsStretch(before, chunks[k], text);
    }
  }

  /** What a test looks at is a stretch of the text. */
  lemma SeenIsStretch(before: string, chunk: string, text: string)
    requires |before| > WINDOW && |before + chunk| <= |text| && before + chunk == text[..|before + chunk|]
    ensures Seen(before, chunk) == text[|before| - WINDOW..|before + chunk|]
  {
    var after := before + chunk;
    assert text[|before| - WINDOW..|after|] == text[..|after|][|before| - WINDOW..];
    assert after[|before| - WINDOW..] == before[|before| - WINDOW..] + chunk;
  }

  /**
   * Runs a session. Against a polite router no line is ever lost: on success the router has acted on
   * exactly the given lines and then `exit`, and on failure on the first of them, in order. A session
   * with a router whose replies end at prompts succeeds.
   */
  method Run(shell: Shell, lines: seq<string>) returns (ok: bool)
    requires shell.Valid() && shell.executed == [] && shell.phase == 0 && shell.discarded == 0 && shell.got == ""
    modifies shell
    ensures shell.discarded == 0
    ensures Prompting(shell.replies) ==> ok
    ensures ok ==> shell.executed == lines + ["exit"]
    ensures !ok ==> exists k | 0 <= k <= |lines| :: shell.executed == lines[..k]
  {
    ok := shell.Await();
    if !ok {
      assert lines[..0] == [];
      return;
    }
    for i := 0 to |lines|
      invariant shell.Valid() && shell.Ready() && shell.phase == |shell.executed| && shell.discarded == 0
      invariant shell.executed == lines[..i]
    {
      assert lines[..i + 1] == lines[..i] + [lines[i]];
      shell.Send(lines[i]);
      ok := shell.Await();
      if !ok { return; }
    }
    assert lines[..|lines|] == lines;
    shell.Send("exit");
    ok := true;
  }

  // ----- such routers exist -----

  lemma {:induction false} StripKeepsChars(s: string, c: char)
    requires c !in s
    ensures c !in Strip(s)
    decreases |s|
  {
    if s != "" {
      var n := if EscapeLength(s) > 0 then EscapeLength(s) else 1;
      StripKeepsChars(s[n..], c);
    }
  }

  lemma {:induction false} TrimEndKeepsChars(s: string, c: char)
    requires c !in s
    ensures c !in TrimEnd(s)
  {
    if s != "" && IsFiller(s[|s| - 1]) { TrimEndKeepsChars(s[..|s| - 1], c); }
  }

  lemma {:induction false} LastLineKeepsChars(s: string, c: char)
    requires c !in s
    ensures c !in LastLine(s)
  {
    if exists x <- s :: IsBreak(x) { LastLineKeepsChars(s[1..], c); }
  }

  lemma PromptHasMark(s: string)
    requires '>' !in s
    ensures !AtPrompt(s)
  {
    StripKeepsChars(s, '>');
    TrimEndKeepsChars(Strip(s), '>');
    LastLineKeepsChars(TrimEnd(Strip(s)), '>');
    var l := LastLine(TrimEnd(Strip(s)));
    if IsPrompt(l) { PromptEnds(l); }
  }

  lemma PromptEnds(l: string)
    requires IsPrompt(l)
    ensures '>' in l
  {
    if l == TOP_PROMPT {
      assert l[8] == '>';
    } else {
      assert l[|l| - 2..][1] == NESTED_END[1];
    }
  }

  // ----- replies made of short lines -----

  const HALF := WINDOW / 2

  /** One line of output with the line breaks before it; it shows something before any control sequence. */
  predicate IsPiece(u: string) {
    && 0 < |u| <= HALF && IsBreak(u[0])
    && (exists m | 1 <= m <= |u| :: ESC !in u[1..m] && IsVisible(u[1..m]))
    && (forall j | 0 <= j < |u| :: !AtPrompt(u[..j]))
  }

  function Join(pieces: seq<string>): string {
    if pieces == [] then "" else pieces[0] + Join(pieces[1..])
  }

  predicate Blank(s: string) { forall c <- s :: c == ' ' }

  /** Short lines none of which is a prompt, and then a line that is one, with blanks after it. */
  ghost predicate Orderly(r: Reply, echo: string, pieces: seq<string>) {
    && r.body == echo + Join(pieces) && pieces != []
    && |echo| < HALF / 2 && (forall j | 0 <= j <= |echo| :: !AtPrompt(echo[..j]))
    && (forall c <- echo :: !IsBreak(c))
    && (forall u <- pieces :: IsPiece(u))
    && (forall i | 0 <= i < |pieces| - 1 :: !AtPrompt(pieces[i]))
    && Blank(r.trailer) && |r.trailer| < HALF / 2 && AtPrompt(pieces[|pieces| - 1] + r.trailer)
  }

  lemma VisibleFirst(x: string, rest: string)
    requires ESC !in x && IsVisible(x)
    ensures IsVisible(Strip(x + rest))
  {
    StripPlainFirst(x, rest);
    var c :| c in x && !IsFiller(c);
    assert c in Strip(x + rest);
  }

  lemma PieceVisible(u: string, rest: string)
    requires IsPiece(u)
    ensures IsVisible(Strip(u[1..] + rest))
  {
    hide AtPrompt, Strip;
    var m :| 1 <= m <= |u| && ESC !in u[1..m] && IsVisible(u[1..m]);
    assert u[1..] + rest == u[1..m] + (u[m..] + rest);
    VisibleFirst(u[1..m], u[m..] + rest);
  }

  /** Every full window over short lines holds the beginning of one. */
  lemma {:induction false} PiecesShowLines(head: string, pieces: seq<string>, tail: string, i: nat, j: nat)
    requires |head| <= HALF && |tail| < HALF && forall u <- pieces :: IsPiece(u)
    requires i <= j <= |head + Join(pieces) + tail| && j - i >= WINDOW
    ensures HasLineStart((head + Join(pieces) + tail)[i..j])
    decreases |pieces|
  {
    hide IsPiece, IsVisible, Strip;
    var text := head + Join(pieces) + tail;
    assert pieces != [];
    var u, rest := pieces[0], Join(pieces[1..]) + tail;
    assert IsPiece(u);
    assert text == head + (u + rest);
    PieceShape(u);
    if i <= |head| {
      WholePieceSeen(head, u, rest, i, j);
    } else {
      assert text[|head|..] == u + Join(pieces[1..]) + tail;
      assert text[i..j] == text[|head|..][i - |head|..j - |head|];
      PiecesShowLines(u, pieces[1..], tail, i - |head|, j - |head|);
    }
  }

  lemma WholePieceSeen(head: string, u: string, rest: string, i: nat, j: nat)
    requires IsPiece(u) && i <= |head| && |head| + |u| <= j <= |head + (u + rest)|
    ensures HasLineStart((head + (u + rest))[i..j])
  {
    hide AtPrompt, Strip, IsVisible;
    var text := head + (u + rest);
    var w, k := text[i..j], |head| - i;
    var y := text[|head| + |u|..j];
    assert w[k] == u[0] && w[k + 1..] == u[1..] + y;
    PieceVisible(u, y);
  }

  lemma PieceShape(u: string)
    requires IsPiece(u)
    ensures 0 < |u| <= HALF && IsBreak(u[0]) && forall j | 0 <= j < |u| :: !AtPrompt(u[..j])
  {}

  /** A line that is not at a prompt keeps what comes before it from being at one. */
  lemma LineQuiet(prev: string, u: string)
    requires u != "" ==> IsBreak(u[0])
    requires !AtPrompt(prev) && !AtPrompt(u)
    ensures !AtPrompt(prev + u)
  {
    hide Strip, TrimEnd, LastLine, IsPrompt, IsVisible;
    if u == "" {
      assert prev + u == prev;
    } else {
      var x := u[1..];
      assert u == "" + [u[0]] + x && prev + u == prev + [u[0]] + x;
      if IsVisible(Strip(x)) {
        OnlyTheLastLineMatters(prev, u[0], x);
        OnlyTheLastLineMatters("", u[0], x);
      } else {
        StripAtBreak(prev, u[0], x);
        FillerAfterBreak(u[0], Strip(x));
        TrimFiller(Strip(prev), [u[0]] + Strip(x));
        assert Strip(prev) + [u[0]] + Strip(x) == Strip(prev) + ([u[0]] + Strip(x));
      }
    }
  }

  lemma FillerAfterBreak(br: char, s: string)
    requires IsBreak(br) && !IsVisible(s)
    ensures !IsVisible([br] + s)
  {}

  lemma {:induction false} PiecesQuiet(prev: string, pieces: seq<string>, j: nat)
    requires !AtPrompt(prev) && (forall u <- pieces :: IsPiece(u))
    requires forall i | 0 <= i < |pieces| - 1 :: !AtPrompt(pieces[i])
    requires j < |Join(pieces)|
    ensures !AtPrompt(prev + Join(pieces)[..j])
    decreases |pieces|
  {
    hide AtPrompt, IsPiece;
    var u, rest := pieces[0], Join(pieces[1..]);
    PieceShape(u);
    if j < |u| {
      assert Join(pieces)[..j] == u[..j];
      LineQuiet(prev, u[..j]);
    } else {
      LineQuiet(prev, u);
      assert prev + Join(pieces)[..j] == (prev + u) + rest[..j - |u|];
      PiecesQuiet(prev + u, pieces[1..], j - |u|);
    }
  }

  /** What is left of the blanks after a prompt, and the echo of a command, is no prompt. */
  lemma HeadQuiet(carry: string, echo: string)
    requires Blank(carry) && (forall c <- echo :: !IsBreak(c)) && !AtPrompt(echo)
    ensures !AtPrompt(carry + echo)
  {
    hide Strip, TrimEnd, LastLine, IsPrompt;
    if carry == "" {
      assert carry + echo == echo;
    } else {
      StripPlainFirst(carry, echo);
      var s := Strip(carry + echo);
      StripKeepsChars(echo, '\n');
      StripKeepsChars(echo, '\r');
      TrimEndPrefix(s);
      assert forall c <- carry + Strip(echo) :: c != '\n' && c != '\r';
      assert forall c <- TrimEnd(s) :: c in s;
      WholeLine(TrimEnd(s));
      assert carry[0] in carry && s[0] == carry[0];
      BlankIsNoPrompt(TrimEnd(s));
    }
  }

  lemma BlankIsNoPrompt(s: string)
    requires s != "" ==> s[0] == ' '
    ensures !IsPrompt(s)
  {
    if IsPrompt(s) { PromptShape(s); }
  }

  lemma OrderlyQuiet(carry: string, r: Reply, echo: string, pieces: seq<string>)
    requires Orderly(r, echo, pieces) && Blank(carry)
    ensures Quiet(carry, r.body)
  {
    hide AtPrompt, IsPiece;
    var head := carry + echo;
    assert carry + r.body == head + Join(pieces);
    forall j | 0 <= j < |carry + r.body| ensures !AtPrompt((carry + r.body)[..j]) {
      if j <= |head| {
        var c, e := carry[..if j < |carry| then j else |carry|], echo[..if j < |carry| then 0 else j - |carry|];
        assert (carry + r.body)[..j] == c + e;
        assert (forall x <- c :: x in carry) && (forall x <- e :: x in echo);
        HeadQuiet(c, e);
      } else {
        assert echo[..|echo|] == echo;
        HeadQuiet(carry, echo);
        assert (carry + r.body)[..j] == head + Join(pieces)[..j - |head|];
        PiecesQuiet(head, pieces, j - |head|);
      }
    }
  }

  lemma {:induction false} JoinLast(pieces: seq<string>) returns (front: string)
    requires pieces != []
    ensures Join(pieces) == front + pieces[|pieces| - 1]
  {
    if |pieces| == 1 {
      front := "";
      assert pieces[1..] == [] && Join(pieces[1..]) == "";
    } else {
      var f := JoinLast(pieces[1..]);
      var last := pieces[|pieces| - 1];
      assert pieces[1..][|pieces[1..]| - 1] == last;
      assert pieces[0] + (f + last) == (pieces[0] + f) + last;
      front := pieces[0] + f;
    }
  }

  lemma OrderlyPrompts(carry: string, r: Reply, echo: string, pieces: seq<string>)
    requires Orderly(r, echo, pieces)
    ensures AtPrompt(carry + r.body + r.trailer)
  {
    hide AtPrompt, IsPiece, Strip, IsVisible;
    var front := JoinLast(pieces);
    var last := pieces[|pieces| - 1];
    PieceShape(last);
    PieceVisible(last, r.trailer);
    var prev, x := carry + echo + front, last[1..] + r.trailer;
    assert carry + r.body + r.trailer == prev + [last[0]] + x;
    assert last + r.trailer == "" + [last[0]] + x;
    OnlyTheLastLineMatters(prev, last[0], x);
    OnlyTheLastLineMatters("", last[0], x);
  }

  /** Routers that answer in short lines meet the assumptions, and sessions with them succeed. */
  lemma OrderlyIsPolite(replies: nat -> Reply, echo: nat -> string, pieces: nat -> seq<string>)
    requires forall k: nat :: Orderly(replies(k), echo(k), pieces(k))
    ensures Polite(replies) && Prompting(replies)
  {
    hide AtPrompt, Tells, Orderly;
    forall k: nat, carry | CanCarry(replies, k, carry)
      ensures Quiet(carry, replies(k).body) && KeepsTelling(carry + replies(k).body + replies(k).trailer)
      ensures AtPrompt(carry + replies(k).body + replies(k).trailer)
    {
      var r := replies(k);
      CarryIsBlank(replies, echo, pieces, k, carry);
      OrderlyQuiet(carry, r, echo(k), pieces(k));
      OrderlyPrompts(carry, r, echo(k), pieces(k));
      OrderlyShows(carry, r, echo(k), pieces(k));
    }
  }

  lemma CarryIsBlank(replies: nat -> Reply, echo: nat -> string, pieces: nat -> seq<string>, k: nat, carry: string)
    requires forall i: nat :: Orderly(replies(i), echo(i), pieces(i))
    requires CanCarry(replies, k, carry)
    ensures Blank(carry) && |carry| < HALF / 2
  {
    hide AtPrompt, IsPiece;
    if k > 0 {
      assert Orderly(replies(k - 1), echo(k - 1), pieces(k - 1));
      var t := replies(k - 1).trailer;
      assert forall c <- carry :: c in t;
    }
  }

  lemma OrderlyShows(carry: string, r: Reply, echo: string, pieces: seq<string>)
    requires Orderly(r, echo, pieces) && |carry| < HALF / 2
    ensures KeepsTelling(carry + r.body + r.trailer)
  {
    hide AtPrompt, HasLineStart, Tells, IsPiece;
    var text, head := carry + r.body + r.trailer, carry + echo;
    assert text == head + Join(pieces) + r.trailer;
    forall i, j | 0 <= i <= j <= |text| && j - i >= WINDOW ensures Tells(text[i..j]) {
      PiecesShowLines(head, pieces, r.trailer, i, j);
      LineStartTells(text[i..j]);
    }
  }

  /** A line of printed configuration: short, visible, and without the mark a prompt ends in. */
  predicate IsPlain(l: string) {
    |l| < HALF && IsVisible(l) && forall c <- l :: InLine(c) && c != '>'
  }

  function Listing(lines: seq<string>): seq<string> {
    if lines == [] then ["\n" + TOP_PROMPT] else ["\n" + lines[0]] + Listing(lines[1..])
  }

  lemma PlainPiece(l: string)
    requires IsPlain(l)
    ensures IsPiece("\n" + l) && !AtPrompt("\n" + l)
  {
    hide AtPrompt, IsVisible;
    var u := "\n" + l;
    assert u[1..|u|] == l;
    assert ESC !in l by { assert forall c <- l :: InLine(c); }
    forall j | 0 <= j <= |u| ensures !AtPrompt(u[..j]) {
      assert forall c <- u[..j] :: c in u && (c == '\n' || c in l);
      PromptHasMark(u[..j]);
    }
    assert u[..|u|] == u;
  }

  lemma PromptPiece()
    ensures IsPiece("\n" + TOP_PROMPT) && AtPrompt("\n" + TOP_PROMPT + " ")
  {
    hide AtPrompt;
    var u := "\n" + TOP_PROMPT;
    assert u[1..|u|] == TOP_PROMPT;
    assert TOP_PROMPT[0] == '(' && '(' in TOP_PROMPT;
    assert forall i | 0 <= i < |TOP_PROMPT| :: TOP_PROMPT[i] != ESC;
    forall j | 0 <= j < |u| ensures !AtPrompt(u[..j]) {
      assert forall i | 0 <= i < |u| - 1 :: u[i] != '>';
      PromptHasMark(u[..j]);
    }
    PaddedPrompt(TOP_PROMPT, 1);
    assert Spaces(1) == " ";
    assert u + " " == "" + ['\n'] + (TOP_PROMPT + " ");
    VisibleFirst(TOP_PROMPT, " ");
    OnlyTheLastLineMatters("", '\n', TOP_PROMPT + " ");
    PromptAlone();
  }

  lemma PromptAlone()
    ensures IsPrompt(LastLine(TrimEnd(Strip(TOP_PROMPT + " "))))
  {
    PaddedPrompt(TOP_PROMPT, 1);
    assert Spaces(1) == " ";
  }

  lemma {:induction false} ListingPieces(lines: seq<string>)
    requires forall l <- lines :: IsPlain(l)
    ensures var ps := Listing(lines);
            && ps != [] && ps[|ps| - 1] == "\n" + TOP_PROMPT
            && (forall u <- ps :: IsPiece(u)) && (forall i | 0 <= i < |ps| - 1 :: !AtPrompt(ps[i]))
  {
    hide AtPrompt, IsPiece, IsPlain;
    if lines == [] {
      PromptPiece();
    } else {
      PlainPiece(lines[0]);
      ListingPieces(lines[1..]);
    }
  }

  /**
   * A router that answers each command with its echo, any number of short plain lines and a prompt
   * is polite, and sessions with it succeed.
   */
  lemma ListingsArePolite(echo: nat -> string, lines: nat -> seq<string>)
    requires forall k: nat :: (forall l <- lines(k) :: IsPlain(l))
    requires forall k: nat :: |echo(k)| < HALF / 2 && forall c <- echo(k) :: !IsBreak(c) && c != '>'
    ensures var replies: nat -> Reply := (k: nat) => Reply(echo(k) + Join(Listing(lines(k))), " ");
            Polite(replies) && Prompting(replies)
  {
    hide AtPrompt, IsPiece, IsPlain, Polite, Prompting, Listing, Join;
    var replies: nat -> Reply := (k: nat) => Reply(echo(k) + Join(Listing(lines(k))), " ");
    var pieces: nat -> seq<string> := (k: nat) => Listing(lines(k));
    forall k: nat ensures Orderly(replies(k), echo(k), pieces(k)) {
      ListingPieces(lines(k));
      PromptPiece();
      forall j | 0 <= j <= |echo(k)| ensures !AtPrompt(echo(k)[..j]) {
        assert forall c <- echo(k)[..j] :: c in echo(k);
        PromptHasMark(echo(k)[..j]);
      }
    }
    OrderlyIsPolite(replies, echo, pieces);
  }
}
