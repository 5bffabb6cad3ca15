/**
  * What acceptance by `shell_spans` means: an accepted script leaves nothing open, so that the
  * lines after it are scanned as if they stood alone.
  */
module ShellLines {
  import opened Text
  import opened Lexer
  import opened Stability
  import opened Scan
  import opened Shell

  /** What follows a script on the next line. */
  predicate NextLine(tail: string) {
    tail != "" && tail[0] == '\n'
  }

  // ----- nothing on a line depends on the next one -----

  lemma {:induction false} TailOf(u: string, tail: string)
    requires u != ""
    ensures (u + tail)[0] == u[0] && (u + tail)[1..] == u[1..] + tail
  {
  }

  lemma {:induction false} StartsStable(u: string, tail: string, pat: string)
    requires NextLine(tail) && '\n' !in pat
    ensures StartsAt(u + tail, 0, pat) <==> StartsAt(u, 0, pat)
  {
    assert |pat| > |u| ==> pat[|u|] in pat;
    assert (u + tail)[0 + |u|] == tail[0];
    assert forall t :: 0 <= t < |u| ==> (u + tail)[t] == u[t];
  }

  lemma {:induction false} NewlineStable(u: string, tail: string)
    requires NextLine(tail)
    ensures NewlineOrEnd(u + tail) == NewlineOrEnd(u)
    decreases |u|
  {
    if u == "" {
      assert u + tail == tail;
    } else {
      TailOf(u, tail);
      NewlineStable(u[1..], tail);
    }
  }

  lemma {:induction false} TickStable(u: string, tail: string, j: nat)
    requires j <= |u|
    ensures TickOr(u + tail, j) == TickOr(u, j)
    decreases j
  {
    if j > 0 {
      TailOf(u, tail);
      TickStable(u[1..], tail, j - 1);
    }
  }

  lemma {:induction false} CommentStopStable(u: string, tail: string, kind: FrameKind)
    requires NextLine(tail)
    ensures CommentStop(u + tail, kind) == CommentStop(u, kind)
  {
    NewlineStable(u, tail);
    var j := NewlineOrEnd(u);
    assert j > 0 ==> (u + tail)[j - 1] == u[j - 1];
    EndOfFirstLine(u);
    EndOfFirstLine(u + tail);
    TickStable(u, tail, EndOfLine(u, 0));
  }

  lemma {:induction false} AfterQuoteStable(u: string, tail: string, j: nat)
    requires AfterQuote(u, j).Some?
    ensures AfterQuote(u + tail, j) == AfterQuote(u, j)
    decreases |u| - j
  {
    assert (u + tail)[j] == u[j];
    if u[j] != '\'' {
      AfterQuoteStable(u, tail, j + 1);
    }
  }

  lemma {:induction false} AnsiStable(u: string, tail: string, j: nat)
    requires AfterAnsiQuote(u, j).Some?
    ensures AfterAnsiQuote(u + tail, j) == AfterAnsiQuote(u, j)
    decreases |u| - j
  {
    assert (u + tail)[j] == u[j];
    if u[j] == '\\' {
      AnsiStable(u, tail, j + 2);
    } else if u[j] != '\'' {
      AnsiStable(u, tail, j + 1);
    }
  }

  lemma {:induction false} WordStable(u: string, tail: string)
    requires NextLine(tail) && u != ""
    ensures WordLen(u + tail) == WordLen(u)
  {
    assert (u + tail)[0] == u[0];
    if IdentStart(u[0]) {
      var e := IdentEnd(u, 1);
      IdentStops(u, 1);
      assert e < |u| ==> (u + tail)[e] == u[e];
      assert e == |u| ==> (u + tail)[e] == tail[0];
      assert Agree(u, u + tail, e);
      IdentStable(u, u + tail, 1, e);
    }
  }

  lemma {:induction false} DelimLenStable(u: string, tail: string)
    requires NextLine(tail)
    ensures DelimLen(u + tail) == DelimLen(u)
    decreases |u|
  {
    if u == "" {
      assert u + tail == tail;
    } else {
      TailOf(u, tail);
      DelimLenStable(u[1..], tail);
    }
  }

  lemma {:induction false} QuotedStable(u: string, tail: string, quote: char)
    requires NextLine(tail)
    ensures QuotedLen(u + tail, quote) == QuotedLen(u, quote)
    decreases |u|
  {
    if u == "" {
      assert u + tail == tail;
    } else {
      TailOf(u, tail);
      QuotedStable(u[1..], tail, quote);
    }
  }

  lemma {:induction false} BlanksStable(u: string, tail: string)
    requires NextLine(tail)
    ensures LeadingBlanks(u + tail) == LeadingBlanks(u)
    decreases |u|
  {
    if u == "" {
      assert u + tail == tail;
    } else {
      TailOf(u, tail);
      BlanksStable(u[1..], tail);
    }
  }

  lemma {:induction false} DelimStable(u: string, tail: string)
    requires NextLine(tail)
    ensures DelimAt(u + tail) == DelimAt(u)
  {
    var w := u + tail;
    DelimLenStable(u, tail);
    assert w[..DelimLen(u)] == u[..DelimLen(u)];
    if u == "" {
      assert w == tail;
    } else {
      TailOf(u, tail);
      DelimLenStable(u[1..], tail);
      QuotedStable(u[1..], tail, u[0]);
      var n := DelimLen(u[1..]) + 1;
      assert w[1..n] == u[1..n];
      var k := QuotedLen(u[1..], u[0]);
      assert k.Some? ==> w[1..k.value + 1] == u[1..k.value + 1];
    }
  }

  lemma {:induction false} SkipStable(u: string, tail: string, tabs: bool, skip: nat)
    requires NextLine(tail) && skip <= |u|
    ensures BlanksThenDelim(u + tail, tabs, skip) == BlanksThenDelim(u, tabs, skip)
  {
    hide LeadingBlanks, DelimAt;
    BlanksStable(u[skip..], tail);
    var b := skip + LeadingBlanks(u[skip..]);
    Slices(u, tail, skip, skip);
    Slices(u, tail, b, b);
    DelimStable(u[b..], tail);
  }

  lemma {:induction false} HeredocStable(u: string, tail: string)
    requires NextLine(tail) && |u| >= 2
    ensures Heredoc(u + tail) == Heredoc(u)
  {
    hide BlanksThenDelim;
    var w := u + tail;
    assert |u| > 2 ==> w[2] == u[2];
    assert |u| == 2 ==> w[2] == tail[0];
    SkipStable(u, tail, false, 2);
    if |u| > 2 {
      SkipStable(u, tail, true, 3);
    }
  }

  lemma Slices(u: string, tail: string, i: nat, e: nat)
    requires i <= e <= |u|
    ensures (u + tail)[i..] == u[i..] + tail && (u + tail)[i..e] == u[i..e]
  {
  }

  lemma {:induction false} DocStable(u: string, tail: string, i: nat, doc: Doc)
    requires NextLine(tail) && DocEnd(u, i, doc).Some?
    ensures DocEnd(u + tail, i, doc) == DocEnd(u, i, doc)
    decreases |u| - i
  {
    hide Closes, NewlineOrEnd;
    NewlineStable(u[i..], tail);
    var e := i + NewlineOrEnd(u[i..]);
    Slices(u, tail, i, e);
    if !Closes(doc, u[i..e]) {
      DocStable(u, tail, e + 1, doc);
    }
  }

  lemma {:induction false} DocsStable(u: string, tail: string, i: nat, pending: seq<Doc>)
    requires NextLine(tail) && i <= |u| + 1 && DocsEnd(u, i, pending).Some?
    ensures DocsEnd(u + tail, i, pending) == DocsEnd(u, i, pending)
    decreases |pending|
  {
    if pending != [] {
      DocStable(u, tail, i, pending[0]);
      DocsStable(u, tail, DocEnd(u, i, pending[0]).value, pending[1..]);
    }
  }

  lemma {:induction false} WordStepStable(u: string, tail: string, c: Core)
    requires NextLine(tail) && Valid(c) && WordLen(u) > 0
    ensures WordLen(u + tail) > 0 && WordStep(u + tail, c) == WordStep(u, c)
  {
    hide IdentEnd;
    WordStable(u, tail);
    var n := WordLen(u);
    assert (u + tail)[..n] == u[..n];
    assert n < |u| ==> (u + tail)[n] == u[n];
    assert n == |u| ==> (u + tail)[n] == tail[0];
  }

  lemma {:induction false} OpenStable(u: string, tail: string, c: Core)
    requires NextLine(tail) && Valid(c) && u != ""
    ensures OpenStep(u + tail, c) == OpenStep(u, c)
  {
    hide Heredoc, WordLen, StartsAt, WordStep;
    TailOf(u, tail);
    StartsStable(u, tail, "$((");
    StartsStable(u, tail, "((");
    StartsStable(u, tail, "$(");
    StartsStable(u, tail, "${");
    StartsStable(u, tail, "<<<");
    StartsStable(u, tail, "<<");
    WordStable(u, tail);
    if StartsAt(u, 0, "<<") {
      assert |u| >= 2 by { TwoLong(u); }
      HeredocStable(u, tail);
    }
    if WordLen(u) > 0 {
      WordStepStable(u, tail, c);
    }
  }

  lemma TwoLong(u: string)
    requires StartsAt(u, 0, "<<")
    ensures |u| >= 2
  {
  }

  lemma {:induction false} CommandStable(u: string, tail: string, first: bool, c: Core)
    requires NextLine(tail) && Valid(c) && u != "" && CommandStep(u, first, c).Some?
    ensures CommandStep(u + tail, first, c) == CommandStep(u, first, c)
  {
    hide CommentStop, OpenStep, AfterQuote, AfterAnsiQuote, StartsAt;
    TailOf(u, tail);
    CommentStopStable(u, tail, Top(c).kind);
    StartsStable(u, tail, "#!");
    StartsStable(u, tail, "$'");
    if AfterAnsiQuote(u, 2).Some? {
      AnsiStable(u, tail, 2);
    }
    if AfterQuote(u, 1).Some? {
      AfterQuoteStable(u, tail, 1);
    }
    OpenStable(u, tail, c);
  }

  lemma {:induction false} InnerStable(u: string, tail: string, c: Core)
    requires NextLine(tail) && Valid(c) && u != ""
    ensures Top(c).kind == Dq ==> QuotedStep(u + tail, c) == QuotedStep(u, c)
    ensures Top(c).kind == Param && ParamStep(u, c).Some? ==> ParamStep(u + tail, c) == ParamStep(u, c)
    ensures Top(c).kind == Arith ==> ArithStep(u + tail, c) == ArithStep(u, c)
  {
    hide AfterQuote, StartsAt;
    TailOf(u, tail);
    StartsStable(u, tail, "$((");
    StartsStable(u, tail, "$(");
    StartsStable(u, tail, "${");
    StartsStable(u, tail, "))");
    if AfterQuote(u, 1).Some? {
      AfterQuoteStable(u, tail, 1);
    }
  }

  /** A step that succeeds in a script is the same step when lines follow the script. */
  lemma {:induction false} StepStable(u: string, tail: string, first: bool, c: Core)
    requires NextLine(tail) && Valid(c) && u != "" && Step(u, first, c).Some?
    ensures Step(u + tail, first, c) == Step(u, first, c)
  {
    hide CommandStep, QuotedStep, ParamStep, ArithStep, DocsEnd;
    TailOf(u, tail);
    var kind := Top(c).kind;
    if u[0] == '\n' && c.pending != [] && TakesDocs(kind) {
      DocsStable(u, tail, 1, c.pending);
    } else if kind == Dq || kind == Param || kind == Arith {
      InnerStable(u, tail, c);
    } else {
      CommandStable(u, tail, first, c);
    }
  }

  // ----- where a script ends -----

  /** A step leaves the text only by an escape at its end or by a closed here-document. */
  ghost predicate Lands(u: string, m: Move)
    requires u != ""
  {
    && m.advance <= |u| + 1
    && (m.advance == |u| + 1 ==> u[|u| - 1] == '\\' || (m.core.sep && m.core.pending == []))
  }

  lemma {:induction false} OpenLands(u: string, c: Core)
    requires Valid(c) && u != ""
    ensures OpenStep(u, c).Some? && Lands(u, OpenStep(u, c).value)
  {
    hide Heredoc, IdentEnd;
  }

  lemma {:induction false} StepLands(u: string, first: bool, c: Core)
    requires Valid(c) && u != "" && Step(u, first, c).Some?
    ensures Lands(u, Step(u, first, c).value)
  {
    hide OpenStep, AfterQuote, AfterAnsiQuote, CommentStop, DocsEnd;
    OpenLands(u, c);
  }

  /** The index at which the loop stops. */
  function Stop(text: string, i: nat, c: Core): nat
    requires Valid(c)
    decreases |text| - i
  {
    if i >= |text| then i
    else
      match Step(text[i..], i == 0, c)
      case None => i
      case Some(m) => Stop(text, i + m.advance, m.core)
  }

  /** The loop stops at the end of the text or one past it, and past it only as a step may leave it. */
  lemma {:induction false} StopLands(text: string, i: nat, c: Core)
    requires Valid(c) && Run(text, i, c).Some? && i <= |text| + 1
    ensures |text| <= Stop(text, i, c) <= |text| + 1
    ensures i <= |text| < Stop(text, i, c) && !Run(text, i, c).value.1.sep ==> text != "" && text[|text| - 1] == '\\'
    decreases |text| - i
  {
    hide Step;
    if i < |text| {
      var u := text[i..];
      StepLands(u, i == 0, c);
      assert u[|u| - 1] == text[|text| - 1];
      var m := Step(u, i == 0, c).value;
      StopLands(text, i + m.advance, m.core);
    }
  }

  // ----- running on into the next lines -----

  lemma {:induction false} Unfold(text: string, i: nat, c: Core)
    requires Valid(c)
    ensures i >= |text| ==> Run(text, i, c) == Some(([], c)) && Stop(text, i, c) == i
    ensures i < |text| && Run(text, i, c).Some? ==> Step(text[i..], i == 0, c).Some?
    ensures i < |text| && Step(text[i..], i == 0, c).Some? ==>
      var m := Step(text[i..], i == 0, c).value;
      && Run(text, i, c) == Prefixed(Found(i, m), Run(text, i + m.advance, m.core))
      && Stop(text, i, c) == Stop(text, i + m.advance, m.core)
  {
    hide Step, Prefixed;
  }

  lemma {:induction false} RunOn(a: string, tail: string, i: nat, c: Core)
    requires NextLine(tail) && Valid(c) && Run(a, i, c).Some?
    ensures Run(a + tail, i, c) == Prefixed(Run(a, i, c).value.0, Run(a + tail, Stop(a, i, c), Run(a, i, c).value.1))
    decreases |a| - i
  {
    hide Step, Prefixed, Run, Stop;
    var t := a + tail;
    Unfold(a, i, c);
    if i >= |a| {
      NothingBefore(Run(t, i, c));
    } else {
      var u := a[i..];
      Slices(a, tail, i, i);
      StepStable(u, tail, i == 0, c);
      Unfold(t, i, c);
      var m := Step(u, i == 0, c).value;
      var rest := Run(a, i + m.advance, m.core);
      PrefixedSome(Found(i, m), rest);
      RunOn(a, tail, i + m.advance, m.core);
      PrefixedTwice(Found(i, m), rest.value.0, Run(t, Stop(a, i, c), rest.value.1));
    }
  }

  lemma {:induction false} PrefixedSome(one: seq<Span>, r: Option<(seq<Span>, Core)>)
    ensures Prefixed(one, r).Some? <==> r.Some?
    ensures r.Some? ==> Prefixed(one, r) == Some((one + r.value.0, r.value.1))
  {
  }

  // ----- the same scan further down -----

  function Later(spans: seq<Span>, m: nat): (r: seq<Span>)
    ensures |r| == |spans| && forall k :: 0 <= k < |r| ==> r[k] == (spans[k].0 + m, spans[k].1 + m)
  {
    seq(|spans|, k requires 0 <= k < |spans| => (spans[k].0 + m, spans[k].1 + m))
  }

  function LaterRun(r: Option<(seq<Span>, Core)>, m: nat): Option<(seq<Span>, Core)> {
    match r
    case None => None
    case Some((spans, last)) => Some((Later(spans, m), last))
  }

  /** Only the very first line can be a `#!` line. */
  lemma {:induction false} FirstOnly(u: string, c: Core)
    requires Valid(c) && u != "" && !StartsAt(u, 0, "#!")
    ensures Step(u, true, c) == Step(u, false, c)
  {
    hide OpenStep, QuotedStep, ParamStep, ArithStep, DocsEnd, CommentStop;
  }

  lemma {:induction false} RunLater(t: string, b: string, m: nat, i: nat, c: Core)
    requires 0 < m <= |t| && t[m..] == b && Valid(c) && !StartsAt(b, 0, "#!")
    ensures Run(t, m + i, c) == LaterRun(Run(b, i, c), m)
    decreases |b| - i
  {
    hide Step, StartsAt, Prefixed, LaterRun;
    if i >= |b| {
      assert LaterRun(Run(b, i, c), m) == Some(([], c)) by { LaterNothing(c, m); }
    } else {
      var u := b[i..];
      assert t[m + i..] == u;
      if i == 0 {
        assert u == b;
        FirstOnly(u, c);
      }
      if Step(u, false, c).Some? {
        var s := Step(u, false, c).value;
        RunLater(t, b, m, i + s.advance, s.core);
        assert m + i + s.advance == m + (i + s.advance);
        LaterPrefixed(i, s, Run(b, i + s.advance, s.core), m);
      } else {
        LaterNone(m);
      }
    }
  }

  lemma LaterNothing(c: Core, m: nat)
    ensures LaterRun(Some(([], c)), m) == Some(([], c))
  {
  }

  lemma LaterNone(m: nat)
    ensures LaterRun(None, m) == None
  {
  }

  lemma {:induction false} LaterPrefixed(i: nat, s: Move, r: Option<(seq<Span>, Core)>, m: nat)
    ensures LaterRun(Prefixed(Found(i, s), r), m) == Prefixed(Found(m + i, s), LaterRun(r, m))
  {
    if r.Some? {
      assert Later(Found(i, s) + r.value.0, m) == Found(m + i, s) + Later(r.value.0, m);
    }
  }

  // ----- the `case` words of the outermost frame do not matter -----

  /** The same state up to the counters of the bottom frame. */
  predicate Alike(c: Core, d: Core) {
    && Valid(c) && Valid(d) && |c.frames| == |d.frames| && c.frames[1..] == d.frames[1..]
    && c.pending == d.pending && c.sep == d.sep
  }

  predicate AlikeMoves(m: Option<Move>, n: Option<Move>) {
    && (m.Some? <==> n.Some?)
    && (m.Some? ==>
          Alike(m.value.core, n.value.core) && m.value.advance == n.value.advance && m.value.comment == n.value.comment)
  }

  lemma {:induction false} AlikeTop(c: Core, d: Core)
    requires Alike(c, d)
    ensures Top(c).kind == Top(d).kind && (Top(c).kind != Code ==> Top(c) == Top(d))
    ensures |c.frames| > 1 ==> c.frames[|c.frames| - 2].kind == d.frames[|d.frames| - 2].kind
  {
    var n := |c.frames|;
    if n > 1 {
      assert c.frames[1..][n - 2] == d.frames[1..][n - 2];
      if n > 2 {
        assert c.frames[1..][n - 3] == d.frames[1..][n - 3];
      }
    }
  }

  lemma {:induction false} AlikePush(c: Core, d: Core, kind: FrameKind)
    requires Alike(c, d) && kind != Code
    ensures Alike(Push(c, kind), Push(d, kind))
  {
    assert Push(c, kind).frames[1..] == c.frames[1..] + [Frame(kind, 0, 0)];
    assert Push(d, kind).frames[1..] == d.frames[1..] + [Frame(kind, 0, 0)];
  }

  lemma {:induction false} AlikePop(c: Core, d: Core)
    requires Alike(c, d) && Top(c).kind != Code && Top(d).kind != Code
    ensures Alike(Pop(c), Pop(d))
  {
    var n := |c.frames|;
    assert Pop(c).frames[1..] == c.frames[1..][..n - 2];
    assert Pop(d).frames[1..] == d.frames[1..][..n - 2];
  }

  lemma {:induction false} AlikeSet(c: Core, d: Core, f: Frame, g: Frame)
    requires Alike(c, d) && f.kind == Top(c).kind && g.kind == Top(d).kind && (f.kind != Code ==> f == g)
    ensures Alike(SetTop(c, f), SetTop(d, g))
  {
    AlikeTop(c, d);
    var n := |c.frames|;
    if n == 1 {
      assert SetTop(c, f).frames[1..] == [] == SetTop(d, g).frames[1..];
    } else {
      assert SetTop(c, f).frames[1..] == c.frames[1..][n - 2 := f];
      assert SetTop(d, g).frames[1..] == d.frames[1..][n - 2 := g];
    }
  }

  /** Every push and pop at once. */
  lemma {:induction false} AlikeEdits(c: Core, d: Core)
    requires Alike(c, d)
    ensures Alike(Push(c, Dq), Push(d, Dq)) && Alike(Push(c, Bq), Push(d, Bq)) && Alike(Push(c, Cmd), Push(d, Cmd))
    ensures Alike(Push(c, Param), Push(d, Param)) && Alike(Push(c, Arith), Push(d, Arith))
    ensures Top(c).kind == Top(d).kind && (Top(c).kind != Code ==> Top(c) == Top(d) && Alike(Pop(c), Pop(d)))
  {
    hide Push, Pop, Alike;
    AlikeValid(c, d);
    AlikeTop(c, d);
    AlikePush(c, d, Dq);
    AlikePush(c, d, Bq);
    AlikePush(c, d, Cmd);
    AlikePush(c, d, Param);
    AlikePush(c, d, Arith);
    if Top(c).kind != Code {
      AlikePop(c, d);
    }
  }

  lemma {:induction false} AlikeGo(c: Core, d: Core, sep: bool, n: nat)
    requires Alike(c, d)
    ensures AlikeMoves(Go(c, sep, n), Go(d, sep, n)) && AlikeMoves(Stay(c, n), Stay(d, n))
  {
  }

  lemma {:induction false} AlikeWord(u: string, c: Core, d: Core)
    requires Alike(c, d) && WordLen(u) > 0
    ensures AlikeMoves(WordStep(u, c), WordStep(u, d))
  {
    hide SetTop, Alike, AlikeMoves, WordLen;
    AlikeTop(c, d);
    assert Valid(c) && Valid(d) by { AlikeValid(c, d); }
    var m, n := WordStep(u, c).value, WordStep(u, d).value;
    var f, g := Top(c), Top(d);
    var f', g' := Counted(u, f), Counted(u, g);
    AlikeSet(c, d, f', g');
    AlikeGo(SetTop(c, f'), SetTop(d, g'), false, WordLen(u));
  }

  lemma AlikeValid(c: Core, d: Core)
    requires Alike(c, d)
    ensures Valid(c) && Valid(d)
  {
  }

  lemma {:induction false} AlikePlain(u: string, c: Core, d: Core)
    requires Alike(c, d) && u != ""
    ensures AlikeMoves(PlainStep(u, c), PlainStep(u, d))
    ensures Top(c).kind == Top(d).kind
    ensures Top(c).kind == Cmd ==> AlikeMoves(CloseStep(c), CloseStep(d))
  {
    hide Pop, SetTop;
    AlikeTop(c, d);
    if Top(c).kind == Cmd {
      var f := Top(c);
      AlikePop(c, d);
      AlikeSet(c, d, f.(depth := f.depth - 1), f.(depth := f.depth - 1));
      AlikeSet(c, d, f.(depth := f.depth + 1), f.(depth := f.depth + 1));
    }
  }

  lemma {:induction false} AlikeDoc(c: Core, d: Core, doc: Doc, n: nat)
    requires Alike(c, d)
    ensures AlikeMoves(Go(c.(pending := c.pending + [doc]), false, n), Go(d.(pending := d.pending + [doc]), false, n))
  {
  }

  lemma {:induction false} AlikeOpen(u: string, c: Core, d: Core)
    requires Alike(c, d) && u != ""
    ensures AlikeMoves(OpenStep(u, c), OpenStep(u, d))
  {
    hide Push, Pop, WordStep, CloseStep, PlainStep, Heredoc, WordLen, StartsAt, Alike, AlikeMoves, Go, Valid;
    AlikeValid(c, d);
    AlikeEdits(c, d);
    AlikePlain(u, c, d);
    assert c.sep == d.sep by { AlikeSep(c, d); }
    if WordLen(u) > 0 {
      AlikeWord(u, c, d);
    }
    AlikeGo(Push(c, Arith), Push(d, Arith), false, 3);
    AlikeGo(Push(c, Arith), Push(d, Arith), false, 2);
    AlikeGo(Push(c, Cmd), Push(d, Cmd), true, 2);
    AlikeGo(Push(c, Param), Push(d, Param), false, 2);
    AlikeGo(c, d, true, 3);
    if StartsAt(u, 0, "<<") {
      TwoLong(u);
      if Heredoc(u).Some? {
        AlikeDoc(c, d, Heredoc(u).value.0, Heredoc(u).value.1);
      }
    }
  }

  lemma AlikeSep(c: Core, d: Core)
    requires Alike(c, d)
    ensures c.sep == d.sep
  {
  }

  lemma {:induction false} AlikeCommand(u: string, first: bool, c: Core, d: Core)
    requires Alike(c, d) && u != ""
    ensures AlikeMoves(CommandStep(u, first, c), CommandStep(u, first, d))
  {
    hide Push, Pop, OpenStep, CommentStop, StartsAt, Valid;
    AlikeEdits(c, d);
    AlikeOpen(u, c, d);
  }

  lemma {:induction false} AlikeInner(u: string, c: Core, d: Core)
    requires Alike(c, d) && u != "" && Top(c).kind == Top(d).kind
    ensures Top(c).kind == Dq ==> AlikeMoves(QuotedStep(u, c), QuotedStep(u, d))
    ensures Top(c).kind == Param ==> AlikeMoves(ParamStep(u, c), ParamStep(u, d))
    ensures Top(c).kind == Arith ==> AlikeMoves(ArithStep(u, c), ArithStep(u, d))
  {
    hide Push, Pop, SetTop, StartsAt;
    AlikeTop(c, d);
    AlikeEdits(c, d);
    if Top(c).kind == Arith {
      var f := Top(c);
      AlikeSet(c, d, f.(depth := f.depth - 1), f.(depth := f.depth - 1));
      AlikeSet(c, d, f.(depth := f.depth + 1), f.(depth := f.depth + 1));
    }
  }

  lemma {:induction false} AlikeStep(u: string, first: bool, c: Core, d: Core)
    requires Alike(c, d) && u != ""
    ensures AlikeMoves(Step(u, first, c), Step(u, first, d))
  {
    hide CommandStep, QuotedStep, ParamStep, ArithStep, DocsEnd;
    AlikeTop(c, d);
    AlikeInner(u, c, d);
    AlikeCommand(u, first, c, d);
  }

  lemma {:induction false} AlikeRun(text: string, i: nat, c: Core, d: Core)
    requires Alike(c, d)
    ensures Valid(c) && Valid(d) && (Run(text, i, c).Some? <==> Run(text, i, d).Some?)
    ensures Run(text, i, c).Some? ==>
      Run(text, i, c).value.0 == Run(text, i, d).value.0 && Alike(Run(text, i, c).value.1, Run(text, i, d).value.1)
    decreases |text| - i
  {
    hide Step, Alike;
    AlikeValid(c, d);
    if i < |text| {
      AlikeStep(text[i..], i == 0, c, d);
      var m, n := Step(text[i..], i == 0, c), Step(text[i..], i == 0, d);
      if m.Some? {
        AlikeRun(text, i + m.value.advance, m.value.core, n.value.core);
        assert Found(i, m.value) == Found(i, n.value);
      }
    }
  }

  // ----- the theorem -----

  /** At the end of an accepted script the next line starts afresh. */
  lemma {:induction false} FreshLine(t: string, i: nat, c: Core)
    requires Valid(c) && Closed(c) && 0 < i && c.sep
    ensures Run(t, i, c).Some? <==> Run(t, i, START).Some?
    ensures Run(t, i, c).Some? ==>
      Run(t, i, c).value.0 == Run(t, i, START).value.0 && (Closed(Run(t, i, c).value.1) <==> Closed(Run(t, i, START).value.1))
  {
    assert Alike(c, START);
    AlikeRun(t, i, c, START);
  }

  lemma {:induction false} NewlineStep(u: string, first: bool, c: Core)
    requires Valid(c) && Closed(c) && NextLine(u)
    ensures Step(u, first, c) == Some(Move(c.(sep := true), 1, 0))
  {
    hide StartsAt;
    assert Top(c) == c.frames[0];
    NoStart(u, "$'");
    NoStart(u, "$((");
    NoStart(u, "((");
    NoStart(u, "$(");
    NoStart(u, "${");
    NoStart(u, "<<<");
    NoStart(u, "<<");
  }

  lemma {:induction false} NoStart(u: string, pat: string)
    requires NextLine(u) && pat != "" && pat[0] != '\n'
    ensures !StartsAt(u, 0, pat)
  {
    assert u[0 + 0] == '\n';
  }

  /** The spans of a script followed by those of the lines after it. */
  function Joined(spans: seq<Span>, m: nat, r: Option<seq<Span>>): Option<seq<Span>> {
    match r
    case None => None
    case Some(more) => Some(spans + Later(more, m))
  }

  /** The script ends in the middle of an escape, so the next newline belongs to it. */
  predicate Dangling(a: string) {
    Run(a, 0, START).Some? && Stop(a, 0, START) > |a| && !Run(a, 0, START).value.1.sep
  }

  /** Only a script whose last character is a backslash can do that. */
  lemma {:induction false} DanglingEnds(a: string)
    requires Dangling(a)
    ensures a != "" && a[|a| - 1] == '\\'
  {
    hide Run, Stop;
    StopLands(a, 0, START);
  }

  /** Where an accepted script stops, the rest runs as from the start of the next line. */
  lemma {:induction false} AfterScript(a: string, tail: string)
    requires NextLine(tail) && Spanned(a).Some? && !Dangling(a)
    ensures exists c ::
      && Valid(c) && Closed(c) && c.sep
      && Run(a + tail, 0, START) == Prefixed(Spanned(a).value, Run(a + tail, |a| + 1, c))
  {
    hide Step, Run, Stop;
    var (spans, last) := Run(a, 0, START).value;
    var t, e := a + tail, Stop(a, 0, START);
    RunOn(a, tail, 0, START);
    assert Run(a, 0, START).value == (spans, last);
    StopLands(a, 0, START);
    if e == |a| + 1 {
      assert last.sep;
    } else {
      assert t[|a|..] == tail;
      NewlineStep(tail, |a| == 0, last);
      var c := last.(sep := true);
      assert Run(t, |a|, last) == Run(t, |a| + 1, c) by { NewlineRun(t, |a|, last); }
      assert Valid(c) && Closed(c) && c.sep;
    }
  }

  lemma {:induction false} NewlineRun(t: string, i: nat, c: Core)
    requires Valid(c) && Closed(c) && i < |t| && Step(t[i..], i == 0, c) == Some(Move(c.(sep := true), 1, 0))
    ensures Run(t, i, c) == Run(t, i + 1, c.(sep := true))
  {
    hide Step;
    var r := Run(t, i + 1, c.(sep := true));
    assert r.Some? ==> [] + r.value.0 == r.value.0;
  }

  /** `a` followed by `b` is accepted exactly when `b` is, with the comments of both. */
  ghost predicate Composes(a: string, b: string)
    requires Spanned(a).Some?
  {
    Spanned(a + ("\n" + b)) == Joined(Spanned(a).value, |a| + 1, Spanned(b))
  }

  lemma {:induction false} ScriptsCompose(a: string, b: string)
    requires Spanned(a).Some? && !Dangling(a) && !StartsAt(b, 0, "#!")
    ensures Composes(a, b)
  {
    hide Step, StartsAt, Run, Stop;
    var tail := "\n" + b;
    var t, m := a + tail, |a| + 1;
    AfterScript(a, tail);
    var c :| Valid(c) && Closed(c) && c.sep
      && Run(t, 0, START) == Prefixed(Spanned(a).value, Run(t, m, c));
    FreshLine(t, m, c);
    assert t[m..] == b;
    RunLater(t, b, m, 0, START);
  }

  lemma {:induction false} NoOpener(u: string, pat: string)
    requires u != "" && pat != "" && u[0] != pat[0]
    ensures !StartsAt(u, 0, pat)
  {
    assert u[0 + 0] == u[0];
  }

  /** A hash sign that does not stand in command position is an ordinary character. */
  lemma {:induction false} PlainHash(c: Core)
    requires Valid(c) && Closed(c) && !c.sep
    ensures Step("#", false, c) == Some(Move(c, 1, 0))
  {
    hide StartsAt;
    var u := "#";
    assert Top(c) == c.frames[0];
    NoOpener(u, "$'");
    NoOpener(u, "$((");
    NoOpener(u, "$(");
    NoOpener(u, "${");
    NoOpener(u, "<<<");
    NoOpener(u, "<<");
  }

  lemma {:induction false} HashStep()
    ensures Step("#", true, START) == Some(Move(START, 1, 1))
  {
    ShortHash();
    HashStops();
  }

  /** The run of a text that takes one step. */
  lemma {:induction false} OneStep(text: string, i: nat, c: Core, m: Move)
    requires Valid(c) && i < |text| && Step(text[i..], i == 0, c) == Some(m) && i + m.advance >= |text|
    ensures Run(text, i, c) == Some((Found(i, m), m.core))
  {
    hide Step;
    assert Found(i, m) + [] == Found(i, m);
  }

  lemma {:induction false} HashSpans()
    ensures Spanned("#") == Some([(0, 1)]) && !StartsAt("#", 0, "#!")
  {
    hide Step, Run, StartsAt;
    ShortHash();
    HashStep();
    assert "#"[0..] == "#";
    OneStep("#", 0, START, Move(START, 1, 1));
  }

  /** After a dangling script the first comment of the next line is none any more. */
  lemma {:induction false} DanglingBreaks(a: string)
    requires Spanned(a).Some? && Dangling(a)
    ensures !Composes(a, "#")
  {
    hide Step, Run, Stop, StartsAt;
    var (spans, last) := Run(a, 0, START).value;
    var tail := "\n" + "#";
    var t := a + tail;
    StopLands(a, 0, START);
    RunOn(a, tail, 0, START);
    assert t[|a| + 1..] == "#";
    PlainHash(last);
    OneStep(t, |a| + 1, last, Move(last, 1, 0));
    assert Spanned(t) == Some(spans + []);
    HashSpans();
    assert Spanned(a) == Some(spans);
    var joined := Joined(spans, |a| + 1, Spanned("#"));
    assert joined.Some? && |joined.value| == |spans| + 1;
  }

  /** A lone backslash is accepted, and the comment on the line after it is lost. */
  lemma {:induction false} BackslashDangles()
    ensures Spanned("\\") == Some([]) && Dangling("\\") && !Composes("\\", "#")
  {
    hide Step, Run, Composes;
    var a := "\\";
    var m := Move(START.(sep := false), 2, 0);
    assert Step(a, true, START) == Some(m) by { EscapeStep(); }
    assert a[0..] == a;
    OneStep(a, 0, START, m);
    assert Stop(a, 0, START) == 2;
    DanglingBreaks(a);
  }

  lemma EscapeStep()
    ensures Step("\\", true, START) == Some(Move(START.(sep := false), 2, 0))
  {
  }

  /**
    * An accepted script leaves nothing open. Whatever lines follow it, other than a `#!` script,
    * they are scanned as if they stood alone, unless the script ends in the middle of an escape;
    * in that case some following line is scanned differently.
    */
  lemma {:induction false} ScriptsComposeIff(a: string)
    requires Spanned(a).Some?
    ensures (forall b :: !StartsAt(b, 0, "#!") ==> Composes(a, b)) <==> !Dangling(a)
  {
    hide Composes, Dangling, Spanned, StartsAt;
    if Dangling(a) {
      DanglingBreaks(a);
      HashSpans();
    } else {
      forall b | !StartsAt(b, 0, "#!")
        ensures Composes(a, b)
      {
        ScriptsCompose(a, b);
      }
    }
  }

  lemma ShortHash()
    ensures !StartsAt("#", 0, "#!")
  {
  }

  lemma HashStops()
    ensures CommentStop("#", Code) == 1
  {
    assert "#"[1..] == "";
    assert NewlineOrEnd("#") == 1;
  }
}
