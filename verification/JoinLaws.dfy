/** What `join_split_spans` is for: no comment of the joined text splits a line of code. */
module JoinLaws {
  import opened Text
  import opened Lexer
  import opened Reduction
  import opened Scan
  import opened Tagged
  import opened Join
  import opened StripLine
  import opened StripTheorem

  /** A visible character stands before `a` on its line. */
  predicate VisibleBefore(text: string, a: nat) {
    exists k :: 0 <= k < a <= |text| && !IsSpace(text[k]) && forall j :: k < j < a ==> text[j] != '\n'
  }

  /** A visible character stands at `b` or behind it on its line. */
  predicate VisibleAfter(text: string, b: nat) {
    exists k :: b <= k < |text| && !IsSpace(text[k]) && forall j :: b <= j < k ==> text[j] != '\n'
  }

  predicate BreaksIn(text: string, a: nat, b: nat) {
    exists k :: a <= k < b <= |text| && text[k] == '\n'
  }

  /** The comment from `a` to `b` takes a line break out of code: something visible stands on both sides of it. */
  predicate SplitsCode(text: string, a: nat, b: nat) {
    BreaksIn(text, a, b) && VisibleBefore(text, a) && VisibleAfter(text, b)
  }

  // ----- one round -----

  lemma {:induction false} LineStartIs(text: string, a: nat)
    requires a <= |text|
    ensures
      var k := LineStart(text, a);
      k <= a && (forall j :: k <= j < a ==> text[j] != '\n') && (k > 0 ==> text[k - 1] == '\n')
    decreases a
  {
    if a > 0 && text[a - 1] != '\n' {
      LineStartIs(text, a - 1);
    }
  }

  lemma {:induction false} BeforeIs(text: string, a: nat)
    requires a <= |text|
    ensures !AllSpace(text[LineStart(text, a)..a]) <==> VisibleBefore(text, a)
  {
    hide IsSpace, LineStart;
    LineStartIs(text, a);
    var s := LineStart(text, a);
    var line := text[s..a];
    assert forall i :: 0 <= i < |line| ==> line[i] == text[s + i];
    if k :| 0 <= k < a && !IsSpace(text[k]) && forall j :: k < j < a ==> text[j] != '\n' {
      NewlineIsSpace();
      assert k >= s;
      assert line[k - s] == text[k];
    }
  }

  lemma {:induction false} AfterIs(text: string, b: nat)
    requires b <= |text|
    ensures !AllSpace(text[b..EndOfLine(text, b)]) <==> VisibleAfter(text, b)
  {
    hide IsSpace, FindFrom;
    FindIsFirst(text, b, "\n");
    var e, n := EndOfLine(text, b), match FindFrom(text, b, "\n") case None => |text| case Some(e) => e;
    assert forall j: nat :: b <= j < n ==> text[j] != '\n' by {
      forall j: nat | b <= j < n
        ensures text[j] != '\n'
      {
        assert !StartsAt(text, j, "\n");
      }
    }
    assert n < |text| ==> text[n] == '\n' by {
      assert n < |text| ==> StartsAt(text, n, "\n") && text[n + 0] == "\n"[0];
    }
    NewlineIsSpace();
    var line := text[b..e];
    assert forall i :: 0 <= i < |line| ==> line[i] == text[b + i];
    if k :| b <= k < |text| && !IsSpace(text[k]) && forall j :: b <= j < k ==> text[j] != '\n' {
      NewlineIsSpace();
      assert k < e;
      assert line[k - b] == text[k];
    }
  }

  lemma {:induction false} SplitsIs(text: string, a: nat, b: nat)
    requires a <= b <= |text|
    ensures Splits(text, a, b) <==> SplitsCode(text, a, b)
  {
    hide AllSpace, VisibleBefore, VisibleAfter, LineStart, EndOfLine;
    BeforeIs(text, a);
    AfterIs(text, b);
    var part := text[a..b];
    assert forall i :: 0 <= i < |part| ==> part[i] == text[a + i];
    assert BreaksIn(text, a, b) ==> '\n' in part by {
      if k :| a <= k < b && text[k] == '\n' {
        assert part[k - a] == '\n';
      }
    }
  }

  /** The last comment goes with the blanks around it, for one space, exactly when it splits code. */
  lemma {:induction false} JoinLast(pre: string, gap: string, comment: string, gap': string, post: string, spans: seq<Span>)
    requires (forall k :: 0 <= k < |gap| ==> gap[k] == ' ' || gap[k] == '\t') && (pre != "" ==> pre[|pre| - 1] !in " \t")
    requires (forall k :: 0 <= k < |gap'| ==> gap'[k] == ' ' || gap'[k] == '\t') && (post != "" ==> post[0] !in " \t")
    ensures
      var text, a, b := pre + gap + comment + gap' + post, |pre + gap|, |pre + gap + comment|;
      JoinAll(text, spans + [(a, b)]) == JoinAll(if SplitsCode(text, a, b) then pre + " " + post else text, spans)
  {
    hide SplitsCode, Splits;
    var text, a, b := pre + gap + comment + gap' + post, |pre + gap|, |pre + gap + comment|;
    var all := spans + [(a, b)];
    assert all[|all| - 1] == (a, b) && all[..|all| - 1] == spans;
    SplitsIs(text, a, b);
    assert text[..a] == pre + gap && text[b..] == gap' + post;
    FreeOf(pre, gap);
    LeadOf(gap', post);
    assert text[..|pre|] == pre && text[b + |gap'|..] == post;
  }

  lemma {:induction false} FreeOf(pre: string, gap: string)
    requires (forall k :: 0 <= k < |gap| ==> IsBlank(gap[k])) && (pre != "" ==> !IsBlank(pre[|pre| - 1]))
    ensures BlankFreeLen(pre + gap) == |pre|
  {
    hide BlankFreeLen, IsBlank;
    var n, s := BlankFreeLen(pre + gap), pre + gap;
    assert pre != "" ==> s[|pre| - 1] == pre[|pre| - 1];
    assert forall k :: |pre| <= k < |s| ==> s[k] == gap[k - |pre|];
  }

  lemma {:induction false} LeadOf(gap: string, post: string)
    requires (forall k :: 0 <= k < |gap| ==> IsBlank(gap[k])) && (post != "" ==> !IsBlank(post[0]))
    ensures LeadingBlanks(gap + post) == |gap|
  {
    hide LeadingBlanks, IsBlank;
    var n, s := LeadingBlanks(gap + post), gap + post;
    assert post != "" ==> s[|gap|] == post[0];
    assert forall k :: 0 <= k < |gap| ==> s[k] == gap[k];
  }

  // ----- the whole loop -----

  /** A comment that is not at the end of its line ends in a slash. */
  lemma {:induction false} CommentEnds(sc: Scanner, x: seq<Cell>, a: nat, b: nat)
    requires Lexed(sc, x) && IsCommentAt(x, a, b) && VisibleAfter(TextOf(x), b)
    ensures x[b - 1].ch == '/'
    decreases |x|
  {
    hide Lex, Lexed, Next, IsSpace, VisibleAfter, TextOf, LexemeShape, WellTagged;
    var l := LexSplits(sc, x);
    var m := l.size;
    var rest := x[m..];
    assert forall k :: 0 <= k < |rest| ==> rest[k] == x[m + k];
    if a == 0 {
      LexedTagged(sc, rest);
      assert rest != [] ==> rest[0] == x[m];
      assert b == m;
      NextEnds(sc, TextOf(x), l);
    } else {
      TailAfter(x, m, b);
      CommentEnds(sc, rest, a - m, b - m);
    }
  }

  lemma {:induction false} TailAfter(x: seq<Cell>, m: nat, b: nat)
    requires m <= b <= |x| && VisibleAfter(TextOf(x), b)
    ensures VisibleAfter(TextOf(x[m..]), b - m)
  {
    hide IsSpace;
    var text, rest := TextOf(x), TextOf(x[m..]);
    assert rest == text[m..];
    var k :| b <= k < |text| && !IsSpace(text[k]) && forall j :: b <= j < k ==> text[j] != '\n';
    assert rest[k - m] == text[k];
  }

  lemma {:induction false} NextEnds(sc: Scanner, s: string, l: Lexeme)
    requires s != "" && Next(sc, s) == Some(l) && l.kind == Comment && VisibleAfter(s, l.size)
    ensures s[l.size - 1] == '/'
  {
    hide IsSpace, FindFrom, QuoteEnd, SqlQuoteEnd, NumberEnd, NumberStart, RawEnd, RawPrefix, IdentEnd, LexemeShape, VisibleAfter;
    var m := l.size;
    if |s| >= 2 && s[0] == '/' && s[1] == '/' && sc.language != Sql {
      AtLineEnd(s, LineEnd(s, 2));
    } else if |s| >= 2 && s[0] == '-' && s[1] == '-' && sc.language == Sql {
      FindIsFirst(s, 0, "\n");
      var e := match FindFrom(s, 0, "\n") case None => |s| case Some(e) => e;
      assert e < |s| ==> s[e + 0] == "\n"[0];
      AtLineEnd(s, e);
    }
  }

  /** Nothing visible follows a comment that runs to the end of its line. */
  lemma {:induction false} AtLineEnd(s: string, e: nat)
    requires 0 < e <= |s| && (e < |s| ==> s[e] == '\n')
    ensures !VisibleAfter(s, TrimReturn(s, e))
  {
    hide IsSpace;
    NewlineIsSpace();
  }

  /** The labelled text `x'` that one joined comment leaves of `x`: all before `p`, a space, all from `q` on. */
  ghost predicate JoinedAs(x: seq<Cell>, x': seq<Cell>, a: nat, b: nat, p: nat, q: nat) {
    && p <= a < b <= q < |x| && x' == x[..p] + ([SPACE] + x[q..])
    && (forall k :: p <= k < a ==> IsBlank(x[k].ch)) && (forall k :: b <= k < q ==> IsBlank(x[k].ch))
    && !IsSpace(x[a].ch) && x[a].IsComment() && x[b - 1].ch == '/' && (p < a ==> x[p].tag == Void)
  }

  lemma {:induction false} JoinedCells(sc: Scanner, x: seq<Cell>, a: nat, b: nat) returns (x': seq<Cell>, p: nat, q: nat)
    requires Lexed(sc, x) && IsCommentAt(x, a, b) && SplitsCode(TextOf(x), a, b)
    ensures Lexed(sc, x') && TextOf(x') == JoinStep(TextOf(x), a, b) && JoinedAs(x, x', a, b, p, q)
  {
    hide Lex, Next, Lexed, Reduces, IsSpace, IsBlank, WholeEnds, TextOf, VisibleBefore, VisibleAfter, BreaksIn, Splits, PairShape;
    var t := TextOf(x);
    SplitsIs(t, a, b);
    p, q := BlankFreeLen(t[..a]), b + LeadingBlanks(t[b..]);
    LexedTagged(sc, x);
    SplitEnds(x, a, b);
    Joined(x, p, a, b, q);
    x' := x[..p] + ([SPACE] + x[q..]);
    assert x[0..] == x;
    ReducesLexed(sc, x, x', 0, true, true, false);
    JoinedText(x, p, q);
    CommentEnds(sc, x, a, b);
    assert CellShape(x[a]);
    CommentStart(x, a);
    BlanksBefore(x, p, a);
  }

  /** `t'` is `t` with a space for the part from `p` to `p + m`. */
  predicate Spliced(t: string, t': string, p: nat, m: nat) {
    && p < |t'| && |t| == |t'| + m && t'[p] == ' '
    && (forall k :: 0 <= k < p ==> t'[k] == t[k])
    && (forall k :: p < k < |t'| ==> t'[k] == t[k + m])
    && (forall k :: p + m < k < |t| ==> t[k] == t'[k - m])
  }

  lemma {:induction false} SplicedText(x: seq<Cell>, x': seq<Cell>, p: nat, q: nat)
    requires p < q <= |x| && x' == x[..p] + ([SPACE] + x[q..])
    ensures Spliced(TextOf(x), TextOf(x'), p, q - p - 1)
    ensures forall k :: 0 <= k < p ==> x'[k] == x[k]
    ensures forall k :: p + (q - p - 1) < k < |x| ==> x[k] == x'[k - (q - p - 1)]
  {
  }

  /** A comment before the joined one splits code only if it did. */
  lemma {:induction false} EarlierSplits(x: seq<Cell>, x': seq<Cell>, a: nat, b: nat, p: nat, q: nat, d: nat, e: nat)
    requires JoinedAs(x, x', a, b, p, q) && IsCommentAt(x', d, e) && e <= p && SplitsCode(TextOf(x'), d, e)
    requires x[a].tag == CommentFirst
    ensures IsCommentAt(x, d, e) && SplitsCode(TextOf(x), d, e)
  {
    hide IsSpace, TextOf, Spliced, BreaksIn, VisibleBefore, VisibleAfter;
    var t, t' := TextOf(x), TextOf(x');
    SplicedText(x, x', p, q);
    EarlierSame(t, t', p, q - p - 1, d, e);
    assert forall k :: p <= k < a ==> t[k] != '\n';
    EarlierAfter(t, t', p, q - p - 1, e, a);
  }

  lemma {:induction false} EarlierSame(t: string, t': string, p: nat, m: nat, d: nat, e: nat)
    requires Spliced(t, t', p, m) && d <= e <= p
    ensures BreaksIn(t', d, e) ==> BreaksIn(t, d, e)
    ensures VisibleBefore(t', d) ==> VisibleBefore(t, d)
  {
    hide IsSpace;
  }

  lemma {:induction false} EarlierAfter(t: string, t': string, p: nat, m: nat, e: nat, a: nat)
    requires Spliced(t, t', p, m) && e <= p <= a < |t| && VisibleAfter(t', e)
    requires !IsSpace(t[a]) && forall k :: p <= k < a ==> t[k] != '\n'
    ensures VisibleAfter(t, e)
  {
    hide IsSpace;
    var k :| e <= k < |t'| && !IsSpace(t'[k]) && forall j :: e <= j < k ==> t'[j] != '\n';
    if k < p {
      assert !IsSpace(t[k]) && forall j :: e <= j < k ==> t[j] != '\n';
    } else {
      assert forall j :: e <= j < p ==> t'[j] == t[j];
    }
  }

  /** So does one behind it. */
  lemma {:induction false} LaterSplits(x: seq<Cell>, x': seq<Cell>, a: nat, b: nat, p: nat, q: nat, d: nat, e: nat)
    requires JoinedAs(x, x', a, b, p, q) && IsCommentAt(x', d, e) && d > p && SplitsCode(TextOf(x'), d, e)
    ensures IsCommentAt(x, d + (q - p - 1), e + (q - p - 1)) && SplitsCode(TextOf(x), d + (q - p - 1), e + (q - p - 1))
  {
    hide IsSpace, TextOf, Spliced, BreaksIn, VisibleBefore, VisibleAfter;
    var t, t', m := TextOf(x), TextOf(x'), q - p - 1;
    SplicedText(x, x', p, q);
    LaterSame(t, t', p, m, d, e);
    LaterBefore(t, t', p, m, b, d) by {
      SlashVisible();
      assert forall k :: b <= k <= p + m ==> t[k] != '\n';
    }
  }

  lemma {:induction false} LaterSame(t: string, t': string, p: nat, m: nat, d: nat, e: nat)
    requires Spliced(t, t', p, m) && p < d <= e
    ensures BreaksIn(t', d, e) ==> BreaksIn(t, d + m, e + m)
    ensures VisibleAfter(t', e) ==> VisibleAfter(t, e + m)
  {
    hide IsSpace;
    if k :| d <= k < e <= |t'| && t'[k] == '\n' {
      assert t[k + m] == '\n';
    }
    if k :| e <= k < |t'| && !IsSpace(t'[k]) && forall j :: e <= j < k ==> t'[j] != '\n' {
      assert !IsSpace(t[k + m]) && forall j :: e + m <= j < k + m ==> t[j] == t'[j - m];
    }
  }

  lemma {:induction false} LaterBefore(t: string, t': string, p: nat, m: nat, b: nat, d: nat)
    requires Spliced(t, t', p, m) && p < d <= |t'| && VisibleBefore(t', d)
    requires 0 < b <= p + m + 1 && !IsSpace(t[b - 1]) && forall k :: b <= k <= p + m ==> t[k] != '\n'
    ensures VisibleBefore(t, d + m)
  {
    hide IsSpace;
    NewlineIsSpace();
    var k :| 0 <= k < d && !IsSpace(t'[k]) && forall j :: k < j < d ==> t'[j] != '\n';
    if k > p {
      assert !IsSpace(t[k + m]) && forall j :: k + m < j < d + m ==> t[j] == t'[j - m];
    } else {
      assert forall j :: p + m < j < d + m ==> t[j] == t'[j - m];
    }
  }

  lemma SlashVisible()
    ensures !IsSpace('/')
  {
  }

  /** Every comment that splits code is still to come. */
  ghost predicate Pending(x: seq<Cell>, spans: seq<Span>) {
    forall d: nat, e: nat :: IsCommentAt(x, d, e) && SplitsCode(TextOf(x), d, e) ==> (d, e) in spans
  }

  lemma {:induction false} RoundPending(sc: Scanner, x: seq<Cell>, spans: seq<Span>, hi: nat) returns (x': seq<Cell>)
    requires Lexed(sc, x) && Ordered(spans, 0, hi) && spans != [] && Pending(x, spans)
    requires forall i :: 0 <= i < |spans| ==> IsCommentAt(x, spans[i].0, spans[i].1)
    ensures Lexed(sc, x') && TextOf(x') == JoinStep(TextOf(x), spans[|spans| - 1].0, spans[|spans| - 1].1)
    ensures Pending(x', spans[..|spans| - 1])
  {
    hide Lex, Next, Lexed, IsCommentAt, SplitsCode, TextOf, JoinedAs, Splits;
    var n := |spans| - 1;
    var (a, b) := spans[n];
    assert forall i :: 0 <= i < n ==> spans[..n][i] == spans[i];
    CommentBounds(x, a, b);
    SplitsIs(TextOf(x), a, b);
    if SplitsCode(TextOf(x), a, b) {
      var p, q;
      x', p, q := JoinedCells(sc, x, a, b);
      forall d: nat, e: nat | IsCommentAt(x', d, e) && SplitsCode(TextOf(x'), d, e)
        ensures (d, e) in spans[..n]
      {
        PendingBack(x, x', spans, a, b, p, q, d, e);
      }
    } else {
      x' := x;
    }
  }

  lemma {:induction false} PendingBack(x: seq<Cell>, x': seq<Cell>, spans: seq<Span>, a: nat, b: nat, p: nat, q: nat, d: nat, e: nat)
    requires spans != [] && spans[|spans| - 1] == (a, b) && Pending(x, spans) && JoinedAs(x, x', a, b, p, q)
    requires Ordered(spans, 0, |x|) && x[a].tag == CommentFirst && IsCommentAt(x', d, e) && SplitsCode(TextOf(x'), d, e)
    ensures (d, e) in spans[..|spans| - 1]
  {
    hide SplitsCode, TextOf, IsBlank, IsSpace;
    assert x'[p] == SPACE;
    if e <= p {
      EarlierSplits(x, x', a, b, p, q, d, e);
      var i :| 0 <= i < |spans| && spans[i] == (d, e);
      assert i < |spans| - 1;
    } else if d > p {
      LaterSplits(x, x', a, b, p, q, d, e);
    }
  }

  lemma {:induction false} LoopPending(sc: Scanner, x: seq<Cell>, spans: seq<Span>, hi: nat) returns (x': seq<Cell>)
    requires Lexed(sc, x) && Ordered(spans, 0, hi) && Pending(x, spans)
    requires forall i :: 0 <= i < |spans| ==> IsCommentAt(x, spans[i].0, spans[i].1)
    ensures Lexed(sc, x') && TextOf(x') == JoinAll(TextOf(x), spans) && Pending(x', [])
    decreases |spans|
  {
    hide Lex, Next, IsCommentAt, JoinStep, Pending, TextOf;
    if spans == [] {
      x' := x;
    } else {
      var n := |spans| - 1;
      var (a, b) := spans[n];
      CommentBounds(x, a, b);
      var y := RoundPending(sc, x, spans, hi);
      var z, _ := JoinStepSafe(sc, x, a, b);
      assert y == z;
      forall i | 0 <= i < n
        ensures IsCommentAt(y, spans[i].0, spans[i].1)
      {
        assert IsCommentAt(x, spans[i].0, spans[i].1);
      }
      x' := LoopPending(sc, y, spans[..n], hi);
    }
  }

  /** No comment of the joined text splits code. */
  lemma {:induction false} NoneSplits(sc: Scanner, text: string)
    requires Spans(sc, text, 0).Some?
    ensures
      var joined := JoinAll(text, Spans(sc, text, 0).value);
      && Spans(sc, joined, 0).Some?
      && forall s :: s in Spans(sc, joined, 0).value ==> !SplitsCode(joined, s.0, s.1)
  {
    hide Lex, Next, Spans, JoinAll, TextOf, SplitsCode;
    SpansAreComments(sc, text, 0);
    LexIsLexed(sc, text);
    var x, spans := Lex(sc, text).value, Spans(sc, text, 0).value;
    ReportParts(x, spans);
    AllPending(x, spans);
    var x' := LoopPending(sc, x, spans, |x|);
    var joined := JoinAll(text, spans);
    SpansAreComments(sc, joined, 0);
    ReportParts(x', Spans(sc, joined, 0).value);
  }

  /** The spans are all the comments. */
  lemma {:induction false} AllPending(x: seq<Cell>, spans: seq<Span>)
    requires Report(x, spans, 0)
    ensures Pending(x, spans)
  {
    hide SplitsCode, TextOf, IsCommentAt;
    forall d: nat, e: nat | IsCommentAt(x, d, e)
      ensures (d, e) in spans
    {
      CommentBounds(x, d, e);
      assert InSpans(spans, 0 + d);
      var i :| 0 <= i < |spans| && spans[i].0 <= d < spans[i].1;
      ReportParts(x, spans);
      OneComment(x, d, e, spans[i].0, spans[i].1);
    }
  }

  lemma {:induction false} OneComment(x: seq<Cell>, d: nat, e: nat, a: nat, b: nat)
    requires IsCommentAt(x, d, e) && IsCommentAt(x, a, b) && a <= d < b
    ensures d == a && e == b
  {
  }
}
