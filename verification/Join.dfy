/** `join_split_spans`: a comment that splits a line of code is replaced by one space. */
module Join {
  import opened Text
  import opened Lexer
  import opened Reduction
  import opened Placement
  import opened Scan
  import opened Tagged

  /** `text.rfind("\n", 0, a) + 1`. */
  function LineStart(text: string, a: nat): (k: nat)
    requires a <= |text|
    ensures k <= a
  {
    if a == 0 || text[a - 1] == '\n' then a else LineStart(text, a - 1)
  }

  /** Code stands before the comment on its first line and something follows it on its last. */
  predicate Splits(text: string, a: nat, b: nat)
    requires a <= b <= |text|
  {
    && '\n' in text[a..b]
    && !AllSpace(text[LineStart(text, a)..a])
    && !AllSpace(text[b..EndOfLine(text, b)])
  }

  /** One round of the loop; slices clip, as Python's do. */
  function JoinStep(text: string, start: nat, end: nat): string
  {
    var b := if end <= |text| then end else |text|;
    var a := if start <= b then start else b;
    if Splits(text, a, b)
    then text[..BlankFreeLen(text[..a])] + " " + text[b + LeadingBlanks(text[b..])..]
    else text
  }

  /** The loop of `join_split_spans`, from the last span to the first. */
  function JoinAll(text: string, spans: seq<Span>): string
    decreases |spans|
  {
    if spans == [] then text
    else
      var (a, b) := spans[|spans| - 1];
      JoinAll(JoinStep(text, a, b), spans[..|spans| - 1])
  }

  /** The cells that `JoinStep` removes: blanks, the comment, blanks. */
  lemma {:induction false} Removed(x: seq<Cell>, y: seq<Cell>, n: nat, gap: bool, sep: bool, hold: bool)
    requires n <= |x| && forall k :: 0 <= k < n ==> !x[k].IsSolid()
    requires hold && n > 0 ==> x[0].tag != CommentRest && !LineBreak(x[0].ch)
    requires Reduces(x[n..], y, true, sep, if n == 0 then hold else false)
    requires n == 0 ==> gap
    ensures Reduces(x, y, gap, sep, hold)
    decreases n
  {
    if n == 0 {
      assert x[0..] == x;
    } else {
      assert x[1..][n - 1..] == x[n..];
      Removed(x[1..], y, n - 1, true, sep, false);
      Deletes(x, y, gap, sep, hold);
    }
  }

  /** Blanks next to a comment are white space, not part of a lexeme. */
  lemma {:induction false} BlanksBefore(x: seq<Cell>, p: nat, a: nat)
    requires WellTagged(x) && p <= a < |x| && x[a].tag != Rest && x[a].tag != CommentRest && !LineBreak(x[a].ch)
    requires forall k :: p <= k < a ==> IsBlank(x[k].ch)
    ensures forall k :: p <= k < a ==> x[k].tag == Void
    decreases a - p
  {
    if p < a {
      assert PairShape(x[a - 1], x[a]) && CellShape(x[a - 1]);
      BlanksBefore(x, p, a - 1);
    }
  }

  lemma {:induction false} BlanksAfter(x: seq<Cell>, b: nat, q: nat)
    requires WellTagged(x) && 0 < b <= q <= |x| && !x[b - 1].IsSolid()
    requires b < |x| ==> x[b].tag != CommentRest
    requires forall k :: b <= k < q ==> IsBlank(x[k].ch)
    ensures forall k :: b <= k < q ==> x[k].tag == Void
    ensures q < |x| ==> x[q].tag != Rest && x[q].tag != CommentRest
    decreases q - b
  {
    if b < |x| {
      assert PairShape(x[b - 1], x[b]) && CellShape(x[b]);
    }
    if b < q {
      assert b + 1 < |x| ==> PairShape(x[b], x[b + 1]);
      BlanksAfter(x, b + 1, q);
    }
  }

  /** The part of the text from the first removed blank on. */
  lemma {:induction false} JoinedTail(x: seq<Cell>, p: nat, a: nat, b: nat, q: nat)
    requires WellTagged(x) && p <= a && IsCommentAt(x, a, b) && b <= q < |x|
    requires forall k :: p <= k < a ==> IsBlank(x[k].ch)
    requires forall k :: b <= k < q ==> IsBlank(x[k].ch)
    ensures Reduces(x[p..], [Cell(' ', Void)] + x[q..], true, false, true)
    ensures x[p].tag != CommentRest
  {
    hide Reduces, IsSpace, Sep, PairShape, LineBreak;
    var y, x2, x3 := [Cell(' ', Void)] + x[q..], x[p..], x[q..];
    CommentStart(x, a);
    BlanksBefore(x, p, a);
    BlanksAfter(x, b, q);
    NewlineIsSpace();
    assert x3[0] == x[q];
    TailKept(x, q);
    assert y[1..] == x3;
    Inserts(x3, y, true, false, false);
    forall k | 0 <= k < q - p
      ensures !x2[k].IsSolid()
    {
      assert x2[k] == x[p + k];
    }
    assert x2[q - p..] == x3 && x2[0] == x[p];
    BlankNoBreak(x[p].ch);
    Removed(x2, y, q - p, true, false, true);
  }

  lemma {:induction false} BlankNoBreak(c: char)
    ensures IsBlank(c) ==> !LineBreak(c)
  {
  }

  lemma {:induction false} SliceComments(x: seq<Cell>, a: nat, b: nat)
    requires WellTagged(x) && a <= b <= |x|
    ensures CommentsWhole(x[a..b])
  {
    var y := x[a..b];
    forall k | 0 < k < |y| && y[k].tag == CommentRest
      ensures y[k - 1].IsComment()
    {
      assert PairShape(x[a + k - 1], x[a + k]);
    }
  }

  lemma {:induction false} TailKept(x: seq<Cell>, q: nat)
    requires WellTagged(x) && q < |x| && x[q].tag != CommentRest
    ensures Reduces(x[q..], x[q..], true, true, false)
  {
    hide Reduces;
    var y := x[q..];
    SliceComments(x, q, |x|);
    assert x[q..|x|] == y;
    Keeps(y, true, true, false);
  }

  lemma {:induction false} Joined(x: seq<Cell>, p: nat, a: nat, b: nat, q: nat)
    requires WellTagged(x) && WholeEnds(x) && p <= a && IsCommentAt(x, a, b) && b <= q < |x|
    requires forall k :: p <= k < a ==> IsBlank(x[k].ch)
    requires forall k :: b <= k < q ==> IsBlank(x[k].ch)
    ensures Reduces(x, x[..p] + ([Cell(' ', Void)] + x[q..]), true, true, false)
  {
    hide Reduces, IsSpace, Sep, LineBreak, WellTagged, CommentsWhole, IsCommentAt;
    CommentBounds(x, a, b);
    var y, x1, x2 := [Cell(' ', Void)] + x[q..], x[..p], x[p..];
    JoinedTail(x, p, a, b, q);
    SliceComments(x, 0, p);
    SliceComments(x, p, |x|);
    assert x[0..p] == x1 && x[p..|x|] == x2;
    Keeps(x1, true, true, false);
    assert x2[0] == x[p];
    Compose(x1, x1, x2, y, true, true, false, false, true);
    assert x1 + x2 == x;
  }

  lemma {:induction false} CommentStart(x: seq<Cell>, a: nat)
    requires a < |x| && CellShape(x[a]) && x[a].tag == CommentFirst
    ensures !LineBreak(x[a].ch)
  {
  }

  /** Removing one split comment keeps every token and every earlier comment. */
  lemma {:induction false} JoinStepSafe(sc: Scanner, x: seq<Cell>, a: nat, b: nat)
    returns (x': seq<Cell>, at: seq<int>)
    requires Lexed(sc, x) && IsCommentAt(x, a, b)
    ensures Lexed(sc, x') && TextOf(x') == JoinStep(TextOf(x), a, b) && Solid(x') == Solid(x)
    ensures forall d, e :: 0 <= d <= e <= a && IsCommentAt(x, d, e) ==> IsCommentAt(x', d, e)
    ensures Places(x, x', at)
  {
    hide Lex, Next, Lexed, Reduces, IsSpace, IsCommentAt, WellTagged, WholeEnds, TextOf, Places;
    var t := TextOf(x);
    assert a < b <= |x| by { CommentBounds(x, a, b); }
    if Splits(t, a, b) {
      var p, q := BlankFreeLen(t[..a]), b + LeadingBlanks(t[b..]);
      LexedTagged(sc, x);
      SplitEnds(x, a, b);
      assert x[a].tag == CommentFirst by { CommentBounds(x, a, b); }
      Joined(x, p, a, b, q);
      x' := x[..p] + ([Cell(' ', Void)] + x[q..]);
      assert x[0..] == x;
      ReducesLexed(sc, x, x', 0, true, true, false);
      ReducesSolid(x, x', true, true, false);
      at := ReducesPlaces(x, x', true, true, false);
      JoinedText(x, p, q);
      forall d, e | 0 <= d <= e <= a && IsCommentAt(x, d, e)
        ensures IsCommentAt(x', d, e)
      {
        EarlierKept(x, x', d, e, p, a);
      }
    } else {
      x' := x;
      at := PlacesSame(x);
    }
  }

  lemma {:induction false} CommentBounds(x: seq<Cell>, a: nat, b: nat)
    requires IsCommentAt(x, a, b)
    ensures a < b <= |x| && x[a].tag == CommentFirst
  {
  }

  lemma {:induction false} JoinedText(x: seq<Cell>, p: nat, q: nat)
    requires p <= q <= |x|
    ensures TextOf(x[..p] + ([Cell(' ', Void)] + x[q..])) == TextOf(x)[..p] + " " + TextOf(x)[q..]
  {
    var y, s := x[..p] + ([Cell(' ', Void)] + x[q..]), TextOf(x)[..p] + " " + TextOf(x)[q..];
    assert |y| == |s|;
    forall k | 0 <= k < |y|
      ensures y[k].ch == s[k]
    {
      if k > p {
        assert y[k] == x[q..][k - p - 1] && s[k] == TextOf(x)[q..][k - p - 1];
      }
    }
  }

  /** Something visible follows the comment on its line. */
  lemma {:induction false} SplitEnds(x: seq<Cell>, a: nat, b: nat)
    requires a <= b <= |x| && Splits(TextOf(x), a, b)
    ensures b + LeadingBlanks(TextOf(x)[b..]) < |x|
    ensures forall k :: BlankFreeLen(TextOf(x)[..a]) <= k < a ==> IsBlank(x[k].ch)
    ensures forall k :: b <= k < b + LeadingBlanks(TextOf(x)[b..]) ==> IsBlank(x[k].ch)
  {
    var t := TextOf(x);
    var p, n := BlankFreeLen(t[..a]), LeadingBlanks(t[b..]);
    forall k | p <= k < a
      ensures IsBlank(x[k].ch)
    {
      assert t[..a][k] == x[k].ch;
    }
    forall k | b <= k < b + n
      ensures IsBlank(x[k].ch)
    {
      assert t[b..][k - b] == x[k].ch;
    }
    var rest := t[b..EndOfLine(t, b)];
    var i :| 0 <= i < |rest| && !IsSpace(rest[i]);
    assert rest[i] == t[b..][i];
  }

  lemma {:induction false} EarlierKept(x: seq<Cell>, x': seq<Cell>, d: nat, e: nat, p: nat, a: nat)
    requires WellTagged(x) && d <= e <= a < |x| && p <= a && IsCommentAt(x, d, e) && x[a].tag == CommentFirst
    requires p == BlankFreeLen(TextOf(x)[..a])
    requires p < |x'| && x'[..p] == x[..p] && x'[p] == Cell(' ', Void)
    ensures IsCommentAt(x', d, e)
  {
    assert PairShape(x[e - 1], x[e]) && CellShape(x[a]);
    var t := TextOf(x)[..a];
    assert !IsBlank(x[e - 1].ch) || !IsBlank(x[e].ch);
    assert t[e - 1] == x[e - 1].ch && (e < a ==> t[e] == x[e].ch);
    assert e <= p;
    assert forall k :: 0 <= k < p ==> x'[k] == x'[..p][k] && x[k] == x[..p][k];
  }

  /** The whole of `join_split_spans`. */
  lemma {:induction false} JoinAllSafe(sc: Scanner, x: seq<Cell>, spans: seq<Span>, hi: nat)
    returns (x': seq<Cell>, at: seq<int>)
    requires Lexed(sc, x) && Ordered(spans, 0, hi)
    requires forall i :: 0 <= i < |spans| ==> IsCommentAt(x, spans[i].0, spans[i].1)
    ensures Lexed(sc, x') && TextOf(x') == JoinAll(TextOf(x), spans) && Solid(x') == Solid(x)
    ensures Places(x, x', at)
    decreases |spans|
  {
    hide Lex, Next, IsCommentAt, JoinStep, Places;
    if spans == [] {
      x' := x;
      at := PlacesSame(x);
    } else {
      var n := |spans| - 1;
      var (a, b) := spans[n];
      CommentBounds(x, a, b);
      var y, first := JoinStepSafe(sc, x, a, b);
      forall i | 0 <= i < n
        ensures IsCommentAt(y, spans[i].0, spans[i].1)
      {
        assert IsCommentAt(x, spans[i].0, spans[i].1);
      }
      x', at := JoinAllSafe(sc, y, spans[..n], hi);
      PlacesThrough(x, y, x', first, at);
      at := Through(first, at);
    }
  }

  /** The body of the loop of `join_split_spans`. */
  method JoinOne(text: string, start: nat, end: nat) returns (r: string)
    ensures r == JoinStep(text, start, end)
  {
    var b := if end <= |text| then end else |text|;
    var a := if start <= b then start else b;
    if '\n' !in text[a..b] {
      return text;
    }
    var lineStart, lineEnd := LineStart(text, a), EndOfLine(text, b);
    if !AllSpace(text[lineStart..a]) && !AllSpace(text[b..lineEnd]) {
      return text[..BlankFreeLen(text[..a])] + " " + text[b + LeadingBlanks(text[b..])..];
    }
    return text;
  }

  /** `join_split_spans`; `None` is a ScanError of the scanner it calls. */
  method JoinSplitSpans(sc: Scanner, text: string) returns (r: Option<string>)
    ensures r == match Spans(sc, text, 0) case None => None case Some(spans) => Some(JoinAll(text, spans))
  {
    hide Spans, JoinStep;
    var found := SpansFor(sc, text);
    if found.None? {
      return None;
    }
    var spans := found.value;
    var joined, k := text, |spans|;
    assert spans[..k] == spans;
    while k > 0
      invariant 0 <= k <= |spans|
      invariant JoinAll(joined, spans[..k]) == JoinAll(text, spans)
    {
      k := k - 1;
      assert spans[..k + 1][..k] == spans[..k] && spans[..k + 1][k] == spans[k];
      joined := JoinOne(joined, spans[k].0, spans[k].1);
    }
    return Some(joined);
  }
}
