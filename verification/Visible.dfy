/** `strip_spans` keeps exactly the visible characters outside the comments, in order. */
module Visible {
  import opened Text
  import opened Lexer
  import opened Reduction
  import opened Placement
  import opened Scan
  import opened Tagged
  import opened Join
  import opened Strip
  import opened StripTheorem
  import opened StripTwice

  /** The characters from `k` on that are not white space and lie in no span. */
  function Outside(text: string, spans: seq<Span>, k: nat): string
    requires k <= |text|
    decreases |text| - k
  {
    if k == |text| then ""
    else (if InSpans(spans, k) || IsSpace(text[k]) then "" else [text[k]]) + Outside(text, spans, k + 1)
  }

  /** The visible characters of some cells. */
  function Shown(x: seq<Cell>): string {
    if x == [] then ""
    else (if x[0].IsComment() || IsSpace(x[0].ch) then "" else [x[0].ch]) + Shown(x[1..])
  }

  /** White space outside tokens and comments. */
  ghost predicate VoidIsSpace(x: seq<Cell>) {
    forall k :: 0 <= k < |x| && x[k].tag == Void ==> IsSpace(x[k].ch)
  }

  lemma {:induction false} LexedVoids(sc: Scanner, s: string)
    requires Lex(sc, s).Some?
    ensures VoidIsSpace(Lex(sc, s).value)
    decreases |s|
  {
    hide Next, IsSpace;
    if s != [] {
      var l := Next(sc, s).value;
      assert l.kind == Blank ==> l.size == 1 && IsSpace(s[0]);
      LexedVoids(sc, s[l.size..]);
    }
  }

  lemma {:induction false} ShownSolid(x: seq<Cell>)
    requires VoidIsSpace(x)
    ensures Shown(x) == Shown(Solid(x))
    decreases |x|
  {
    hide IsSpace;
    if x != [] {
      assert VoidIsSpace(x[1..]) by { assert forall k :: 0 <= k < |x[1..]| ==> x[1..][k] == x[k + 1]; }
      ShownSolid(x[1..]);
      if x[0].IsSolid() {
        assert ([x[0]] + Solid(x[1..]))[1..] == Solid(x[1..]);
      } else {
        assert [] + Solid(x[1..]) == Solid(x[1..]);
        assert "" + Shown(x[1..]) == Shown(x[1..]);
      }
    }
  }

  lemma {:induction false} ShownOutside(x: seq<Cell>, text: string, spans: seq<Span>, k: nat)
    requires |x| == |text| && TextOf(x) == text && k <= |text|
    requires forall i: nat :: i < |x| ==> (x[i].IsComment() <==> InSpans(spans, i))
    ensures Outside(text, spans, k) == Shown(x[k..])
    decreases |text| - k
  {
    hide IsSpace, InSpans;
    if k < |text| {
      ShownOutside(x, text, spans, k + 1);
      assert x[k..][0] == x[k] && x[k..][1..] == x[k + 1..];
    }
  }

  lemma {:induction false} OutsideIsShown(sc: Scanner, text: string)
    requires Lex(sc, text).Some? && Spans(sc, text, 0).Some?
    ensures Outside(text, Spans(sc, text, 0).value, 0) == Shown(Solid(Lex(sc, text).value))
  {
    hide Lex, Spans, InSpans;
    var x, spans := Lex(sc, text).value, Spans(sc, text, 0).value;
    SpansAreComments(sc, text, 0);
    assert forall i: nat :: i < |x| ==> (x[i].IsComment() <==> InSpans(spans, 0 + i));
    ShownOutside(x, text, spans, 0);
    assert x[0..] == x;
    LexedVoids(sc, text);
    ShownSolid(x);
  }

  /**
    * The visible characters of the result are those of the text outside its spans, in order; and
    * the result has no span of its own.
    */
  lemma {:induction false} StripKeepsVisible(sc: Scanner, text: string)
    requires StripSpans(sc, text).Some?
    ensures Spans(sc, text, 0).Some? && Spans(sc, StripSpans(sc, text).value, 0) == Some([])
    ensures Outside(StripSpans(sc, text).value, [], 0) == Outside(text, Spans(sc, text, 0).value, 0)
  {
    hide Lex, Spans, StripSpans, Solid;
    StripPreservesTokens(sc, text);
    var u := StripSpans(sc, text).value;
    CommentFreeSpans(sc, u);
    SpansAreComments(sc, text, 0);
    OutsideIsShown(sc, text);
    OutsideIsShown(sc, u);
  }

  // ----- where every character comes from -----

  /**
    * The result stands in the text, followed by a newline: every character of it is one of the text
    * outside the spans, in order, or white space; all visible ones are there; and neighbours of which
    * neither is a separator were neighbours.
    */
  ghost predicate StandsIn(text: string, spans: seq<Span>, u: string, at: seq<int>) {
    && |at| == |u| && Rising(at)
    && (forall j :: 0 <= j < |u| ==> if at[j] < 0 then IsSpace(u[j]) else at[j] <= |text| && u[j] == (text + "\n")[at[j]])
    && (forall j :: 0 <= j < |u| && 0 <= at[j] < |text| ==> !InSpans(spans, at[j]))
    && (forall k: nat :: k < |text| && !InSpans(spans, k) && !IsSpace(text[k]) ==> k in at)
    && (forall j :: 0 < j < |u| && !Sep(u[j - 1]) && !Sep(u[j]) ==> at[j - 1] >= 0 && at[j] == at[j - 1] + 1)
  }

  lemma {:induction false} PlacesStand(x: seq<Cell>, c: Cell, y: seq<Cell>, at: seq<int>, spans: seq<Span>)
    requires Places(x + [c], y, at) && NoComments(y) && VoidIsSpace(x) && c.ch == '\n'
    requires forall i: nat :: i < |x| ==> (x[i].IsComment() <==> InSpans(spans, i))
    ensures StandsIn(TextOf(x), spans, TextOf(y), at)
  {
    hide IsSpace, Unspaced, InSpans;
    var all, text, u := x + [c], TextOf(x), TextOf(y);
    assert forall k :: 0 <= k < |all| ==> all[k].ch == (text + "\n")[k];
    forall k: nat | k < |text| && !InSpans(spans, k) && !IsSpace(text[k])
      ensures k in at
    {
      assert all[k] == x[k] && x[k].IsSolid();
    }
    forall j | 0 <= j < |u| && 0 <= at[j] < |text|
      ensures !InSpans(spans, at[j])
    {
      assert all[at[j]] == x[at[j]] == y[j];
    }
  }

  /** `strip_spans` glues nothing together: where each character of the result stood in the text. */
  lemma {:induction false} StripPlaces(sc: Scanner, text: string) returns (at: seq<int>)
    requires StripSpans(sc, text).Some?
    ensures Spans(sc, text, 0).Some? && StandsIn(text, Spans(sc, text, 0).value, StripSpans(sc, text).value, at)
  {
    hide Lex, Next, Spans, JoinAll, Rendered, Survivors, NoComments, Report, TextOf, Places, StandsIn, Reduces, Lexed, InSpans;
    SpansAreComments(sc, text, 0);
    LexIsLexed(sc, text);
    var x, spans := Lex(sc, text).value, Spans(sc, text, 0).value;
    assert Ordered(spans, 0, |x|) && forall i :: 0 <= i < |spans| ==> IsCommentAt(x, spans[i].0, spans[i].1) by {
      ReportParts(x, spans);
    }
    var joined, first := JoinAllSafe(sc, x, spans, |x|);
    var c, y := RenderedReduces(sc, joined, EndsInNewline(JoinAll(text, spans)));
    var second := ReducesPlaces(joined + [c], y, true, true, false);
    NewlineIsSpace();
    PlacesSnoc(x, joined, first, c);
    PlacesThrough(x + [c], joined + [c], y, first + [|x|], second);
    at := Through(first + [|x|], second);
    LexedVoids(sc, text);
    assert forall i: nat :: i < |x| ==> (x[i].IsComment() <==> InSpans(spans, 0 + i)) by { ReportCovers(x, spans); }
    PlacesStand(x, c, y, at, spans);
    assert Lex(sc, JoinAll(text, spans)) == Some(joined) by { assert Lexed(sc, joined); LexedIs(sc, joined); }
  }

  lemma LexedIs(sc: Scanner, x: seq<Cell>)
    requires Lexed(sc, x)
    ensures Lex(sc, TextOf(x)) == Some(x)
  {
  }

  lemma ReportCovers(x: seq<Cell>, spans: seq<Span>)
    requires Report(x, spans, 0)
    ensures forall i: nat :: i < |x| ==> (x[i].IsComment() <==> InSpans(spans, 0 + i))
  {
    hide InSpans;
  }
}
