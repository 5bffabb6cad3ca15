/**
  * What it means to rewrite a labelled text without touching its tokens, and the theorem
  * that such a rewriting re-lexes to exactly the labels it was built with.
  */
module Reduction {
  import opened Text
  import opened Lexer
  import opened Stability

  predicate LineBreak(c: char) {
    c == '\n' || c == '\r'
  }

  /** A white-space cell may be written before the first cell of `x`. */
  predicate CanInsert(x: seq<Cell>, c: Cell, hold: bool) {
    && c.tag == Void && IsSpace(c.ch)
    && x != [] && x[0].tag != Rest
    && (hold ==> x[0].tag != CommentRest && !LineBreak(x[0].ch))
  }

  /** The first cell of `x` may be left out. */
  predicate CanDelete(x: seq<Cell>, hold: bool) {
    && x != [] && !x[0].IsSolid()
    && (hold ==> x[0].tag != CommentRest && !LineBreak(x[0].ch))
  }

  /** The first cell of `x` may be kept as the first cell of `y`. */
  predicate CanCopy(x: seq<Cell>, y: seq<Cell>, gap: bool, sep: bool, hold: bool) {
    && x != [] && y != [] && x[0] == y[0]
    && (gap ==> sep || Sep(x[0].ch))
    && (x[0].tag == CommentRest ==> hold)
  }

  /** After writing `c`, whether the last cell written is a comment or the return that ends one. */
  predicate HoldAfter(c: Cell, hold: bool) {
    c.IsComment() || (hold && c.ch == '\r')
  }

  /**
    * `y` is `x` with comments and white space taken out or white space put in between lexemes.
    * `gap`: something was left out since the last cell written. `sep`: that cell is a separator,
    * or none was written. `hold`: that cell ends a kept comment, whose line end must stay.
    */
  ghost predicate Reduces(x: seq<Cell>, y: seq<Cell>, gap: bool, sep: bool, hold: bool)
    decreases |x| + |y|
  {
    || (x == [] && y == [])
    || (y != [] && CanInsert(x, y[0], hold) && Reduces(x, y[1..], gap, true, false))
    || (CanDelete(x, hold) && Reduces(x[1..], y, true, sep, false))
    || (CanCopy(x, y, gap, sep, hold) && Reduces(x[1..], y[1..], false, Sep(x[0].ch), HoldAfter(x[0], hold)))
  }

  /** The token cells of a labelled text. */
  function Solid(x: seq<Cell>): (r: seq<Cell>)
  {
    if x == [] then [] else (if x[0].IsSolid() then [x[0]] else []) + Solid(x[1..])
  }

  ghost predicate NoComments(x: seq<Cell>) {
    forall k :: 0 <= k < |x| ==> !x[k].IsComment()
  }

  ghost predicate Lexed(sc: Scanner, x: seq<Cell>) {
    Lex(sc, TextOf(x)) == Some(x)
  }

  lemma {:induction false} ReducesSolid(x: seq<Cell>, y: seq<Cell>, gap: bool, sep: bool, hold: bool)
    requires Reduces(x, y, gap, sep, hold)
    ensures Solid(y) == Solid(x)
    decreases |x| + |y|
  {
    if x == [] && y == [] {
    } else if y != [] && CanInsert(x, y[0], hold) && Reduces(x, y[1..], gap, true, false) {
      ReducesSolid(x, y[1..], gap, true, false);
    } else if CanDelete(x, hold) && Reduces(x[1..], y, true, sep, false) {
      ReducesSolid(x[1..], y, true, sep, false);
    } else {
      ReducesSolid(x[1..], y[1..], false, Sep(x[0].ch), HoldAfter(x[0], hold));
    }
  }

  // ----- re-lexing -----

  /** The inside of a lexeme that was started is always copied. */
  lemma {:induction false} InsideCopied(x: seq<Cell>, y: seq<Cell>, k: nat, inside: Tag, sep: bool, hold: bool)
    returns (sep': bool, hold': bool)
    requires Reduces(x, y, false, sep, hold)
    requires k <= |x| && forall i :: 0 <= i < k ==> x[i].tag == inside
    requires inside == Rest || (inside == CommentRest && hold)
    ensures k <= |y| && y[..k] == x[..k] && Reduces(x[k..], y[k..], false, sep', hold')
    ensures sep' == if k == 0 then sep else Sep(x[k - 1].ch)
    ensures inside == CommentRest ==> hold'
    ensures k == 0 ==> hold' == hold
  {
    if k == 0 {
      sep', hold' := sep, hold;
    } else {
      assert CanCopy(x, y, false, sep, hold);
      sep', hold' := InsideCopied(x[1..], y[1..], k - 1, inside, Sep(x[0].ch), HoldAfter(x[0], hold));
      assert x[1..][k - 1..] == x[k..] && y[1..][k - 1..] == y[k..];
      assert x[..k] == [x[0]] + x[1..][..k - 1];
      assert y[..k] == [y[0]] + y[1..][..k - 1];
    }
  }

  /** Once something was left out, only a separator may meet the last cell written. */
  lemma {:induction false} GapFollow(x: seq<Cell>, y: seq<Cell>, sep: bool, hold: bool)
    requires Reduces(x, y, true, sep, hold)
    ensures y == [] || Sep(y[0].ch) || sep
    decreases |x| + |y|
  {
    if CanDelete(x, hold) && Reduces(x[1..], y, true, sep, false) {
      GapFollow(x[1..], y, sep, false);
    }
  }

  lemma {:induction false} LexSplits(sc: Scanner, x: seq<Cell>) returns (l: Lexeme)
    requires x != [] && Lexed(sc, x)
    ensures Next(sc, TextOf(x)) == Some(l) && l.size <= |x|
    ensures x[..l.size] == CellsOf(TextOf(x), l)
    ensures 0 < l.size && LexemeShape(TextOf(x), l) && (l.kind == Blank ==> l.size == 1)
    ensures x[0].tag == TagAt(l.kind, true)
    ensures forall i :: 0 < i < l.size ==> x[i].tag == TagAt(l.kind, false)
    ensures Lexed(sc, x[l.size..])
  {
    hide Next;
    var s := TextOf(x);
    l := Next(sc, s).value;
    var rest := Lex(sc, s[l.size..]).value;
    assert x == CellsOf(s, l) + rest;
    assert x[l.size..] == rest;
    assert forall i :: 0 <= i < l.size ==> x[i] == CellsOf(s, l)[i];
    assert TextOf(rest) == s[l.size..];
  }

  lemma {:induction false} LexJoins(sc: Scanner, y: seq<Cell>, l: Lexeme)
    requires y != [] && l.size <= |y| && Next(sc, TextOf(y)) == Some(l)
    requires y[..l.size] == CellsOf(TextOf(y), l)
    requires Lexed(sc, y[l.size..])
    ensures Lexed(sc, y)
  {
    hide Next, LexemeShape;
    var s := TextOf(y);
    assert TextOf(y[l.size..]) == s[l.size..];
    assert y == CellsOf(s, l) + y[l.size..];
  }

  lemma {:induction false} SpaceIsBlank(sc: Scanner, s: string)
    requires s != [] && IsSpace(s[0])
    ensures Next(sc, s) == Some(Lexeme(Blank, 1))
  {
  }

  /** Writing one white-space cell in front of a lexed text. */
  lemma {:induction false} LexPrepend(sc: Scanner, y: seq<Cell>)
    requires y != [] && y[0].tag == Void && IsSpace(y[0].ch) && Lexed(sc, y[1..])
    ensures Lexed(sc, y)
  {
    var l := Lexeme(Blank, 1);
    SpaceIsBlank(sc, TextOf(y));
    var cells := CellsOf(TextOf(y), l);
    assert |cells| == 1 && cells[0] == Cell(TextOf(y)[0], TagAt(Blank, true)) == y[0];
    assert y[..1] == cells;
    LexJoins(sc, y, l);
  }

  /** What a kept token or comment sees after it is enough for it to stay the same lexeme. */
  lemma {:induction false} FollowKept(sc: Scanner, x: seq<Cell>, y: seq<Cell>, l: Lexeme, sep: bool, hold: bool)
    requires x != [] && Lexed(sc, x) && Next(sc, TextOf(x)) == Some(l)
    requires l.size <= |x| && l.size <= |y| && x[..l.size] == y[..l.size]
    requires Lexed(sc, x[l.size..])
    requires Reduces(x[l.size..], y[l.size..], false, sep, hold)
    requires sep == Sep(x[l.size - 1].ch)
    requires l.kind == Comment ==> hold
    ensures Agree(TextOf(x), TextOf(y), l.size)
    ensures l.kind == Token ==> TokenFollow(TextOf(x), TextOf(y), l.size)
    ensures l.kind == Comment ==> CommentFollow(TextOf(x), TextOf(y), l.size)
  {
    hide Next, Lex;
    var m := l.size;
    var x', y' := x[m..], y[m..];
    assert forall t :: 0 <= t < m ==> x[t] == x[..m][t] && y[t] == y[..m][t];
    if l.kind == Token && m < |y| {
      if CanDelete(x', hold) && Reduces(x'[1..], y', true, sep, false) {
        GapFollow(x'[1..], y', sep, false);
      } else if CanCopy(x', y', false, sep, hold)
        && Reduces(x'[1..], y'[1..], false, Sep(x'[0].ch), HoldAfter(x'[0], hold))
      {
        QuoteKept(sc, x', y', Sep(x'[0].ch), HoldAfter(x'[0], hold));
      }
    } else if l.kind == Comment && m < |x| && LineBreak(x'[0].ch) {
      assert CanCopy(x', y', false, sep, hold);
    }
  }

  lemma {:induction false} QuoteKept(sc: Scanner, x: seq<Cell>, y: seq<Cell>, sep: bool, hold: bool)
    requires x != [] && y != [] && x[0] == y[0] && Lexed(sc, x)
    requires Reduces(x[1..], y[1..], false, sep, hold)
    ensures x[0].ch == '\'' ==> |x| > 1 && |y| > 1 && x[1] == y[1]
  {
    hide Next, Lex;
    if x[0].ch == '\'' {
      var l := LexSplits(sc, x);
      assert l.kind == Token && l.size >= 2;
      assert x[1].tag == Rest;
      assert CanCopy(x[1..], y[1..], false, sep, hold);
    }
  }

  /**
    * The re-lexing theorem. `n` counts the cells left of a comment already begun to be deleted.
    */
  lemma {:induction false} ReducesLexed(sc: Scanner, x: seq<Cell>, y: seq<Cell>, n: nat,
                                       gap: bool, sep: bool, hold: bool)
    requires Reduces(x, y, gap, sep, hold)
    requires n <= |x| && Lexed(sc, x[n..]) && (n > 0 ==> !hold)
    requires forall i :: 0 <= i < n ==> x[i].tag == CommentRest
    ensures Lexed(sc, y)
    decreases |x| + |y|
  {
    hide Next, Lex, LexemeShape, Sep;
    if x == [] && y == [] {
      assert x[n..] == [] == y;
    } else if y != [] && CanInsert(x, y[0], hold) && Reduces(x, y[1..], gap, true, false) {
      ReducesLexed(sc, x, y[1..], n, gap, true, false);
      LexPrepend(sc, y);
    } else if CanDelete(x, hold) && Reduces(x[1..], y, true, sep, false) {
      if n > 0 {
        assert x[1..][n - 1..] == x[n..];
        ReducesLexed(sc, x[1..], y, n - 1, true, sep, false);
      } else {
        assert x[0..] == x;
        var l := LexSplits(sc, x);
        assert x[1..][l.size - 1..] == x[l.size..];
        ReducesLexed(sc, x[1..], y, l.size - 1, true, sep, false);
      }
    } else {
      assert CanCopy(x, y, gap, sep, hold);
      assert n == 0;
      assert x[0..] == x;
      KeepsLexeme(sc, x, y, gap, sep, hold);
    }
  }

  lemma {:induction false} KeepsLexeme(sc: Scanner, x: seq<Cell>, y: seq<Cell>, gap: bool, sep: bool, hold: bool)
    requires CanCopy(x, y, gap, sep, hold) && Lexed(sc, x)
    requires Reduces(x[1..], y[1..], false, Sep(x[0].ch), HoldAfter(x[0], hold))
    ensures Lexed(sc, y)
    decreases |x| + |y|, 0
  {
    hide Next, Lex, Lexed, LexemeShape, Reduces, CellsOf, TextOf;
    var l := LexSplits(sc, x);
    var m := l.size;
    assert forall i :: 0 <= i < m ==> x[i] == x[..m][i];
    var sep', hold' := InsideCopied(x[1..], y[1..], m - 1, if l.kind == Comment then CommentRest else Rest, Sep(x[0].ch), HoldAfter(x[0], hold));
    assert x[1..][m - 1..] == x[m..] && y[1..][m - 1..] == y[m..];
    assert x[..m] == [x[0]] + x[1..][..m - 1];
    assert y[..m] == [y[0]] + y[1..][..m - 1];
    assert x[..m] == y[..m];
    assert m > 1 ==> x[1..][m - 2] == x[m - 1];
    assert x[m..][0..] == x[m..];
    ReducesLexed(sc, x[m..], y[m..], 0, false, sep', hold');
    FollowKept(sc, x, y, l, sep', hold');
    LexKept(sc, x, y, l);
  }

  lemma {:induction false} LexKept(sc: Scanner, x: seq<Cell>, y: seq<Cell>, l: Lexeme)
    requires x != [] && l.size <= |x| && l.size <= |y| && x[..l.size] == y[..l.size]
    requires Next(sc, TextOf(x)) == Some(l) && x[..l.size] == CellsOf(TextOf(x), l)
    requires Agree(TextOf(x), TextOf(y), l.size)
    requires l.kind == Token ==> TokenFollow(TextOf(x), TextOf(y), l.size)
    requires l.kind == Comment ==> CommentFollow(TextOf(x), TextOf(y), l.size)
    requires Lexed(sc, y[l.size..])
    ensures Lexed(sc, y)
  {
    hide Next, Lex, LexemeShape;
    NextStable(sc, TextOf(x), TextOf(y), l);
    assert CellsOf(TextOf(y), l) == CellsOf(TextOf(x), l);
    LexJoins(sc, y, l);
  }

  // ----- building reductions -----

  /** Inside `x`, the rest of a comment directly follows a part of it. */
  ghost predicate CommentsWhole(x: seq<Cell>) {
    forall k :: 0 < k < |x| && x[k].tag == CommentRest ==> x[k - 1].IsComment()
  }

  lemma {:induction false} Keeps(x: seq<Cell>, gap: bool, sep: bool, hold: bool)
    requires gap ==> x == [] || sep || Sep(x[0].ch)
    requires x != [] && x[0].tag == CommentRest ==> hold
    requires CommentsWhole(x)
    ensures Reduces(x, x, gap, sep, hold)
    decreases |x|
  {
    if x != [] {
      Keeps(x[1..], false, Sep(x[0].ch), HoldAfter(x[0], hold));
    }
  }

  /** A reduction that works in a stricter state works in an easier one. */
  lemma {:induction false} Weaken(x: seq<Cell>, y: seq<Cell>, gap: bool, sep: bool, hold: bool,
                                  gap2: bool, sep2: bool, hold2: bool)
    requires Reduces(x, y, gap2, sep2, hold2) && (hold2 && !hold ==> CommentsWhole(x))
    requires (gap ==> gap2) && (sep2 ==> sep) && (hold ==> hold2)
    requires hold2 && !hold && x != [] ==> x[0].tag != CommentRest
    ensures Reduces(x, y, gap, sep, hold)
    decreases |x| + |y|
  {
    if x == [] && y == [] {
    } else if y != [] && CanInsert(x, y[0], hold2) && Reduces(x, y[1..], gap2, true, false) {
      Weaken(x, y[1..], gap, true, false, gap2, true, false);
    } else if CanDelete(x, hold2) && Reduces(x[1..], y, true, sep2, false) {
      Weaken(x[1..], y, true, sep, false, true, sep2, false);
    } else {
      assert CanCopy(x, y, gap, sep, hold);
      Weaken(x[1..], y[1..], false, Sep(x[0].ch), HoldAfter(x[0], hold),
             false, Sep(x[0].ch), HoldAfter(x[0], hold2));
    }
  }

  /** Two reductions in a row, the second started from the state the first one ends in. */
  lemma {:induction false} Compose(x1: seq<Cell>, y1: seq<Cell>, x2: seq<Cell>, y2: seq<Cell>,
                                   gap: bool, sep: bool, hold: bool, sep2: bool, hold2: bool)
    requires Reduces(x1, y1, gap, sep, hold) && Reduces(x2, y2, true, sep2, hold2)
    requires sep2 ==> if y1 == [] then sep else Sep(y1[|y1| - 1].ch)
    requires hold2 || (!hold && NoComments(y1))
    requires hold2 ==> CommentsWhole(x2) && (x2 != [] ==> x2[0].tag != CommentRest)
    ensures Reduces(x1 + x2, y1 + y2, gap, sep, hold)
    decreases |x1| + |y1|
  {
    hide Sep;
    if x1 == [] && y1 == [] {
      assert x1 + x2 == x2 && y1 + y2 == y2;
      Weaken(x2, y2, gap, sep, hold, true, sep2, hold2);
    } else {
      var x, y := x1 + x2, y1 + y2;
      assert x1 != [] ==> x[0] == x1[0] && x[1..] == x1[1..] + x2;
      assert y1 != [] ==> y[0] == y1[0] && y[1..] == y1[1..] + y2;
      if y1 != [] && CanInsert(x1, y1[0], hold) && Reduces(x1, y1[1..], gap, true, false) {
        Compose(x1, y1[1..], x2, y2, gap, true, false, sep2, hold2);
        Inserts(x, y, gap, sep, hold);
      } else if CanDelete(x1, hold) && Reduces(x1[1..], y1, true, sep, false) {
        Compose(x1[1..], y1, x2, y2, true, sep, false, sep2, hold2);
        Deletes(x, y, gap, sep, hold);
      } else {
        Compose(x1[1..], y1[1..], x2, y2, false, Sep(x1[0].ch), HoldAfter(x1[0], hold), sep2, hold2);
        Copies(x, y, gap, sep, hold);
      }
    }
  }

  lemma {:induction false} Inserts(x: seq<Cell>, y: seq<Cell>, gap: bool, sep: bool, hold: bool)
    requires y != [] && CanInsert(x, y[0], hold) && Reduces(x, y[1..], gap, true, false)
    ensures Reduces(x, y, gap, sep, hold)
  {
  }

  lemma {:induction false} Deletes(x: seq<Cell>, y: seq<Cell>, gap: bool, sep: bool, hold: bool)
    requires CanDelete(x, hold) && Reduces(x[1..], y, true, sep, false)
    ensures Reduces(x, y, gap, sep, hold)
  {
  }

  lemma {:induction false} Copies(x: seq<Cell>, y: seq<Cell>, gap: bool, sep: bool, hold: bool)
    requires CanCopy(x, y, gap, sep, hold)
    requires Reduces(x[1..], y[1..], false, Sep(x[0].ch), HoldAfter(x[0], hold))
    ensures Reduces(x, y, gap, sep, hold)
  {
  }
}
