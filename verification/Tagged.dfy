/** What the labels of a lexed text look like, one cell and one pair of neighbours at a time. */
module Tagged {
  import opened Text
  import opened Lexer
  import opened Stability
  import opened Reduction

  predicate CellShape(c: Cell) {
    && (c.tag == Void ==> IsSpace(c.ch))
    && (c.tag == First || c.tag == CommentFirst ==> !IsSpace(c.ch))
  }

  predicate PairShape(c: Cell, d: Cell) {
    && (d.tag == Rest ==> c.IsSolid())
    && (d.tag == CommentRest ==> c.IsComment())
    && (c.IsSolid() && IsSpace(c.ch) ==> d.tag == Rest)
    && (c.IsComment() && d.tag != CommentRest ==> c.ch == '/' || LineBreak(d.ch))
  }

  ghost predicate WellTagged(x: seq<Cell>) {
    && (forall k :: 0 <= k < |x| ==> CellShape(x[k]))
    && (forall k :: 0 < k < |x| ==> PairShape(x[k - 1], x[k]))
  }

  /** No lexeme is cut at either end. */
  predicate WholeEnds(x: seq<Cell>) {
    x != [] ==>
      && x[0].tag != Rest && x[0].tag != CommentRest
      && !(x[|x| - 1].IsSolid() && IsSpace(x[|x| - 1].ch))
  }

  lemma {:induction false} LexedTagged(sc: Scanner, x: seq<Cell>)
    requires Lexed(sc, x)
    ensures WellTagged(x) && WholeEnds(x)
    decreases |x|
  {
    hide Next, Lex, Lexed, IsSpace;
    if x != [] {
      var l := LexSplits(sc, x);
      var m := l.size;
      var rest := x[m..];
      LexedTagged(sc, rest);
      var s := TextOf(x);
      forall k | 0 <= k < |x|
        ensures CellShape(x[k])
      {
        assert k >= m ==> x[k] == rest[k - m];
      }
      forall k | 0 < k < |x|
        ensures PairShape(x[k - 1], x[k])
      {
        if k > m {
          assert x[k] == rest[k - m] && x[k - 1] == rest[k - m - 1];
        } else if k == m {
          assert x[k] == rest[0] && s[m - 1] == x[m - 1].ch && s[m] == x[m].ch;
        } else {
          assert x[k].tag == TagAt(l.kind, false);
        }
      }
      assert rest != [] ==> x[|x| - 1] == rest[|rest| - 1];
    }
  }

  lemma {:induction false} WellTaggedSlice(x: seq<Cell>, a: nat, b: nat)
    requires WellTagged(x) && a <= b <= |x|
    ensures WellTagged(x[a..b])
  {
    var y := x[a..b];
    forall k | 0 <= k < |y|
      ensures CellShape(y[k])
    {
      assert y[k] == x[a + k];
    }
    forall k | 0 < k < |y|
      ensures PairShape(y[k - 1], y[k])
    {
      assert y[k] == x[a + k] && y[k - 1] == x[a + k - 1];
    }
  }

  // ----- one more newline at the end of the text -----

  lemma {:induction false} LineEndNewline(s: string, j: nat)
    requires 0 < j <= |s|
    ensures LineEnd(s + "\n", j) ==
      if LineEnd(s, j) < |s| || s[|s| - 1] != '\\' then LineEnd(s, j) else |s| + 1
    decreases |s| - j
  {
    var s' := s + "\n";
    if j < |s| {
      assert s'[j] == s[j] && s'[j - 1] == s[j - 1];
      if !(s[j] == '\n' && s[j - 1] != '\\') {
        LineEndNewline(s, j + 1);
      }
    } else {
      assert s'[j] == '\n' && s'[j - 1] == s[j - 1];
      assert LineEnd(s', j + 1) == |s'|;
    }
  }

  lemma {:induction false} FindNewline(s: string, j: nat)
    requires j <= |s| && FindFrom(s, j, "\n") == None
    ensures FindFrom(s + "\n", j, "\n") == Some(|s|)
    decreases |s| - j
  {
    var s' := s + "\n";
    if j < |s| {
      assert StartsAt(s', j, "\n") == (s'[j + 0] == "\n"[0]);
      assert StartsAt(s, j, "\n") == (s[j + 0] == "\n"[0]);
      FindNewline(s, j + 1);
    } else {
      assert StartsAt(s', |s|, "\n");
    }
  }

  lemma {:induction false} DashNewline(s: string)
    requires |s| >= 2 && s[0] == '-' && s[1] == '-'
    ensures DashEnd(s + "\n") == DashEnd(s)
  {
    var s' := s + "\n";
    match FindFrom(s, 0, "\n")
    case None =>
      FindNewline(s, 0);
      assert s'[|s| - 1] == s[|s| - 1];
    case Some(e) =>
      FindIsFirst(s, 0, "\n");
      assert s[e + 0] == "\n"[0];
      FindStable(s, s', 0, "\n", e);
      assert s'[e - 1] == s[e - 1];
  }

  /** A `//` comment that ends the text with a backslash takes the newline in; nothing else does. */
  predicate TakesNewline(sc: Scanner, s: string, l: Lexeme) {
    sc.language != Sql && l.kind == Comment && l.size == |s| && |s| >= 2 && s[1] == '/' && s[|s| - 1] == '\\'
  }

  lemma {:induction false} CommentNewline(sc: Scanner, s: string, l: Lexeme)
    requires s != [] && Next(sc, s) == Some(l) && l.kind == Comment
    ensures Next(sc, s + "\n") == Some(if TakesNewline(sc, s, l) then Lexeme(Comment, |s| + 1) else l)
  {
    var s' := s + "\n";
    assert s'[0] == s[0] && s'[1] == s[1];
    if s[1] == '*' {
      FindStable(s, s', 2, "*/", FindFrom(s, 2, "*/").value);
    } else if sc.language == Sql {
      DashNewline(s);
    } else {
      LineEndNewline(s, 2);
      var e := LineEnd(s, 2);
      assert s'[e - 1] == s[e - 1];
    }
  }

  lemma {:induction false} NextNewline(sc: Scanner, s: string, l: Lexeme)
    requires s != [] && Next(sc, s) == Some(l)
    requires l.size < |s| && s[l.size] == '\'' ==> l.size + 1 < |s|
    ensures Next(sc, s + "\n") == Some(if TakesNewline(sc, s, l) then Lexeme(Comment, |s| + 1) else l)
  {
    hide Next, IsSpace;
    if l.kind == Comment {
      CommentNewline(sc, s, l);
    } else {
      assert Sep('\n') by { assert IsSpace('\n') by { NewlineIsSpace(); } }
      NextStable(sc, s, s + "\n", l);
    }
  }

  lemma {:induction false} NewlineIsSpace()
    ensures IsSpace('\n') && IsSpace('\r') && IsSpace(' ') && IsSpace('\t')
  {
  }

  /** Appending a newline adds one cell, white space or the end of a comment. */
  lemma {:induction false} LexNewline(sc: Scanner, x: seq<Cell>) returns (c: Cell)
    requires Lexed(sc, x)
    ensures c.ch == '\n' && (c.tag == Void || c.tag == CommentRest)
    ensures Lexed(sc, x + [c])
    decreases |x|
  {
    hide Next, Lex, IsSpace, LexemeShape, CellsOf;
    NewlineIsSpace();
    if x == [] {
      c := Cell('\n', Void);
      assert Lexed(sc, [c][1..]) by { EmptyLexed(sc); }
      LexPrepend(sc, [c]);
      assert x + [c] == [c];
    } else {
      var l := LexSplits(sc, x);
      var m, s := l.size, TextOf(x);
      var rest := x[m..];
      if m < |s| && s[m] == '\'' {
        QuoteIsLong(sc, rest);
      }
      NextNewline(sc, s, l);
      if TakesNewline(sc, s, l) {
        c := Cell('\n', CommentRest);
        TakenNewline(sc, x, l);
      } else {
        c := LexNewline(sc, rest);
        var y := x + [c];
        assert TextOf(y) == s + "\n";
        assert y[..m] == x[..m] && y[m..] == rest + [c];
        assert CellsOf(TextOf(y), l) == CellsOf(s, l) by { SameCells(s, s + "\n", l); }
        LexJoins(sc, y, l);
      }
    }
  }

  lemma {:induction false} EmptyLexed(sc: Scanner)
    ensures Lexed(sc, [])
  {
  }

  lemma {:induction false} SameCells(s: string, s': string, l: Lexeme)
    requires l.size <= |s| && Agree(s, s', l.size)
    ensures CellsOf(s, l) == CellsOf(s', l)
  {
  }

  lemma {:induction false} QuoteIsLong(sc: Scanner, x: seq<Cell>)
    requires x != [] && Lexed(sc, x) && x[0].ch == '\''
    ensures |x| >= 2
  {
    hide Next, Lex;
    var l := LexSplits(sc, x);
  }

  lemma {:induction false} TakenNewline(sc: Scanner, x: seq<Cell>, l: Lexeme)
    requires x != [] && l.kind == Comment && l.size == |x| && x == CellsOf(TextOf(x), l)
    requires Next(sc, TextOf(x) + "\n") == Some(Lexeme(Comment, |x| + 1))
    ensures Lexed(sc, x + [Cell('\n', CommentRest)])
  {
    hide Next, Lex;
    var y, l' := x + [Cell('\n', CommentRest)], Lexeme(Comment, |x| + 1);
    assert TextOf(y) == TextOf(x) + "\n";
    assert y == CellsOf(TextOf(y), l');
    assert y[..l'.size] == y && y[l'.size..] == [];
    EmptyLexed(sc);
    LexJoins(sc, y, l');
  }
}
