/** The theorems about `strip_spans` as a whole. */
module StripTheorem {
  import opened Text
  import opened Lexer
  import opened Reduction
  import opened Scan
  import opened Tagged
  import opened Join
  import opened StripLine
  import opened Strip
  import opened StripProof

  function AllCells(lines: seq<Row>): seq<Cell> {
    if lines == [] then [] else AllCells(lines[..|lines| - 1]) + lines[|lines| - 1].Cells()
  }

  lemma {:induction false} TracksReduces(x: seq<Cell>, lines: seq<Row>)
    requires Tracks(x, lines)
    ensures Reduces(x, AllCells(lines), true, true, false) && NoComments(AllCells(lines))
    ensures lines != [] ==> AllCells(lines) != [] && AllCells(lines)[|AllCells(lines)| - 1].ch == '\n'
    decreases |lines|
  {
    hide Reduces, IsSpace;
    if lines == [] {
      AllRemoved(x, true);
    } else {
      var c :| 0 <= c <= |x| && TracksAt(x, lines, c);
      var last, before := lines[|lines| - 1], lines[..|lines| - 1];
      TracksReduces(x[..c], before);
      NewlineIsSpace();
      Compose(x[..c], AllCells(before), x[c..], last.Cells(), true, true, false, true, false);
      assert x[..c] + x[c..] == x;
    }
  }

  // ----- the second carriage return of the last line -----

  const RETURN := Cell('\r', Void)

  lemma {:induction false} InsertReturn(x: seq<Cell>, y: seq<Cell>, nl: Cell, gap: bool, sep: bool)
    requires Reduces(x, y + [nl], gap, sep, false) && NoComments(y) && nl.tag == Void
    ensures Reduces(x, y + [RETURN] + [nl], gap, sep, false)
    decreases |x| + |y|
  {
    hide IsSpace;
    var y', z := y + [nl], y + [RETURN] + [nl];
    if CanDelete(x, false) && Reduces(x[1..], y', true, sep, false) {
      InsertReturn(x[1..], y, nl, true, sep);
      Deletes(x, z, gap, sep, false);
    } else if y == [] {
      assert y' == [nl] && y'[1..] == [] && z == [RETURN, nl] && z[1..] == [nl];
      NewlineIsSpace();
      if CanInsert(x, nl, false) && Reduces(x, y'[1..], gap, true, false) {
        Inserts(x, [nl], gap, true, false);
      } else {
        Copies(x, [nl], gap, true, false);
      }
      Inserts(x, z, gap, sep, false);
    } else {
      assert y'[0] == y[0] && y'[1..] == y[1..] + [nl] && z[0] == y[0] && z[1..] == y[1..] + [RETURN] + [nl];
      if CanInsert(x, y'[0], false) && Reduces(x, y'[1..], gap, true, false) {
        InsertReturn(x, y[1..], nl, gap, true);
        Inserts(x, z, gap, sep, false);
      } else {
        InsertReturn(x[1..], y[1..], nl, false, Sep(x[0].ch));
        Copies(x, z, gap, sep, false);
      }
    }
  }

  lemma {:induction false} SolidConcat(x: seq<Cell>, y: seq<Cell>)
    ensures Solid(x + y) == Solid(x) + Solid(y)
    decreases |x|
  {
    if x == [] {
      assert x + y == y;
    } else {
      assert (x + y)[0] == x[0] && (x + y)[1..] == x[1..] + y;
      SolidConcat(x[1..], y);
      var h := if x[0].IsSolid() then [x[0]] else [];
      assert h + (Solid(x[1..]) + Solid(y)) == (h + Solid(x[1..])) + Solid(y);
    }
  }

  /** Before token-free cells, the last token cell is visible. */
  lemma {:induction false} LastSolidVisible(g: seq<Cell>)
    requires WellTagged(g) && g != [] && !g[|g| - 1].IsSolid()
    ensures Solid(g) == [] || !IsSpace(Solid(g)[|Solid(g)| - 1].ch)
    decreases |g|
  {
    hide IsSpace;
    var n := |g| - 1;
    var init := g[..n];
    assert g == init + [g[n]];
    SolidConcat(init, [g[n]]);
    assert Solid([g[n]]) == [] by { assert [g[n]][1..] == []; }
    if n > 0 {
      assert PairShape(g[n - 1], g[n]);
      if g[n - 1].IsSolid() {
        assert init == g[..n - 1] + [g[n - 1]];
        SolidConcat(g[..n - 1], [g[n - 1]]);
        assert Solid([g[n - 1]]) == [g[n - 1]] by { assert [g[n - 1]][1..] == []; }
      } else {
        WellTaggedSlice(g, 0, n);
        assert g[0..n] == init;
        LastSolidVisible(init);
      }
    }
  }

  /** The newline of the last kept line is not part of a literal. */
  lemma {:induction false} LastNewlineVoid(g: seq<Cell>, row: Row)
    requires GroupOk(g, row) && WellTagged(g) && !g[|g| - 1].IsSolid()
    ensures row.nl.tag == Void
  {
    hide Reduces, IsSpace, WellTagged;
    NewlineIsSpace();
    ReducesSolid(g, row.Cells(), true, true, false);
    LastSolidVisible(g);
    var body := row.line + row.ret;
    SolidConcat(body, [row.nl]);
    assert row.Cells() == body + [row.nl];
    assert row.nl == row.Cells()[|body|];
    assert [row.nl][1..] == [];
  }

  /** The last row with a second return. */
  function Doubled(row: Row): Row {
    row.(ret := row.ret + [RETURN])
  }

  lemma {:induction false} GroupNonEmpty(g: seq<Cell>, row: Row)
    requires GroupOk(g, row)
    ensures g != []
  {
  }

  lemma {:induction false} GroupDoubles(g: seq<Cell>, row: Row)
    requires GroupOk(g, row) && row.nl.tag == Void
    ensures GroupOk(g, Doubled(row))
  {
    hide Reduces, IsSpace, SolidSpaces, TextOf;
    var y := row.line + row.ret;
    assert row.Cells() == y + [row.nl];
    assert forall k :: 0 <= k < |y| ==> y[k] == row.Cells()[k];
    InsertReturn(g, y, row.nl, true, true);
    assert Doubled(row).Cells() == y + [RETURN] + [row.nl];
  }

  lemma {:induction false} TracksDoubles(x: seq<Cell>, lines: seq<Row>)
    requires Tracks(x, lines) && lines != [] && WellTagged(x) && x != [] && !x[|x| - 1].IsSolid()
    ensures Tracks(x, lines[..|lines| - 1] + [Doubled(lines[|lines| - 1])])
  {
    hide Reduces, IsSpace, WellTagged, SolidSpaces, GroupOk, Doubled, TextOf;
    var last, before := lines[|lines| - 1], lines[..|lines| - 1];
    var c :| 0 <= c <= |x| && TracksAt(x, lines, c);
    var g := x[c..];
    WellTaggedSlice(x, c, |x|);
    assert x[c..|x|] == g;
    assert g != [] by { GroupNonEmpty(g, last); }
    assert g[|g| - 1] == x[|x| - 1];
    LastNewlineVoid(g, last);
    GroupDoubles(g, last);
    var row := Doubled(last);
    var all := before + [row];
    assert all[..|all| - 1] == before;
    assert TracksAt(x, all, c);
  }

  // ----- the text of the rows -----

  /** A carriage return, if present, is one cell that shows as one. */
  predicate ReturnShape(row: Row) {
    |row.ret| <= 1 && (row.ret != [] ==> row.ret[0].ch == '\r')
  }

  ghost predicate ReturnShapes(lines: seq<Row>) {
    forall k :: 0 <= k < |lines| ==> ReturnShape(lines[k])
  }

  lemma {:induction false} RowsShape(x: seq<Cell>)
    ensures ReturnShapes(Rows(x))
    decreases |x|
  {
    hide Stripped;
    var k := BreakAt(x);
    if k < |x| {
      RowsShape(x[k + 1..]);
    }
  }

  lemma {:induction false} FoldShape(lang: Language, g: Gather, rows: seq<Row>)
    requires ReturnShapes(g.lines) && ReturnShapes(rows)
    ensures ReturnShapes(Fold(lang, g, rows).lines)
    decreases |rows|
  {
    if rows != [] {
      FoldShape(lang, Step(lang, g, rows[0]), rows[1..]);
    }
  }

  function RowText(row: Row): string {
    TextOf(row.line) + (if row.ret != [] then "\r" else "")
  }

  lemma {:induction false} BodySnoc(lines: seq<Row>, row: Row)
    requires lines != []
    ensures Body(lines + [row]) == Body(lines) + "\n" + RowText(row)
    decreases |lines|
  {
    hide RowText, TextOf;
    var all := lines + [row];
    assert all[0] == lines[0] && all[1..] == lines[1..] + [row];
    if |lines| == 1 {
      assert all[1..] == [row];
      assert Body([row]) == RowText(row) by { BodyOne(row); }
      assert Body(lines) + ("\n" + RowText(row)) == Body(lines) + "\n" + RowText(row);
    } else {
      BodySnoc(lines[1..], row);
      BodyCons(lines);
      BodyCons(all);
      var h := RowText(lines[0]);
      assert h + "\n" + (Body(lines[1..]) + "\n" + RowText(row)) == (h + "\n" + Body(lines[1..])) + "\n" + RowText(row);
    }
  }

  lemma {:induction false} BodyOne(row: Row)
    ensures Body([row]) == RowText(row)
  {
  }

  lemma {:induction false} BodyCons(lines: seq<Row>)
    requires |lines| > 1
    ensures Body(lines) == RowText(lines[0]) + "\n" + Body(lines[1..])
  {
  }

  lemma {:induction false} TextConcat(x: seq<Cell>, y: seq<Cell>)
    ensures TextOf(x + y) == TextOf(x) + TextOf(y)
  {
  }

  lemma {:induction false} RowCellsText(row: Row)
    requires ReturnShape(row) && row.nl.ch == '\n'
    ensures TextOf(row.Cells()) == RowText(row) + "\n"
  {
  }

  lemma {:induction false} BodyText(x: seq<Cell>, lines: seq<Row>)
    requires Tracks(x, lines) && lines != [] && ReturnShapes(lines)
    ensures TextOf(AllCells(lines)) == Body(lines) + "\n"
    decreases |lines|
  {
    hide Reduces, TextOf, RowText, ReturnShape;
    var n := |lines| - 1;
    var last, before := lines[n], lines[..n];
    var c :| 0 <= c <= |x| && TracksAt(x, lines, c);
    RowCellsText(last);
    if n == 0 {
      assert before == [] && lines == [last];
      assert AllCells(lines) == [] + last.Cells() == last.Cells();
      BodyOne(last);
    } else {
      BodyText(x[..c], before);
      TextConcat(AllCells(before), last.Cells());
      BodySnoc(before, last);
      assert before + [last] == lines;
      assert (Body(before) + "\n") + (RowText(last) + "\n") == Body(before) + "\n" + RowText(last) + "\n";
    }
  }

  /** The cells of the lines up to the last newline. */
  function Stem(lines: seq<Row>): seq<Cell>
    requires lines != []
  {
    AllCells(lines[..|lines| - 1]) + (lines[|lines| - 1].line + lines[|lines| - 1].ret)
  }

  lemma {:induction false} StemIs(lines: seq<Row>)
    requires lines != []
    ensures AllCells(lines) == Stem(lines) + [lines[|lines| - 1].nl]
  {
    hide TextOf;
    var before, last := AllCells(lines[..|lines| - 1]), lines[|lines| - 1];
    var y := last.line + last.ret;
    assert before + (y + [last.nl]) == (before + y) + [last.nl];
  }

  lemma {:induction false} StemDoubled(lines: seq<Row>, last: Row)
    requires lines != [] && last == lines[|lines| - 1]
    ensures Stem(lines[..|lines| - 1] + [Doubled(last)]) == Stem(lines) + [RETURN]
  {
    hide TextOf;
    var n := |lines| - 1;
    var before, y := AllCells(lines[..n]), last.line + last.ret;
    var all := lines[..n] + [Doubled(last)];
    assert all[..n] == lines[..n];
    assert last.line + (last.ret + [RETURN]) == y + [RETURN];
    assert before + (y + [RETURN]) == (before + y) + [RETURN];
  }

  lemma {:induction false} DoubledText(lines: seq<Row>)
    requires lines != [] && lines[|lines| - 1].nl.ch == '\n'
    requires TextOf(AllCells(lines)) == Body(lines) + "\n"
    ensures TextOf(AllCells(lines[..|lines| - 1] + [Doubled(lines[|lines| - 1])])) == Body(lines) + "\r\n"
  {
    hide TextOf, Body, Stem, AllCells;
    var n := |lines| - 1;
    var last := lines[n];
    var all := lines[..n] + [Doubled(last)];
    StemIs(lines);
    StemIs(all);
    StemDoubled(lines, last);
    var stem := Stem(lines);
    TextConcat(stem, [last.nl]);
    TextConcat(stem + [RETURN], [last.nl]);
    TextConcat(stem, [RETURN]);
    assert TextOf([last.nl]) == "\n" && TextOf([RETURN]) == "\r";
    assert TextOf(stem) == Body(lines) by {
      assert (TextOf(stem) + "\n")[..|TextOf(stem)|] == TextOf(stem);
      assert (Body(lines) + "\n")[..|Body(lines)|] == Body(lines);
    }
    assert (TextOf(stem) + "\r") + "\n" == TextOf(stem) + "\r\n";
  }

  // ----- the theorem -----

  /** The tokens of a text, each First cell starting one. */
  function Tokens(sc: Scanner, text: string): Option<seq<Cell>> {
    match Lex(sc, text)
    case None => None
    case Some(x) => Some(Solid(x))
  }

  ghost predicate CommentFree(sc: Scanner, text: string) {
    Lex(sc, text).Some? && NoComments(Lex(sc, text).value)
  }

  /** The lines that survive stand for all the cells of the text. */
  lemma {:induction false} SurvivorsTrack(lang: Language, x: seq<Cell>, c: Cell)
    requires WellTagged(x + [c]) && c.ch == '\n' && Plain(c) == NEWLINE && !c.IsSolid()
    ensures Tracks(x + [c], Survivors(lang, x)) && ReturnShapes(Survivors(lang, x))
  {
    hide Reduces, IsSpace, WellTagged, Tracks, TextOf, Fold, ReturnShape, Rows, Plain;
    var all, g := x + [c], Fold(lang, Gather([], false), Rows(x));
    NothingGathered();
    assert [] + all == all;
    FoldTracks(lang, [], x, c, Gather([], false));
    TracksPops(all, g.lines);
    RowsShape(x);
    FoldShape(lang, Gather([], false), Rows(x));
  }

  /** The rows as they are printed. */
  function Final(lines: seq<Row>, newline: bool): seq<Row> {
    if newline && lines != [] && lines[|lines| - 1].ret != []
    then lines[..|lines| - 1] + [Doubled(lines[|lines| - 1])]
    else lines
  }

  lemma {:induction false} FinalTracks(x: seq<Cell>, lines: seq<Row>, newline: bool)
    requires Tracks(x, lines) && ReturnShapes(lines) && WellTagged(x) && x != [] && !x[|x| - 1].IsSolid()
    ensures Tracks(x, Final(lines, newline))
    ensures TextOf(AllCells(Final(lines, newline))) == Rendered(lines, newline)
  {
    hide Tracks, WellTagged, TextOf, AllCells, Rendered, ReturnShape;
    FinalText(x, lines, newline);
    if Final(lines, newline) != lines {
      TracksDoubles(x, lines);
    }
  }

  /** A text whose cells reduce from a lexed text has its tokens. */
  lemma {:induction false} TokensOf(sc: Scanner, x: seq<Cell>, y: seq<Cell>)
    requires Lexed(sc, x) && Reduces(x, y, true, true, false) && NoComments(y)
    ensures CommentFree(sc, TextOf(y)) && Tokens(sc, TextOf(y)) == Some(Solid(x))
  {
    hide Lex, Next, Reduces, TextOf, NoComments;
    assert x[0..] == x;
    ReducesLexed(sc, x, y, 0, true, true, false);
    ReducesSolid(x, y, true, true, false);
  }

  /** What is printed is the labelled text, and one more newline, with cells taken out and blanks put in. */
  lemma {:induction false} RenderedReduces(sc: Scanner, x: seq<Cell>, newline: bool) returns (c: Cell, y: seq<Cell>)
    requires Lexed(sc, x)
    ensures c.ch == '\n' && !c.IsSolid() && Lexed(sc, x + [c])
    ensures Reduces(x + [c], y, true, true, false) && NoComments(y)
    ensures TextOf(y) == Rendered(Survivors(sc.language, x), newline)
  {
    hide Lex, Next, Lexed, Reduces, WellTagged, Tracks, NoComments, TextOf, Survivors, AllCells, Rendered,
         ReturnShapes, Final;
    var lines := Survivors(sc.language, x);
    c := LexNewline(sc, x);
    var all := x + [c];
    LexedTagged(sc, all);
    SurvivorsTrack(sc.language, x, c);
    assert !all[|all| - 1].IsSolid();
    FinalTracks(all, lines, newline);
    TracksReduces(all, Final(lines, newline));
    y := AllCells(Final(lines, newline));
  }

  /** It has the tokens of the text and no comment. */
  lemma {:induction false} RenderedTokens(sc: Scanner, x: seq<Cell>, newline: bool)
    requires Lexed(sc, x)
    ensures
      var r := Rendered(Survivors(sc.language, x), newline);
      CommentFree(sc, r) && Tokens(sc, r) == Some(Solid(x))
  {
    hide Lex, Next, Lexed, Reduces, NoComments, TextOf, Survivors, Rendered, CommentFree, Tokens;
    var c, y := RenderedReduces(sc, x, newline);
    TokensOf(sc, x + [c], y);
    SolidConcat(x, [c]);
    assert Solid([c]) == [] by { assert [c][1..] == []; }
    assert Solid(x) + [] == Solid(x);
  }

  lemma {:induction false} NothingGathered()
    ensures Gathered([], Gather([], false))
  {
  }

  lemma {:induction false} FinalText(x: seq<Cell>, lines: seq<Row>, newline: bool)
    requires Tracks(x, lines) && ReturnShapes(lines)
    ensures TextOf(AllCells(Final(lines, newline))) == Rendered(lines, newline)
  {
    hide Reduces, TextOf, Body, ReturnShape, Doubled;
    if lines == [] {
      assert AllCells([]) == [];
      TextEmpty();
    } else {
      BodyText(x, lines);
      assert lines[|lines| - 1].nl.ch == '\n';
      if newline && lines[|lines| - 1].ret != [] {
        DoubledText(lines);
      }
    }
  }

  lemma {:induction false} LexIsLexed(sc: Scanner, text: string)
    requires Lex(sc, text).Some?
    ensures Lexed(sc, Lex(sc, text).value) && TextOf(Lex(sc, text).value) == text
  {
    hide Next;
  }

  /**
    * For every text that scans, `strip_spans` answers; its answer scans without a comment, and the
    * tokens of the answer are the tokens of the text, character for character and cut at the same places.
    */
  lemma {:induction false} StripPreservesTokens(sc: Scanner, text: string)
    ensures StripSpans(sc, text).None? <==> Lex(sc, text).None?
    ensures StripSpans(sc, text).Some? ==>
      CommentFree(sc, StripSpans(sc, text).value) && Tokens(sc, StripSpans(sc, text).value) == Tokens(sc, text)
  {
    hide Lex, Next, Spans, JoinAll, Rendered, Survivors, NoComments, Report, TextOf;
    SpansAreComments(sc, text, 0);
    if Lex(sc, text).Some? {
      LexIsLexed(sc, text);
      var x, spans := Lex(sc, text).value, Spans(sc, text, 0).value;
      assert Ordered(spans, 0, |x|) && forall i :: 0 <= i < |spans| ==> IsCommentAt(x, spans[i].0, spans[i].1) by {
        ReportParts(x, spans);
      }
      var y, _ := JoinAllSafe(sc, x, spans, |x|);
      RenderedTokens(sc, y, EndsInNewline(JoinAll(text, spans)));
    }
  }

  lemma {:induction false} ReportParts(x: seq<Cell>, spans: seq<Span>)
    requires Report(x, spans, 0)
    ensures Ordered(spans, 0, |x|) && forall i :: 0 <= i < |spans| ==> IsCommentAt(x, spans[i].0, spans[i].1)
  {
  }
}
