/** Stripping a stripped text: the second pass changes nothing, or adds one carriage return. */
module StripTwice {
  import opened Text
  import opened Lexer
  import opened Reduction
  import opened Scan
  import opened Join
  import opened StripLine
  import opened Strip
  import opened StripTheorem

  /** Empty, or ending in one newline after a line that shows something. */
  ghost predicate Clean(u: string) {
    u == "" || (EndsInNewline(u) && exists k: nat :: ShowsLast(u, k))
  }

  /** The last line of `u` shows the character at `k`. */
  ghost predicate ShowsLast(u: string, k: nat) {
    && k < |u| - 1 && !IsSpace(u[k])
    && forall j :: k <= j < |u| - 1 ==> u[j] != '\n'
  }

  predicate EndsInCrLf(u: string) {
    |u| >= 2 && u[|u| - 1] == '\n' && u[|u| - 2] == '\r'
  }

  // ----- a stripped text is clean -----

  ghost predicate NoBreak(x: seq<Cell>) {
    forall k :: 0 <= k < |x| ==> x[k].ch != '\n'
  }

  ghost predicate NoBreaks(rows: seq<Row>) {
    forall k :: 0 <= k < |rows| ==> NoBreak(rows[k].line)
  }

  lemma {:induction false} StripFromNoBreak(line: seq<Cell>, before: string)
    requires NoBreak(line)
    ensures NoBreak(StripFrom(line, before).cells)
    decreases |line|
  {
    hide IsBlank, Unspaced, IsSpace;
    if line != [] {
      if !line[0].IsComment() {
        StripFromNoBreak(line[1..], [line[0].ch]);
      } else {
        var rest := line[MaskedRun(line)..];
        if rest != [] {
          if before == [] || IsBlank(before[0]) {
            StripFromNoBreak(rest[BlankRun(rest)..], before);
          } else if !IsBlank(rest[0].ch) && !Unspaced(before[0]) && !Unspaced(rest[0].ch) {
            StripFromNoBreak(rest, " ");
          } else {
            StripFromNoBreak(rest, before);
          }
        }
      }
    }
  }

  lemma {:induction false} RowsNoBreak(x: seq<Cell>)
    ensures NoBreaks(Rows(x))
    decreases |x|
  {
    hide StripFrom, TrimEnd, IsSpace;
    var k := BreakAt(x);
    var raw := x[..k];
    assert NoBreak(LineOf(raw));
    StripFromNoBreak(LineOf(raw), "");
    if k == |x| {
      assert raw == x;
    } else {
      RowsNoBreak(x[k + 1..]);
    }
  }

  lemma {:induction false} FoldNoBreak(lang: Language, g: Gather, rows: seq<Row>)
    requires NoBreaks(g.lines) && NoBreaks(rows)
    ensures NoBreaks(Fold(lang, g, rows).lines)
    decreases |rows|
  {
    hide TextOf, AllSpace, EndsWithOpener, StartsWithCloser, NoBreak;
    if rows != [] {
      FoldNoBreak(lang, Step(lang, g, rows[0]), rows[1..]);
    }
  }

  /** The body ends with the text of the last row. */
  lemma {:induction false} BodyEnds(lines: seq<Row>) returns (p: string)
    requires lines != []
    ensures Body(lines) == p + RowText(lines[|lines| - 1])
  {
    hide RowText, TextOf;
    var n := |lines| - 1;
    if n == 0 {
      p := "";
      assert lines == [lines[0]];
      BodyOne(lines[0]);
    } else {
      BodySnoc(lines[..n], lines[n]);
      assert lines[..n] + [lines[n]] == lines;
      p := Body(lines[..n]) + "\n";
    }
  }

  lemma {:induction false} RenderedClean(lines: seq<Row>, newline: bool)
    requires NoBreaks(lines) && (lines != [] ==> lines[|lines| - 1].Visible())
    ensures Clean(Rendered(lines, newline))
  {
    hide IsSpace, Body;
    if lines != [] {
      var u, last := Rendered(lines, newline), lines[|lines| - 1];
      var p := BodyEnds(lines);
      var t := TextOf(last.line);
      var i :| 0 <= i < |t| && !IsSpace(t[i]);
      var k := |p| + i;
      assert u[k] == t[i];
      forall j | k <= j < |u| - 1
        ensures u[j] != '\n'
      {
        if j < |p| + |t| {
          assert u[j] == t[j - |p|] == last.line[j - |p|].ch;
        }
      }
      assert ShowsLast(u, k);
    }
  }

  // ----- stripping a clean text that has no comment -----

  lemma {:induction false} UntouchedRow(raw: seq<Cell>, nl: Cell)
    requires NoComments(raw)
    ensures !RowOf(raw, nl).dropped && RowText(RowOf(raw, nl)) == TextOf(raw)
    ensures RowOf(raw, nl).line == LineOf(raw)
    ensures RowOf(raw, nl).ret != [] <==> EndsInReturn(raw)
  {
    hide Stripped;
    assert !Touched(LineOf(raw));
  }

  ghost predicate NoneDropped(rows: seq<Row>) {
    forall k :: 0 <= k < |rows| ==> !rows[k].dropped
  }

  lemma {:induction false} FoldKeepsAll(lang: Language, lines: seq<Row>, rows: seq<Row>)
    requires NoneDropped(rows)
    ensures Fold(lang, Gather(lines, false), rows) == Gather(lines + rows, false)
    decreases |rows|
  {
    if rows == [] {
      assert lines + rows == lines;
    } else {
      FoldKeepsAll(lang, lines + [rows[0]], rows[1..]);
      assert lines + [rows[0]] + rows[1..] == lines + rows;
    }
  }

  lemma {:induction false} PopBlankCons(row: Row, rows: seq<Row>)
    requires PopBlank(rows) != []
    ensures PopBlank([row] + rows) == [row] + PopBlank(rows)
    decreases |rows|
  {
    hide TextOf, AllSpace;
    var all, n := [row] + rows, |rows| - 1;
    assert all[|all| - 1] == rows[n];
    if !rows[n].Visible() {
      assert all[..|all| - 1] == [row] + rows[..n];
      PopBlankCons(row, rows[..n]);
    }
  }

  /** The rows of a clean text: all its lines, then the empty one that is popped. */
  lemma {:induction false} CleanRows(x: seq<Cell>, k: nat)
    requires NoComments(x) && EndsInNewline(TextOf(x)) && ShowsLast(TextOf(x), k)
    ensures NoneDropped(Rows(x))
    ensures PopBlank(Rows(x)) != [] && Body(PopBlank(Rows(x))) == TextOf(x)[..|x| - 1]
    ensures PopBlank(Rows(x))[|PopBlank(Rows(x))| - 1].ret != [] <==> EndsInCrLf(TextOf(x))
    decreases |x|
  {
    hide IsSpace, RowOf, RowText, Body, PopBlank, Rows, TextOf, ShowsLast, EndsInNewline, EndsInCrLf, NoComments,
         BreakAt;
    var b := BreakAt(x);
    BreakInside(x, b);
    var raw, rest := x[..b], x[b + 1..];
    var row := RowOf(raw, x[b]);
    RowsUnfold(x, b);
    UntouchedRow(raw, x[b]);
    if rest == [] {
      LastRow(x, b, k);
    } else {
      TailClean(x, b, k);
      CleanRows(rest, k - b - 1);
      PopBlankCons(row, Rows(rest));
      CleanCons(x, b, row, PopBlank(Rows(rest)));
    }
  }

  lemma {:induction false} BreakInside(x: seq<Cell>, b: nat)
    requires EndsInNewline(TextOf(x)) && b == BreakAt(x)
    ensures b < |x| && TextOf(x[..b]) == TextOf(x)[..b]
    ensures NoComments(x) ==> NoComments(x[..b])
  {
    assert x[|x| - 1].ch == TextOf(x)[|x| - 1];
  }

  lemma {:induction false} TailClean(x: seq<Cell>, b: nat, k: nat)
    requires NoComments(x) && b == BreakAt(x) && b + 1 < |x| && EndsInNewline(TextOf(x)) && ShowsLast(TextOf(x), k)
    ensures k > b && |x| - b >= 3 && NoComments(x[b + 1..])
    ensures EndsInNewline(TextOf(x[b + 1..])) && ShowsLast(TextOf(x[b + 1..]), k - b - 1)
  {
    hide IsSpace, BreakAt, TextOf;
    var u, rest := TextOf(x), x[b + 1..];
    var v := TextOf(rest);
    assert forall j :: 0 <= j < |rest| ==> rest[j] == x[b + 1 + j];
    assert v == u[b + 1..] && u[b] == '\n';
    TailShows(u, b, k);
  }

  lemma {:induction false} TailShows(u: string, b: nat, k: nat)
    requires b + 1 < |u| && u[b] == '\n' && EndsInNewline(u) && ShowsLast(u, k)
    ensures k > b && |u| - b >= 3 && EndsInNewline(u[b + 1..]) && ShowsLast(u[b + 1..], k - b - 1)
  {
    hide IsSpace;
    var v := u[b + 1..];
    assert forall j :: 0 <= j < |v| ==> v[j] == u[b + 1 + j];
  }

  lemma {:induction false} CleanCons(x: seq<Cell>, b: nat, row: Row, pops: seq<Row>)
    requires b + 1 < |x| && x[b].ch == '\n' && RowText(row) == TextOf(x)[..b]
    requires pops != [] && |x| - b >= 3 && Body(pops) == TextOf(x[b + 1..])[..|x| - b - 2]
    requires pops[|pops| - 1].ret != [] <==> EndsInCrLf(TextOf(x[b + 1..]))
    ensures var all := [row] + pops;
      Body(all) == TextOf(x)[..|x| - 1] && (all[|all| - 1].ret != [] <==> EndsInCrLf(TextOf(x)))
  {
    hide Body, RowText;
    var u, v := TextOf(x), TextOf(x[b + 1..]);
    var all := [row] + pops;
    assert all[1..] == pops && all[|all| - 1] == pops[|pops| - 1];
    BodyCons(all);
    assert v[|v| - 1] == u[|u| - 1] && v[|v| - 2] == u[|u| - 2];
    assert u[..|x| - 1] == u[..b] + "\n" + v[..|x| - b - 2];
  }

  lemma {:induction false} RowsUnfold(x: seq<Cell>, b: nat)
    requires b == BreakAt(x) < |x|
    ensures Rows(x) == [RowOf(x[..b], x[b])] + Rows(x[b + 1..])
  {
    hide RowOf;
  }

  lemma {:induction false} LastRow(x: seq<Cell>, b: nat, k: nat)
    requires NoComments(x) && b == BreakAt(x) && b + 1 == |x| && ShowsLast(TextOf(x), k)
    ensures NoneDropped(Rows(x))
    ensures PopBlank(Rows(x)) == [RowOf(x[..b], x[b])]
    ensures Body(PopBlank(Rows(x))) == TextOf(x)[..b]
    ensures RowOf(x[..b], x[b]).ret != [] <==> EndsInCrLf(TextOf(x))
  {
    hide IsSpace, RowOf, RowText;
    var raw, u := x[..b], TextOf(x);
    var row, none := RowOf(raw, x[b]), RowOf([], NEWLINE);
    RowsUnfold(x, b);
    assert x[b + 1..] == [];
    assert Rows([]) == [none];
    UntouchedRow(raw, x[b]);
    UntouchedRow([], NEWLINE);
    assert TextOf(none.line) == "";
    assert row.Visible() by { VisibleLine(raw, k); }
    var rows := [row] + [none];
    assert rows[|rows| - 1] == none && rows[..|rows| - 1] == [row];
    assert PopBlank([row]) == [row];
    BodyOne(row);
    assert TextOf(raw) == u[..b];
  }

  lemma {:induction false} VisibleLine(raw: seq<Cell>, k: nat)
    requires k < |raw| && !IsSpace(raw[k].ch)
    ensures !AllSpace(TextOf(LineOf(raw)))
  {
    assert IsSpace('\r');
    assert LineOf(raw)[k] == raw[k];
    assert TextOf(LineOf(raw))[k] == raw[k].ch;
  }

  lemma {:induction false} CommentFreeSpans(sc: Scanner, u: string)
    requires CommentFree(sc, u)
    ensures Spans(sc, u, 0) == Some([])
  {
    hide Lex, Spans, Next;
    SpansAreComments(sc, u, 0);
    LexIsLexed(sc, u);
    var spans, x := Spans(sc, u, 0).value, Lex(sc, u).value;
    ReportParts(x, spans);
    if spans != [] {
      CommentInside(x, spans[0].0, spans[0].1);
    }
  }

  lemma {:induction false} CommentInside(x: seq<Cell>, a: nat, b: nat)
    requires IsCommentAt(x, a, b)
    ensures !NoComments(x)
  {
    assert x[a].IsComment();
  }

  lemma {:induction false} SurvivorsAll(lang: Language, x: seq<Cell>)
    requires NoneDropped(Rows(x))
    ensures Survivors(lang, x) == PopBlank(Rows(x))
  {
    hide Rows, PopBlank, NoneDropped;
    FoldKeepsAll(lang, [], Rows(x));
    assert [] + Rows(x) == Rows(x);
  }

  lemma {:induction false} RenderClean(lang: Language, x: seq<Cell>, k: nat)
    requires NoComments(x) && EndsInNewline(TextOf(x)) && ShowsLast(TextOf(x), k)
    ensures
      var u := TextOf(x);
      Rendered(Survivors(lang, x), true) == if EndsInCrLf(u) then u[..|u| - 1] + "\r\n" else u
  {
    hide Rows, PopBlank, Rendered, Body, Survivors, ShowsLast, NoComments, NoneDropped, EndsInCrLf, EndsInNewline;
    CleanRows(x, k);
    SurvivorsAll(lang, x);
    Reprinted(PopBlank(Rows(x)), TextOf(x));
  }

  lemma {:induction false} StripClean(sc: Scanner, u: string)
    requires CommentFree(sc, u) && Clean(u)
    ensures StripSpans(sc, u) == Some(if EndsInCrLf(u) then u[..|u| - 1] + "\r\n" else u)
  {
    hide Lex, Spans, Next, Rendered, Survivors, ShowsLast, NoComments, TextOf;
    CommentFreeSpans(sc, u);
    LexIsLexed(sc, u);
    var x := Lex(sc, u).value;
    assert JoinAll(u, []) == u;
    if u == "" {
      EmptySurvivors(sc.language);
      assert x == [];
      NothingPrinted();
    } else {
      var k: nat :| ShowsLast(u, k);
      RenderClean(sc.language, x, k);
    }
  }

  lemma {:induction false} Reprinted(lines: seq<Row>, u: string)
    requires lines != [] && EndsInNewline(u) && Body(lines) == u[..|u| - 1]
    requires lines[|lines| - 1].ret != [] <==> EndsInCrLf(u)
    ensures Rendered(lines, true) == if EndsInCrLf(u) then u[..|u| - 1] + "\r\n" else u
  {
    hide Body;
    assert u == u[..|u| - 1] + "\n";
  }

  lemma {:induction false} NothingPrinted()
    ensures Rendered([], false) == ""
  {
  }

  lemma {:induction false} EmptySurvivors(lang: Language)
    ensures Survivors(lang, []) == []
  {
    hide IsSpace, EndsWithOpener, StartsWithCloser;
    var none := RowOf([], NEWLINE);
    assert Rows([]) == [none];
    UntouchedRow([], NEWLINE);
    assert none.line == [];
    FoldKeepsAll(lang, [], [none]);
    assert [] + [none] == [none];
    assert !none.Visible() by { assert TextOf([]) == ""; }
    assert [none][..0] == [];
  }

  /** A stripped text is a fixed point of `strip_spans`, or gains a carriage return if it ends in CR LF. */
  lemma {:induction false} StripAgain(sc: Scanner, text: string)
    requires StripSpans(sc, text).Some?
    ensures
      var u := StripSpans(sc, text).value;
      && StripSpans(sc, u) == Some(if EndsInCrLf(u) then u[..|u| - 1] + "\r\n" else u)
      && (StripSpans(sc, u) == Some(u) <==> !EndsInCrLf(u))
  {
    hide Lex, Spans, Next, CommentFree, Rendered, Survivors, JoinAll;
    var u := StripSpans(sc, text).value;
    StripPreservesTokens(sc, text);
    assert Clean(u) by { StrippedClean(sc, text); }
    StripClean(sc, u);
    assert EndsInCrLf(u) ==> |u[..|u| - 1] + "\r\n"| == |u| + 1;
  }

  lemma {:induction false} StrippedClean(sc: Scanner, text: string)
    requires StripSpans(sc, text).Some?
    ensures Clean(StripSpans(sc, text).value)
  {
    hide Lex, Spans, Next, Rows, Fold, PopBlank, JoinAll, Rendered, Clean;
    var joined := JoinAll(text, Spans(sc, text, 0).value);
    var x := Lex(sc, joined).value;
    RowsNoBreak(x);
    FoldNoBreak(sc.language, Gather([], false), Rows(x));
    RenderedClean(Survivors(sc.language, x), EndsInNewline(joined));
  }

  lemma {:induction false} LexCrLf(sc: Scanner, u: string)
    requires sc.language == Sql && u == ";\r\n"
    ensures CommentFree(sc, u)
  {
    var cells := [Cell(';', First), Cell('\r', Void), Cell('\n', Void)];
    assert u[1..] == "\r\n" && u[1..][1..] == "\n" && u[1..][1..][1..] == "";
    assert CellsOf(u, Lexeme(Token, 1)) == [Cell(';', First)];
    assert CellsOf(u[1..], Lexeme(Blank, 1)) == [Cell('\r', Void)];
    assert CellsOf(u[1..][1..], Lexeme(Blank, 1)) == [Cell('\n', Void)];
    assert Lex(sc, u[1..][1..]) == Some([Cell('\n', Void)] + []);
    assert Lex(sc, u[1..]) == Some([Cell('\r', Void)] + ([Cell('\n', Void)] + []));
    assert Lex(sc, u) == Some([Cell(';', First)] + ([Cell('\r', Void)] + ([Cell('\n', Void)] + [])));
  }
}
