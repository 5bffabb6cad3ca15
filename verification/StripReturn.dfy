/**
  * When stripping twice is stripping once, told from the text before the first pass: `strip_spans`
  * writes the carriage return of its last line twice.
  */
module StripReturn {
  import opened Text
  import opened Lexer
  import opened Scan
  import opened Join
  import opened StripLine
  import opened Strip
  import opened StripTheorem
  import opened StripTwice

  // ----- the last line that shows code -----

  /** A visible character outside the comments. */
  predicate CodeAt(text: string, spans: seq<Span>, k: nat) {
    k < |text| && !IsSpace(text[k]) && !InSpans(spans, k)
  }

  predicate LastCode(text: string, spans: seq<Span>, p: nat) {
    CodeAt(text, spans, p) && forall k: nat :: p < k < |text| ==> !CodeAt(text, spans, k)
  }

  /** The line of `p` ends at `e`. */
  predicate LineEndsAt(text: string, p: nat, e: nat) {
    && p < e <= |text| && (e < |text| ==> text[e] == '\n')
    && forall k :: p <= k < e ==> text[k] != '\n'
  }

  /** The last line that shows code ends in a carriage return. */
  ghost predicate CodeEndsInReturn(text: string, spans: seq<Span>) {
    exists p: nat, e: nat :: LastCode(text, spans, p) && LineEndsAt(text, p, e) && text[e - 1] == '\r'
  }

  // ----- the same on cells -----

  predicate IsCode(c: Cell) {
    !c.IsComment() && !IsSpace(c.ch)
  }

  predicate HasCode(x: seq<Cell>) {
    exists k :: 0 <= k < |x| && IsCode(x[k])
  }

  predicate Shows(x: seq<Cell>) {
    exists k :: 0 <= k < |x| && !IsSpace(x[k].ch)
  }

  predicate LastCodeCell(x: seq<Cell>, p: nat) {
    p < |x| && IsCode(x[p]) && forall k :: p < k < |x| ==> !IsCode(x[k])
  }

  lemma {:induction false} CodeDrops(x: seq<Cell>, n: nat)
    requires n <= |x| && forall k :: 0 <= k < n ==> !IsCode(x[k])
    ensures HasCode(x) <==> HasCode(x[n..])
  {
    hide IsCode;
    assert forall k :: n <= k < |x| ==> x[k] == x[n..][k - n];
  }

  lemma {:induction false} CodeCons(x: seq<Cell>)
    requires x != []
    ensures HasCode(x) <==> IsCode(x[0]) || HasCode(x[1..])
  {
    hide IsCode;
    assert forall k :: 1 <= k < |x| ==> x[k] == x[1..][k - 1];
  }

  lemma {:induction false} ShowsCons(c: Cell, x: seq<Cell>)
    ensures Shows([c] + x) <==> !IsSpace(c.ch) || Shows(x)
  {
    hide IsSpace;
    var y := [c] + x;
    assert y[0] == c && forall k :: 0 <= k < |x| ==> y[k + 1] == x[k];
  }

  /** Cutting the comments out of a line leaves something visible exactly when it has code. */
  lemma {:induction false} CutShows(line: seq<Cell>, before: string)
    ensures Shows(StripFrom(line, before).cells) <==> HasCode(line)
    decreases |line|
  {
    hide IsSpace, Unspaced, Shows, HasCode;
    if line == [] {
      NothingShows();
    } else if !line[0].IsComment() {
      CutShows(line[1..], [line[0].ch]);
      ShowsCons(line[0], StripFrom(line[1..], [line[0].ch]).cells);
      CodeCons(line);
    } else {
      var n := MaskedRun(line);
      var rest := line[n..];
      CodeDrops(line, n);
      BlankIsSpace();
      if rest == [] {
        NothingShows();
      } else if before == [] || IsBlank(before[0]) {
        CodeDrops(rest, BlankRun(rest));
        CutShows(rest[BlankRun(rest)..], before);
      } else if !IsBlank(rest[0].ch) && !Unspaced(before[0]) && !Unspaced(rest[0].ch) {
        CutShows(rest, " ");
        ShowsCons(SPACE, StripFrom(rest, " ").cells);
      } else {
        CutShows(rest, before);
      }
    }
  }

  lemma NothingShows()
    ensures !Shows([]) && !HasCode([])
  {
  }

  lemma BlankIsSpace()
    ensures IsSpace(' ') && forall c :: IsBlank(c) ==> IsSpace(c)
  {
  }

  lemma {:induction false} TrimShows(x: seq<Cell>)
    ensures Shows(TrimEnd(x)) <==> Shows(x)
    decreases |x|
  {
    hide IsSpace;
    if x != [] && IsSpace(x[|x| - 1].ch) {
      var init := x[..|x| - 1];
      TrimShows(init);
      assert forall k :: 0 <= k < |init| ==> init[k] == x[k];
    }
  }

  lemma {:induction false} StrippedShows(line: seq<Cell>)
    ensures Shows(Stripped(line)) <==> HasCode(line)
  {
    hide StripFrom, TrimEnd, Shows, HasCode;
    CutShows(line, "");
    TrimShows(StripFrom(line, "").cells);
  }

  lemma {:induction false} ShowsText(x: seq<Cell>)
    ensures Shows(x) <==> !AllSpace(TextOf(x))
  {
    hide IsSpace;
    assert forall k :: 0 <= k < |x| ==> TextOf(x)[k] == x[k].ch;
  }

  // ----- a row without a carriage return does not end in one -----

  predicate EndsPlain(x: seq<Cell>) {
    x != [] ==> x[|x| - 1].ch != '\r'
  }

  lemma {:induction false} CutEndsPlain(line: seq<Cell>, before: string)
    requires EndsPlain(line) && !StripFrom(line, before).trailing && line != []
    ensures EndsPlain(StripFrom(line, before).cells)
    ensures StripFrom(line, before).cells == [] ==> before == "" || IsBlank(before[0])
    decreases |line|
  {
    hide IsSpace, Unspaced;
    if !line[0].IsComment() {
      if |line| > 1 {
        CutEndsPlain(line[1..], [line[0].ch]);
      }
    } else {
      var rest := line[MaskedRun(line)..];
      if before == [] || IsBlank(before[0]) {
        var more := rest[BlankRun(rest)..];
        if more != [] {
          CutEndsPlain(more, before);
        }
      } else if !IsBlank(rest[0].ch) && !Unspaced(before[0]) && !Unspaced(rest[0].ch) {
        CutEndsPlain(rest, " ");
      } else {
        CutEndsPlain(rest, before);
      }
    }
  }

  lemma {:induction false} TrimEndsPlain(x: seq<Cell>)
    ensures EndsPlain(TrimEnd(x))
    decreases |x|
  {
    ReturnIsSpace();
    hide IsSpace;
    if x != [] && IsSpace(x[|x| - 1].ch) {
      TrimEndsPlain(x[..|x| - 1]);
    }
  }

  lemma ReturnIsSpace()
    ensures IsSpace('\r') && IsSpace('\n')
  {
  }

  lemma {:induction false} StrippedEndsPlain(line: seq<Cell>)
    requires EndsPlain(line)
    ensures EndsPlain(Stripped(line))
  {
    hide StripFrom, TrimEnd;
    if line == [] {
      EmptyCut("");
    } else if StripFrom(line, "").trailing {
      TrimEndsPlain(StripFrom(line, "").cells);
    } else {
      CutEndsPlain(line, "");
    }
  }

  ghost predicate Settled(row: Row) {
    (row.dropped ==> !row.Visible()) && (row.ret == [] ==> EndsPlain(row.line))
  }

  lemma {:induction false} RowSettled(raw: seq<Cell>, nl: Cell)
    ensures Settled(RowOf(raw, nl))
    ensures RowOf(raw, nl).Visible() <==> HasCode(raw)
    ensures RowOf(raw, nl).ret != [] <==> EndsInReturn(raw)
  {
    hide IsSpace, Stripped, TextOf, AllSpace, Shows;
    var line := LineOf(raw);
    ShowsText(line);
    ShowsText(Stripped(line));
    StrippedShows(line);
    if !EndsInReturn(raw) {
      StrippedEndsPlain(line);
    }
    UntouchedShows(line);
    ReturnIsSpace();
    assert HasCode(raw) <==> HasCode(line) by {
      assert forall k :: 0 <= k < |line| ==> line[k] == raw[k];
    }
  }

  lemma {:induction false} UntouchedShows(line: seq<Cell>)
    ensures !Touched(line) ==> (Shows(line) <==> HasCode(line))
  {
    hide IsSpace;
  }

  // ----- the row that is printed last -----

  /** The last row that shows something, or else `prev`. */
  function LastShown(prev: Option<Row>, rows: seq<Row>): Option<Row>
    decreases |rows|
  {
    if rows == [] then prev else LastShown(if rows[0].Visible() then Some(rows[0]) else prev, rows[1..])
  }

  function Tail(lines: seq<Row>): Option<Row> {
    var kept := PopBlank(lines);
    if kept == [] then None else Some(kept[|kept| - 1])
  }

  lemma {:induction false} TailSnoc(lines: seq<Row>, row: Row)
    ensures Tail(lines + [row]) == if row.Visible() then Some(row) else Tail(lines)
  {
    hide TextOf, AllSpace;
    var all := lines + [row];
    assert all[|all| - 1] == row && all[..|all| - 1] == lines;
  }

  ghost predicate AllSettled(rows: seq<Row>) {
    forall k :: 0 <= k < |rows| ==> Settled(rows[k])
  }

  /** Whatever lines are dropped in between, the last one that shows something is printed last. */
  lemma {:induction false} FoldTail(lang: Language, g: Gather, rows: seq<Row>)
    requires AllSettled(rows)
    ensures Tail(Fold(lang, g, rows).lines) == LastShown(Tail(g.lines), rows)
    decreases |rows|
  {
    hide TextOf, AllSpace, EndsWithOpener, StartsWithCloser, PopBlank, Tail;
    if rows != [] {
      var row := rows[0];
      assert Settled(row);
      TailSnoc(g.lines, row);
      TailSnoc(PopBlank(g.lines), row);
      FoldTail(lang, Step(lang, g, row), rows[1..]);
    }
  }

  lemma {:induction false} ShownSettled(prev: Option<Row>, rows: seq<Row>)
    requires AllSettled(rows) && (prev.Some? ==> Settled(prev.value))
    ensures LastShown(prev, rows).Some? ==> Settled(LastShown(prev, rows).value)
    decreases |rows|
  {
    hide Settled;
    if rows != [] {
      ShownSettled(if rows[0].Visible() then Some(rows[0]) else prev, rows[1..]);
    }
  }

  lemma {:induction false} RowsSettled(x: seq<Cell>)
    ensures AllSettled(Rows(x))
    decreases |x|
  {
    hide RowOf, Settled;
    var b := BreakAt(x);
    RowSettled(x, NEWLINE);
    if b < |x| {
      RowSettled(x[..b], x[b]);
      RowsSettled(x[b + 1..]);
    }
  }

  /** One row of a text. */
  lemma {:induction false} ShownStep(x: seq<Cell>, prev: Option<Row>)
    ensures
      var b := BreakAt(x);
      LastShown(prev, Rows(x)) ==
        if b == |x| then if HasCode(x) then Some(RowOf(x, NEWLINE)) else prev
        else LastShown(if HasCode(x[..b]) then Some(RowOf(x[..b], x[b])) else prev, Rows(x[b + 1..]))
  {
    hide RowOf, HasCode, BreakAt, TextOf, AllSpace, LastShown, Settled;
    var b := BreakAt(x);
    if b == |x| {
      RowSettled(x, NEWLINE);
      LastShownOne(prev, RowOf(x, NEWLINE), []);
    } else {
      RowSettled(x[..b], x[b]);
      LastShownOne(prev, RowOf(x[..b], x[b]), Rows(x[b + 1..]));
    }
  }

  lemma {:induction false} LastShownOne(prev: Option<Row>, row: Row, rows: seq<Row>)
    ensures LastShown(prev, [row] + rows) == LastShown(if row.Visible() then Some(row) else prev, rows)
    ensures [row] + [] == [row] && LastShown(prev, []) == prev
    ensures LastShown(prev, [row]) == if row.Visible() then Some(row) else prev
  {
    hide TextOf, AllSpace;
    assert ([row] + rows)[1..] == rows;
    assert [row][1..] == [];
  }

  lemma {:induction false} NoCodeParts(x: seq<Cell>, b: nat)
    requires b < |x|
    ensures !HasCode(x) ==> !HasCode(x[..b]) && !HasCode(x[b + 1..])
  {
    hide IsCode;
    assert forall k :: 0 <= k < b ==> x[..b][k] == x[k];
    var rest := x[b + 1..];
    assert forall k :: 0 <= k < |rest| ==> rest[k] == x[b + 1 + k];
  }

  lemma {:induction false} NoCodeShown(x: seq<Cell>, prev: Option<Row>)
    requires !HasCode(x)
    ensures LastShown(prev, Rows(x)) == prev
    decreases |x|
  {
    hide RowOf, HasCode, LastShown, Rows, TextOf;
    var b := BreakAt(x);
    ShownStep(x, prev);
    if b < |x| {
      NoCodeParts(x, b);
      NoCodeShown(x[b + 1..], prev);
    }
  }

  /** The last row that shows something is that of the last code, and has its carriage return. */
  lemma {:induction false} CodeShown(x: seq<Cell>, prev: Option<Row>, p: nat, e: nat)
    requires LastCodeCell(x, p) && LineEndsAt(TextOf(x), p, e)
    ensures LastShown(prev, Rows(x)).Some?
    ensures 0 < e <= |x| && (LastShown(prev, Rows(x)).value.ret != [] <==> x[e - 1].ch == '\r')
    decreases |x|
  {
    hide RowOf, HasCode, LastShown, Rows, TextOf, LastCodeCell, LineEndsAt;
    var b := BreakAt(x);
    ShownStep(x, prev);
    if p < b {
      CodeHere(x, b, p, e);
      if b < |x| {
        NoCodeShown(x[b + 1..], Some(RowOf(x[..b], x[b])));
      }
    } else {
      CodeLater(x, b, p);
      CodeShifts(x, b, p, e);
      CodeShown(x[b + 1..], if HasCode(x[..b]) then Some(RowOf(x[..b], x[b])) else prev, p - b - 1, e - b - 1);
    }
  }

  /** The last code stands on the first line. */
  lemma {:induction false} CodeHere(x: seq<Cell>, b: nat, p: nat, e: nat)
    requires LastCodeCell(x, p) && LineEndsAt(TextOf(x), p, e) && p < b == BreakAt(x)
    ensures e == b && HasCode(x[..b]) && x[..b][b - 1] == x[b - 1]
    ensures b < |x| ==> !HasCode(x[b + 1..])
    ensures RowOf(x[..b], if b < |x| then x[b] else NEWLINE).ret != [] <==> x[b - 1].ch == '\r'
    ensures b == |x| ==> x[..b] == x
  {
    hide IsCode, RowOf, TextOf;
    CharsOf(x);
    var raw := x[..b];
    assert raw[p] == x[p] && raw[b - 1] == x[b - 1];
    RowSettled(raw, if b < |x| then x[b] else NEWLINE);
    if b < |x| {
      var rest := x[b + 1..];
      assert forall k :: 0 <= k < |rest| ==> rest[k] == x[b + 1 + k];
    }
  }

  lemma {:induction false} CodeLater(x: seq<Cell>, b: nat, p: nat)
    requires LastCodeCell(x, p) && p >= b == BreakAt(x)
    ensures b < p
  {
    hide IsCode;
    if p == b {
      BreakNoCode(x[b]);
    }
  }

  lemma {:induction false} CodeShifts(x: seq<Cell>, b: nat, p: nat, e: nat)
    requires LastCodeCell(x, p) && LineEndsAt(TextOf(x), p, e) && b < p
    ensures LastCodeCell(x[b + 1..], p - b - 1) && LineEndsAt(TextOf(x[b + 1..]), p - b - 1, e - b - 1)
    ensures b + 1 < e <= |x| && x[b + 1..][e - b - 2] == x[e - 1]
  {
    hide IsCode, TextOf;
    var rest := x[b + 1..];
    CharsOf(x);
    CharsOf(rest);
    assert forall k :: 0 <= k < |rest| ==> rest[k] == x[b + 1 + k];
  }

  lemma CharsOf(x: seq<Cell>)
    ensures |TextOf(x)| == |x| && forall k :: 0 <= k < |x| ==> TextOf(x)[k] == x[k].ch
  {
  }

  lemma BreakNoCode(c: Cell)
    requires c.ch == '\n'
    ensures !IsCode(c)
  {
  }

  // ----- the printed text -----

  lemma {:induction false} SurvivorsEnd(lang: Language, x: seq<Cell>)
    ensures
      var lines, shown := Survivors(lang, x), LastShown(None, Rows(x));
      && (lines == [] <==> shown == None)
      && (lines != [] ==> shown == Some(lines[|lines| - 1]) && Settled(shown.value))
  {
    hide Rows, Fold, PopBlank, Settled, TextOf, AllSpace, LastShown;
    RowsSettled(x);
    FoldTail(lang, Gather([], false), Rows(x));
    assert Tail([]) == None by { assert PopBlank([]) == [] by { PopNothing(); } }
    ShownSettled(None, Rows(x));
  }

  lemma PopNothing()
    ensures PopBlank([]) == []
  {
  }

  lemma {:induction false} PrintedReturn(lines: seq<Row>, newline: bool)
    requires lines != [] ==> Settled(lines[|lines| - 1]) && lines[|lines| - 1].Visible()
    ensures EndsInCrLf(Rendered(lines, newline)) <==> lines != [] && lines[|lines| - 1].ret != []
  {
    hide Body, IsSpace;
    if lines != [] {
      var last := lines[|lines| - 1];
      var p := BodyEnds(lines);
      var t := TextOf(last.line);
      assert t != "" && t[|t| - 1] == last.line[|t| - 1].ch;
    }
  }

  /** Every text that has code has a last piece of it, on a line that ends somewhere. */
  lemma {:induction false} FindsLast(x: seq<Cell>) returns (p: nat, e: nat)
    requires HasCode(x)
    ensures LastCodeCell(x, p) && LineEndsAt(TextOf(x), p, e)
  {
    hide IsCode;
    var k :| 0 <= k < |x| && IsCode(x[k]);
    p := LastFrom(x, k);
    e := p + BreakAt(x[p..]);
    CharsOf(x);
    assert x[p].ch != '\n' by { if x[p].ch == '\n' { BreakNoCode(x[p]); } }
    assert forall k :: p <= k < |x| ==> x[k] == x[p..][k - p];
  }

  lemma {:induction false} LastFrom(x: seq<Cell>, k: nat) returns (p: nat)
    requires k < |x| && IsCode(x[k])
    ensures LastCodeCell(x, p)
    decreases |x| - k
  {
    hide IsCode;
    if j :| k < j < |x| && IsCode(x[j]) {
      p := LastFrom(x, j);
    } else {
      p := k;
    }
  }

  lemma {:induction false} OneEnd(text: string, p: nat, d: nat, e: nat)
    requires LineEndsAt(text, p, d) && LineEndsAt(text, p, e)
    ensures d == e
  {
  }

  /** What is printed ends in CR LF exactly when the last line that shows code ended in a return. */
  lemma {:induction false} PrintedEnds(lang: Language, x: seq<Cell>, spans: seq<Span>, newline: bool)
    requires forall k: nat :: k < |x| ==> (x[k].IsComment() <==> InSpans(spans, k))
    ensures EndsInCrLf(Rendered(Survivors(lang, x), newline)) <==> CodeEndsInReturn(TextOf(x), spans)
  {
    hide Survivors, Rendered, Rows, LastShown, InSpans, TextOf, LineEndsAt, IsSpace, Settled;
    var t := TextOf(x);
    CharsOf(x);
    SurvivorsEnd(lang, x);
    PrintedReturn(Survivors(lang, x), newline);
    assert forall k: nat :: CodeAt(t, spans, k) <==> k < |x| && IsCode(x[k]);
    if HasCode(x) {
      var p, e := FindsLast(x);
      CodeShown(x, None, p, e);
      EndPositive(t, p, e);
      assert LastCode(t, spans, p);
      OneReturn(t, spans, p, e);
    } else {
      NoCodeShown(x, None);
    }
  }

  lemma {:induction false} OneReturn(text: string, spans: seq<Span>, p: nat, e: nat)
    requires LastCode(text, spans, p) && LineEndsAt(text, p, e)
    ensures CodeEndsInReturn(text, spans) <==> text[e - 1] == '\r'
  {
    hide InSpans, IsSpace;
    if CodeEndsInReturn(text, spans) {
      var q: nat, d: nat :| LastCode(text, spans, q) && LineEndsAt(text, q, d) && text[d - 1] == '\r';
      assert p == q;
      OneEnd(text, p, d, e);
    }
  }

  lemma EndPositive(text: string, p: nat, e: nat)
    requires LineEndsAt(text, p, e)
    ensures 0 < e <= |text|
  {
  }

  // ----- the theorem -----

  /**
    * Stripping twice is stripping once exactly when, in the text with its split lines joined, the
    * last line that shows code does not end in a carriage return; otherwise the second pass adds one.
    */
  lemma {:induction false} StripIdempotentIff(sc: Scanner, text: string)
    requires StripSpans(sc, text).Some?
    ensures Spans(sc, text, 0).Some?
    ensures
      var u, joined := StripSpans(sc, text).value, JoinAll(text, Spans(sc, text, 0).value);
      var spans := Spans(sc, joined, 0);
      && spans.Some?
      && (StripSpans(sc, u) == Some(u) <==> !CodeEndsInReturn(joined, spans.value))
      && (CodeEndsInReturn(joined, spans.value) ==> EndsInCrLf(u) && StripSpans(sc, u) == Some(u[..|u| - 1] + "\r\n"))
  {
    hide Lex, Spans, Next, Rendered, Survivors, JoinAll, InSpans, CodeEndsInReturn, TextOf;
    var u, joined := StripSpans(sc, text).value, JoinAll(text, Spans(sc, text, 0).value);
    StripAgain(sc, text);
    SpansAreComments(sc, joined, 0);
    var x, spans := Lex(sc, joined).value, Spans(sc, joined, 0).value;
    LexIsLexed(sc, joined);
    assert forall k: nat :: k < |x| ==> (x[k].IsComment() <==> InSpans(spans, 0 + k));
    PrintedEnds(sc.language, x, spans, EndsInNewline(joined));
  }

  lemma {:induction false} JoinAddsNoReturn(text: string, spans: seq<Span>)
    requires '\r' !in text
    ensures '\r' !in JoinAll(text, spans)
    decreases |spans|
  {
    hide Splits;
    if spans != [] {
      JoinAddsNoReturn(JoinStep(text, spans[|spans| - 1].0, spans[|spans| - 1].1), spans[..|spans| - 1]);
    }
  }

  /** In particular, a text without carriage returns is stripped once and for all. */
  lemma {:induction false} StripOnce(sc: Scanner, text: string)
    requires StripSpans(sc, text).Some? && '\r' !in text
    ensures StripSpans(sc, StripSpans(sc, text).value) == StripSpans(sc, text)
  {
    hide Spans, JoinAll, StripSpans, LastCode;
    StripIdempotentIff(sc, text);
    JoinAddsNoReturn(text, Spans(sc, text, 0).value);
  }

  /** One line of SQL that ends in CR LF grows with every pass. */
  lemma {:induction false} StripGrowsCrLf(sc: Scanner)
    requires sc.language == Sql
    ensures StripSpans(sc, ";\r\n") == Some(";\r\r\n") && StripSpans(sc, ";\r\r\n") == Some(";\r\r\r\n")
  {
    hide Lex, Spans, StripSpans, CommentFree;
    var u, v := ";\r\n", ";\r\r\n";
    assert CommentFree(sc, u) by { LexCrLf(sc, u); }
    assert ShowsLast(u, 0);
    StripClean(sc, u);
    assert u[..2] + "\r\n" == v;
    StripPreservesTokens(sc, u);
    assert ShowsLast(v, 0);
    StripClean(sc, v);
    assert v[..3] + "\r\n" == ";\r\r\r\n";
  }
}
