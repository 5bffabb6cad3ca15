/** `strip_spans` as it runs: a mask, a list of kept lines, and the lines that survive. */
module StripMethod {
  import opened Text
  import opened Lexer
  import opened Scan
  import opened Join
  import opened StripLine
  import opened Strip
  import opened StripTheorem

  /** `mask = bytearray(len(text))`, then one bit for every character of every span. */
  method FillMask(spans: seq<Span>, n: nat) returns (mask: array<bool>)
    requires Ordered(spans, 0, n)
    ensures fresh(mask) && mask.Length == n
    ensures forall k: nat :: k < n ==> (mask[k] <==> InSpans(spans, k))
  {
    mask := new bool[n](_ => false);
    for i := 0 to |spans|
      invariant mask.Length == n
      invariant forall k: nat :: k < n ==> (mask[k] <==> InSpans(spans[..i], k))
    {
      for j := spans[i].0 to spans[i].1
        invariant mask.Length == n
        invariant forall k: nat :: k < n ==> (mask[k] <==> InSpans(spans[..i], k) || spans[i].0 <= k < j)
      {
        mask[j] := true;
      }
      forall k: nat | k < n
        ensures mask[k] <==> InSpans(spans[..i + 1], k)
      {
        assert spans[..i + 1] == spans[..i] + [spans[i]];
        InSpansSplit(spans[..i], [spans[i]], k);
        assert InSpans([spans[i]], k) <==> spans[i].0 <= k < spans[i].1 by {
          assert [spans[i]][0] == spans[i];
        }
      }
    }
    assert spans[..|spans|] == spans;
  }

  /** A kept line as the program holds it: text, carriage return, dropped. */
  datatype Kept = Kept(line: string, ret: bool, dropped: bool)

  ghost function Shown(row: Row): Kept {
    Kept(TextOf(row.line), row.ret != [], row.dropped)
  }

  ghost function AllShown(rows: seq<Row>): (r: seq<Kept>)
    ensures |r| == |rows|
    ensures forall k :: 0 <= k < |r| ==> r[k] == Shown(rows[k])
  {
    seq(|rows|, k requires 0 <= k < |rows| => Shown(rows[k]))
  }

  lemma {:induction false} ShownSnoc(rows: seq<Row>, row: Row)
    ensures AllShown(rows + [row]) == AllShown(rows) + [Shown(row)]
  {
  }

  lemma {:induction false} BreakIs(x: seq<Cell>, pos: nat, e: nat)
    requires pos <= e <= |x| && (e < |x| ==> x[e].ch == '\n')
    requires forall k :: pos <= k < e ==> x[k].ch != '\n'
    ensures BreakAt(x[pos..]) == e - pos
    decreases e - pos
  {
    if pos < e {
      assert x[pos..][1..] == x[pos + 1..];
      BreakIs(x, pos + 1, e);
    }
  }

  lemma {:induction false} NewlineAt(text: string, pos: nat, e: nat)
    requires pos <= |text|
    requires e == match FindFrom(text, pos, "\n") case None => |text| case Some(k) => k
    ensures pos <= e <= |text| && (e < |text| ==> text[e] == '\n')
    ensures forall k :: pos <= k < e ==> text[k] != '\n'
  {
    FindIsFirst(text, pos, "\n");
    if FindFrom(text, pos, "\n").Some? {
      assert text[e + 0] == "\n"[0];
    }
    forall k | pos <= k < e
      ensures text[k] != '\n'
    {
      assert !StartsAt(text, k, "\n");
    }
  }

  /** The body of the loop over the lines: what becomes of `text[pos..e]`. */
  method KeepLine(text: string, mask: array<bool>, pos: nat, e: nat, ghost x: seq<Cell>, ghost nl: Cell)
    returns (k: Kept)
    requires mask.Length == |text| == |x| && TextOf(x) == text && pos <= e <= |text|
    requires forall i :: 0 <= i < |x| ==> (mask[i] <==> x[i].IsComment())
    ensures k == Shown(RowOf(x[pos..e], nl))
  {
    hide Stripped;
    var raw := text[pos..e];
    ghost var cells := x[pos..e];
    var cr := raw != "" && raw[|raw| - 1] == '\r';
    var end := if cr then e - 1 else e;
    var line := text[pos..end];
    ghost var body := x[pos..end];
    assert body == LineOf(cells);
    assert TextOf(body) == line;
    var bits := mask[pos..end];
    assert forall i :: 0 <= i < |body| ==> (bits[i] <==> body[i].IsComment());
    var touched := exists i :: 0 <= i < |bits| && bits[i];
    assert touched <==> Touched(body);
    if !touched {
      return Kept(line, cr, false);
    }
    var result := StripTextLine(line, bits, body);
    return Kept(result, cr, AllSpace(result));
  }

  method KeepLines(text: string, mask: array<bool>, ghost x: seq<Cell>) returns (kept: seq<Kept>)
    requires mask.Length == |text| == |x| && TextOf(x) == text
    requires forall i :: 0 <= i < |x| ==> (mask[i] <==> x[i].IsComment())
    ensures kept == AllShown(Rows(x))
  {
    hide RowOf, TextOf, Shown, FindFrom, Rows;
    kept := [];
    ghost var rows: seq<Row> := [];
    var pos := 0;
    assert x[0..] == x && rows + Rows(x) == Rows(x);
    while true
      invariant pos <= |text|
      invariant rows + Rows(x[pos..]) == Rows(x)
      invariant kept == AllShown(rows)
      decreases |text| - pos
    {
      var e := match FindFrom(text, pos, "\n") case None => |text| case Some(k) => k;
      NewlineAt(text, pos, e);
      ghost var nl := if e == |text| then NEWLINE else x[e];
      ghost var row := RowOf(x[pos..e], nl);
      RowsStep(x, pos, e, nl);
      var k := KeepLine(text, mask, pos, e, x, nl);
      kept := kept + [k];
      ShownSnoc(rows, row);
      if e == |text| {
        break;
      }
      RowsAssoc(rows, row, Rows(x[e + 1..]));
      rows := rows + [row];
      pos := e + 1;
    }
  }

  lemma {:induction false} RowsStep(x: seq<Cell>, pos: nat, e: nat, nl: Cell)
    requires pos <= e <= |x| && (e < |x| ==> x[e].ch == '\n' && nl == x[e])
    requires e == |x| ==> nl == NEWLINE
    requires forall k :: pos <= k < e ==> x[k].ch != '\n'
    ensures Rows(x[pos..]) == [RowOf(x[pos..e], nl)] + if e == |x| then [] else Rows(x[e + 1..])
  {
    hide RowOf, BreakAt;
    BreakIs(x, pos, e);
    var rest := x[pos..];
    assert BreakAt(rest) == e - pos;
    assert rest[..e - pos] == x[pos..e];
    if e < |x| {
      assert rest[e - pos] == x[e] && rest[e - pos + 1..] == x[e + 1..];
    } else {
      assert rest == x[pos..e];
    }
  }

  lemma {:induction false} RowsAssoc(rows: seq<Row>, row: Row, more: seq<Row>)
    ensures rows + ([row] + more) == (rows + [row]) + more
  {
  }

  method PopBlankLines(lines: seq<Kept>, ghost rows: seq<Row>) returns (r: seq<Kept>)
    requires lines == AllShown(rows)
    ensures r == AllShown(PopBlank(rows))
  {
    hide TextOf;
    r := lines;
    ghost var left := rows;
    while r != [] && AllSpace(r[|r| - 1].line)
      invariant r == AllShown(left) && PopBlank(left) == PopBlank(rows)
    {
      r := r[..|r| - 1];
      left := left[..|left| - 1];
    }
  }

  method GatherLines(lang: Language, kept: seq<Kept>, ghost rows: seq<Row>) returns (lines: seq<Kept>)
    requires kept == AllShown(rows)
    ensures lines == AllShown(Fold(lang, Gather([], false), rows).lines)
  {
    hide TextOf, EndsWithOpener, StartsWithCloser, AllSpace, PopBlank;
    lines := [];
    var gap := false;
    ghost var g := Gather([], false);
    assert rows[0..] == rows;
    for i := 0 to |kept|
      invariant lines == AllShown(g.lines) && gap == g.gap
      invariant Fold(lang, g, rows[i..]) == Fold(lang, Gather([], false), rows)
    {
      var k := kept[i];
      ghost var row := rows[i];
      assert rows[i..][0] == row && rows[i..][1..] == rows[i + 1..];
      ShownSnoc(g.lines, row);
      if k.dropped {
        gap := true;
      } else if !gap {
        lines := lines + [k];
      } else if AllSpace(k.line)
          && (lines == [] || AllSpace(lines[|lines| - 1].line) || EndsWithOpener(lang, lines[|lines| - 1].line)) {
      } else {
        if !AllSpace(k.line) && lines != [] && AllSpace(lines[|lines| - 1].line) && StartsWithCloser(lang, k.line) {
          lines := PopBlankLines(lines, g.lines);
          ShownSnoc(PopBlank(g.lines), row);
        }
        gap := false;
        lines := lines + [k];
      }
      g := Step(lang, g, row);
    }
    assert rows[|kept|..] == [];
  }

  method PrintLines(lines: seq<Kept>, newline: bool, ghost rows: seq<Row>) returns (r: string)
    requires lines == AllShown(rows)
    ensures r == Rendered(rows, newline)
  {
    hide TextOf;
    if lines == [] {
      return "";
    }
    var body := lines[0].line + (if lines[0].ret then "\r" else "");
    assert rows[..1] == [rows[0]];
    for i := 1 to |lines|
      invariant body == Body(rows[..i])
    {
      assert rows[..i + 1] == rows[..i] + [rows[i]];
      BodySnoc(rows[..i], rows[i]);
      body := body + "\n" + (lines[i].line + (if lines[i].ret then "\r" else ""));
    }
    assert rows[..|lines|] == rows;
    return body + (if newline && lines[|lines| - 1].ret then "\r\n" else "\n");
  }

  /** `strip_spans`; `None` is a ScanError. */
  method StripSpansRun(sc: Scanner, text: string) returns (r: Option<string>)
    ensures r == StripSpans(sc, text)
  {
    hide Spans, Lex, JoinAll, Rendered, Rows, Fold, TextOf, EndsInNewline, Report;
    var joined := JoinSplitSpans(sc, text);
    if joined.None? {
      return None;
    }
    var s := joined.value;
    var spans := SpansFor(sc, s);
    SpansAreComments(sc, s, 0);
    if spans.None? {
      return None;
    }
    ghost var x := Lex(sc, s).value;
    LexIsLexed(sc, s);
    ReportParts(x, spans.value);
    var mask := FillMask(spans.value, |s|);
    assert forall i: nat :: i < |x| ==> (mask[i] <==> x[i].IsComment()) by { ReportMask(x, spans.value); }
    var kept := KeepLines(s, mask, x);
    var lines := GatherLines(sc.language, kept, Rows(x));
    lines := PopBlankLines(lines, Fold(sc.language, Gather([], false), Rows(x)).lines);
    var text' := PrintLines(lines, EndsInNewline(s), Survivors(sc.language, x));
    return Some(text');
  }

  lemma {:induction false} ReportMask(x: seq<Cell>, spans: seq<Span>)
    requires Report(x, spans, 0)
    ensures forall k: nat :: k < |x| ==> (x[k].IsComment() <==> InSpans(spans, k))
  {
    forall k: nat | k < |x|
      ensures x[k].IsComment() <==> InSpans(spans, k)
    {
      assert 0 + k == k;
    }
  }
}
