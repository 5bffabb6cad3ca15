/** `strip_spans`, the whole rewriter, as a function of the labelled text. */
module Strip {
  import opened Text
  import opened Lexer
  import opened Scan
  import opened Join
  import opened StripLine

  // ----- the rows of a text -----

  /** What one line becomes: its cells, its carriage return if any, its newline. */
  datatype Row = Row(line: seq<Cell>, ret: seq<Cell>, nl: Cell, dropped: bool) {
    function Cells(): seq<Cell> { line + ret + [nl] }
    predicate Visible() { !AllSpace(TextOf(line)) }
  }

  /** A cell written back as white space if it was inside a comment. */
  function Plain(c: Cell): Cell {
    if c.IsComment() then Cell(c.ch, Void) else c
  }

  predicate Touched(line: seq<Cell>) {
    exists k :: 0 <= k < |line| && line[k].IsComment()
  }

  predicate EndsInReturn(raw: seq<Cell>) {
    raw != [] && raw[|raw| - 1].ch == '\r'
  }

  function LineOf(raw: seq<Cell>): seq<Cell> {
    if EndsInReturn(raw) then raw[..|raw| - 1] else raw
  }

  function RowOf(raw: seq<Cell>, nl: Cell): Row {
    var line := LineOf(raw);
    var ret := if EndsInReturn(raw) then [Plain(raw[|raw| - 1])] else [];
    if Touched(line)
    then Row(Stripped(line), ret, Plain(nl), AllSpace(TextOf(Stripped(line))))
    else Row(line, ret, Plain(nl), false)
  }

  /** The offset of the first newline, or the length. */
  function BreakAt(x: seq<Cell>): (k: nat)
    ensures k <= |x|
    ensures k < |x| ==> x[k].ch == '\n'
    ensures forall i :: 0 <= i < k ==> x[i].ch != '\n'
  {
    if x == [] || x[0].ch == '\n' then 0 else 1 + BreakAt(x[1..])
  }

  const NEWLINE := Cell('\n', Void)

  /** The loop over `text.split("\n")`. */
  function Rows(x: seq<Cell>): (rows: seq<Row>)
    ensures rows != []
    decreases |x|
  {
    var k := BreakAt(x);
    if k == |x| then [RowOf(x, NEWLINE)] else [RowOf(x[..k], x[k])] + Rows(x[k + 1..])
  }

  // ----- dropping lines -----

  /** `ends_with_opener`, for languages whose openers are single characters. */
  predicate EndsWithOpener(lang: Language, line: string) {
    var s := RStrip(line);
    s != "" && match lang
      case Cpp => s[|s| - 1] in "{(["
      case Proto => s[|s| - 1] in "{("
      case _ => false
  }

  /** The first visible character. */
  function FirstVisible(line: string): (r: string)
    ensures |r| <= 1
  {
    if line == "" then "" else if IsSpace(line[0]) then FirstVisible(line[1..]) else [line[0]]
  }

  /** `starts_with_closer`, for languages whose closers are single characters. */
  predicate StartsWithCloser(lang: Language, line: string) {
    var c := FirstVisible(line);
    c != "" && match lang
      case Cpp => c[0] in "})]"
      case Proto => c[0] in "})"
      case _ => false
  }

  /** `while lines and lines[-1] is blank: lines.pop()`. */
  function PopBlank(lines: seq<Row>): (r: seq<Row>)
    ensures r <= lines
    ensures r != [] ==> r[|r| - 1].Visible()
  {
    if lines == [] || lines[|lines| - 1].Visible() then lines else PopBlank(lines[..|lines| - 1])
  }

  /** What one kept row does to the lines gathered so far; `gap` follows dropped rows. */
  datatype Gather = Gather(lines: seq<Row>, gap: bool)

  function Step(lang: Language, g: Gather, row: Row): Gather {
    if row.dropped then Gather(g.lines, true)
    else if !g.gap then Gather(g.lines + [row], false)
    else
      var none := g.lines == [];
      var prev := if none then NoRow else g.lines[|g.lines| - 1];
      if !row.Visible() && (none || !prev.Visible() || EndsWithOpener(lang, TextOf(prev.line))) then
        Gather(g.lines, true)
      else if row.Visible() && !none && !prev.Visible() && StartsWithCloser(lang, TextOf(row.line)) then
        Gather(PopBlank(g.lines) + [row], false)
      else
        Gather(g.lines + [row], false)
  }

  const NoRow := Row([], [], NEWLINE, false)

  function Fold(lang: Language, g: Gather, rows: seq<Row>): Gather
    decreases |rows|
  {
    if rows == [] then g else Fold(lang, Step(lang, g, rows[0]), rows[1..])
  }

  function Survivors(lang: Language, x: seq<Cell>): (r: seq<Row>)
    ensures r != [] ==> r[|r| - 1].Visible()
  {
    PopBlank(Fold(lang, Gather([], false), Rows(x)).lines)
  }

  // ----- the resulting text -----

  /** `line + ("\r" if cr else "")`, joined by newlines. */
  function Body(lines: seq<Row>): string
    requires lines != []
  {
    var l := TextOf(lines[0].line) + (if lines[0].ret != [] then "\r" else "");
    if |lines| == 1 then l else l + "\n" + Body(lines[1..])
  }

  function Rendered(lines: seq<Row>, trailingNewline: bool): string {
    if lines == [] then ""
    else Body(lines) + (if trailingNewline && lines[|lines| - 1].ret != [] then "\r\n" else "\n")
  }

  predicate EndsInNewline(text: string) {
    text != "" && text[|text| - 1] == '\n'
  }

  /** `strip_spans`; `None` is a ScanError. */
  function StripSpans(sc: Scanner, text: string): Option<string> {
    match Spans(sc, text, 0)
    case None => None
    case Some(spans) =>
      var joined := JoinAll(text, spans);
      match Lex(sc, joined)
      case None => None
      case Some(x) => Some(Rendered(Survivors(sc.language, x), EndsInNewline(joined)))
  }
}
