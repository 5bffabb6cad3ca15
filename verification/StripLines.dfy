/**
  * Which lines of a text `strip_spans` keeps, told from the joined text, its spans and its lines:
  * every line of code, no line of comments only, and which blank lines between them.
  */
module StripLines {
  import opened Text
  import opened Lexer
  import opened Scan
  import opened Join
  import opened StripLine
  import opened Strip
  import opened StripTheorem
  import opened StripTwice
  import opened StripReturn

  // ----- lines -----

  /** A line: how it is printed, its text without a carriage return, and what stands on it. */
  datatype Line = Line(printed: string, body: string, commented: bool, code: bool) {
    /** It holds a comment and nothing else: it goes. */
    predicate Gone() { commented && !code }
    predicate Blank() { !commented && !code }
  }

  /** The next newline, or the end of the text. */
  function EndOf(text: string, pos: nat): (e: nat)
    requires pos <= |text|
    ensures pos <= e <= |text| && (e < |text| ==> text[e] == '\n')
    ensures forall k :: pos <= k < e ==> text[k] != '\n'
    decreases |text| - pos
  {
    if pos == |text| || text[pos] == '\n' then pos else EndOf(text, pos + 1)
  }

  predicate SpannedIn(spans: seq<Span>, a: nat, b: nat) {
    exists k: nat :: a <= k < b && InSpans(spans, k)
  }

  predicate CodeIn(text: string, spans: seq<Span>, a: nat, b: nat) {
    exists k: nat :: a <= k < b && CodeAt(text, spans, k)
  }

  /** The line from `a` to `b`; where it holds a comment, what `strip_line` leaves of it is printed. */
  function LineAt(x: seq<Cell>, spans: seq<Span>, a: nat, b: nat): Line
    requires a <= b <= |x|
  {
    var text := TextOf(x);
    var cr := a < b && text[b - 1] == '\r';
    var e := if cr then b - 1 else b;
    var commented := SpannedIn(spans, a, e);
    var body := if commented then TextOf(Stripped(x[a..e])) else text[a..e];
    Line(body + (if cr then "\r" else ""), body, commented, CodeIn(text, spans, a, e))
  }

  /** The lines of a labelled text from an offset on. */
  function LinesFrom(x: seq<Cell>, spans: seq<Span>, pos: nat): seq<Line>
    requires pos <= |x|
    decreases |x| - pos
  {
    var e := EndOf(TextOf(x), pos);
    if e == |x| then [LineAt(x, spans, pos, e)] else [LineAt(x, spans, pos, e)] + LinesFrom(x, spans, e + 1)
  }

  // ----- which of them are kept -----

  /** The last visible character opens a block. */
  predicate Opener(lang: Language, s: string) {
    exists k :: 0 <= k < |s| && Opens(lang, s[k]) && forall j :: k < j < |s| ==> IsSpace(s[j])
  }

  predicate Opens(lang: Language, c: char) {
    match lang
    case Cpp => c == '{' || c == '(' || c == '['
    case Proto => c == '{' || c == '('
    case _ => false
  }

  /** The first visible character closes one. */
  predicate Closer(lang: Language, s: string) {
    exists k :: 0 <= k < |s| && Closes(lang, s[k]) && forall j :: 0 <= j < k ==> IsSpace(s[j])
  }

  predicate Closes(lang: Language, c: char) {
    match lang
    case Cpp => c == '}' || c == ')' || c == ']'
    case Proto => c == '}' || c == ')'
    case _ => false
  }

  function FirstCode(lines: seq<Line>): (n: nat)
    ensures n <= |lines| && (n < |lines| ==> lines[n].code)
    ensures forall k :: 0 <= k < n ==> !lines[k].code
  {
    if lines == [] || lines[0].code then 0 else 1 + FirstCode(lines[1..])
  }

  /** How many lines at the front go. */
  function GoneLen(run: seq<Line>): (n: nat)
    ensures n <= |run| && (n < |run| ==> !run[n].Gone()) && forall k :: 0 <= k < n ==> run[k].Gone()
  {
    if run == [] || !run[0].Gone() then 0 else 1 + GoneLen(run[1..])
  }

  /** How many lines at the front are blank. */
  function BlankLen(run: seq<Line>): (n: nat)
    ensures n <= |run| && (n < |run| ==> !run[n].Blank()) && forall k :: 0 <= k < n ==> run[k].Blank()
  {
    if run == [] || !run[0].Blank() then 0 else 1 + BlankLen(run[1..])
  }

  /**
    * Of the lines between two lines of code, at most the first group of blank lines stays: if it
    * follows the code, or comments stand between and the code opens no block (`open`); and not if
    * comments follow it and the next code closes one (`close`).
    */
  function Between(run: seq<Line>, open: bool, close: bool): seq<Line> {
    var a := GoneLen(run);
    var b := a + BlankLen(run[a..]);
    if (a == 0 || !open) && !(close && b < |run|) then run[a..b] else []
  }

  /** All that is kept behind the line of code `prev`, if there is one; nothing behind the last line of code. */
  function Kept(lang: Language, prev: Option<Line>, lines: seq<Line>): seq<Line>
    decreases |lines|
  {
    var n := FirstCode(lines);
    if n == |lines| then []
    else
      Between(lines[..n], prev.None? || Opener(lang, prev.value.body), Closer(lang, lines[n].body))
      + [lines[n]] + Kept(lang, Some(lines[n]), lines[n + 1..])
  }

  /** The lines as they are printed, and the newline behind them. */
  function Printed(lines: seq<Line>): string
    decreases |lines|
  {
    if lines == [] then "" else lines[0].printed + "\n" + Printed(lines[1..])
  }

  // ----- openers and closers -----

  lemma {:induction false} LastVisible(s: string)
    ensures RStrip(s) <= s && forall j :: |RStrip(s)| <= j < |s| ==> IsSpace(s[j])
    ensures RStrip(s) != "" ==> !IsSpace(RStrip(s)[|RStrip(s)| - 1])
    decreases |s|
  {
    hide IsSpace;
    if s != "" && IsSpace(s[|s| - 1]) {
      LastVisible(s[..|s| - 1]);
    }
  }

  lemma {:induction false} OpenerIs(lang: Language, s: string)
    ensures EndsWithOpener(lang, s) <==> Opener(lang, s)
  {
    hide IsSpace, RStrip;
    var r := RStrip(s);
    LastVisible(s);
    assert r != "" ==> (s[|r| - 1] == r[|r| - 1]);
    if k :| 0 <= k < |s| && Opens(lang, s[k]) && forall j :: k < j < |s| ==> IsSpace(s[j]) {
      OpensVisible(lang, s[k]);
      assert k < |r|;
      assert k == |r| - 1;
    }
  }

  lemma OpensVisible(lang: Language, c: char)
    ensures Opens(lang, c) ==> !IsSpace(c)
    ensures Closes(lang, c) ==> !IsSpace(c)
  {
  }

  lemma {:induction false} FirstVisibleIs(s: string) returns (k: nat)
    ensures k <= |s| && (forall j :: 0 <= j < k ==> IsSpace(s[j])) && (k < |s| ==> !IsSpace(s[k]))
    ensures FirstVisible(s) == if k < |s| then [s[k]] else ""
    decreases |s|
  {
    hide IsSpace;
    if s != "" && IsSpace(s[0]) {
      var m := FirstVisibleIs(s[1..]);
      k := m + 1;
      assert forall j :: 0 < j < |s| ==> s[j] == s[1..][j - 1];
    } else {
      k := 0;
    }
  }

  lemma {:induction false} CloserIs(lang: Language, s: string)
    ensures StartsWithCloser(lang, s) <==> Closer(lang, s)
  {
    hide IsSpace, FirstVisible;
    var k := FirstVisibleIs(s);
    if m :| 0 <= m < |s| && Closes(lang, s[m]) && forall j :: 0 <= j < m ==> IsSpace(s[j]) {
      OpensVisible(lang, s[m]);
      assert m == k;
    }
  }

  // ----- folding over a run of lines without code -----

  lemma {:induction false} FoldConcat(lang: Language, g: Gather, a: seq<Row>, b: seq<Row>)
    ensures Fold(lang, g, a + b) == Fold(lang, Fold(lang, g, a), b)
    decreases |a|
  {
    hide Step;
    if a == [] {
      assert a + b == b;
    } else {
      assert (a + b)[0] == a[0] && (a + b)[1..] == a[1..] + b;
      FoldConcat(lang, Step(lang, g, a[0]), a[1..], b);
    }
  }

  lemma {:induction false} FoldGone(lang: Language, g: Gather, rows: seq<Row>)
    requires forall k :: 0 <= k < |rows| ==> rows[k].dropped
    ensures Fold(lang, g, rows) == Gather(g.lines, g.gap || rows != [])
    decreases |rows|
  {
    hide TextOf, AllSpace, EndsWithOpener, StartsWithCloser;
    if rows != [] {
      FoldGone(lang, Gather(g.lines, true), rows[1..]);
    }
  }

  /** No blank line is kept behind these while a gap is open. */
  predicate Sealed(lang: Language, lines: seq<Row>) {
    lines == [] || !lines[|lines| - 1].Visible() || EndsWithOpener(lang, TextOf(lines[|lines| - 1].line))
  }

  lemma {:induction false} FoldSkip(lang: Language, lines: seq<Row>, rows: seq<Row>)
    requires Sealed(lang, lines) && forall k :: 0 <= k < |rows| ==> !rows[k].Visible()
    ensures Fold(lang, Gather(lines, true), rows) == Gather(lines, true)
    decreases |rows|
  {
    hide TextOf, AllSpace, EndsWithOpener, StartsWithCloser;
    if rows != [] {
      FoldSkip(lang, lines, rows[1..]);
    }
  }

  /** What a run of lines without code leaves: its first group of blank lines, or nothing. */
  ghost function Group(lang: Language, lines: seq<Row>, run: seq<Row>, a: nat, b: nat): (g: seq<Row>)
    requires a <= b <= |run|
    ensures (forall k :: 0 <= k < |run| ==> !run[k].Visible()) ==> forall k :: 0 <= k < |g| ==> !g[k].Visible()
  {
    hide TextOf, AllSpace, EndsWithOpener;
    assert forall k :: 0 <= k < b - a ==> run[a..b][k] == run[a + k];
    if a == 0 || !Sealed(lang, lines) then run[a..b] else []
  }

  lemma {:induction false} FoldRun(lang: Language, lines: seq<Row>, run: seq<Row>, a: nat, b: nat)
    requires lines == [] || lines[|lines| - 1].Visible()
    requires a <= b <= |run| && (forall k :: 0 <= k < |run| ==> !run[k].Visible())
    requires (forall k :: 0 <= k < a ==> run[k].dropped) && (forall k :: a <= k < b ==> !run[k].dropped)
    requires b < |run| ==> a < b && run[b].dropped
    ensures
      var g := Fold(lang, Gather(lines, false), run);
      var stays := a == 0 || !Sealed(lang, lines);
      && g.lines == lines + Group(lang, lines, run, a, b)
      && (stays && a < b ==> (g.gap <==> b < |run|))
  {
    hide Fold, TextOf, AllSpace, EndsWithOpener, StartsWithCloser, Sealed;
    var one, two, three := run[..a], run[a..b], run[b..];
    FoldGone(lang, Gather(lines, false), one);
    FoldThree(lang, Gather(lines, false), run, a, b);
    assert forall k :: 0 <= k < |two| ==> two[k] == run[a + k];
    assert forall k :: 0 <= k < |three| ==> three[k] == run[b + k];
    if a == 0 || !Sealed(lang, lines) {
      FoldGroup(lang, lines, two, a > 0);
      if a < b {
        assert (lines + two)[|lines + two| - 1] == two[|two| - 1];
        FoldRest(lang, lines + two, three);
      } else {
        assert three == [] && lines + two == lines;
        FoldNothing(lang, Gather(lines, a > 0));
      }
    } else {
      FoldSkip(lang, lines, two);
      FoldSkip(lang, lines, three);
      assert lines + [] == lines;
    }
  }

  lemma FoldNothing(lang: Language, g: Gather)
    ensures Fold(lang, g, []) == g
  {
  }

  lemma {:induction false} FoldThree(lang: Language, g: Gather, run: seq<Row>, a: nat, b: nat)
    requires a <= b <= |run|
    ensures Fold(lang, g, run) == Fold(lang, Fold(lang, Fold(lang, g, run[..a]), run[a..b]), run[b..])
  {
    hide Fold;
    assert run == run[..a] + (run[a..b] + run[b..]);
    FoldConcat(lang, g, run[..a], run[a..b] + run[b..]);
    FoldConcat(lang, Fold(lang, g, run[..a]), run[a..b], run[b..]);
  }

  /** A group of blank lines that stays. */
  lemma {:induction false} FoldGroup(lang: Language, lines: seq<Row>, rows: seq<Row>, gap: bool)
    requires (forall k :: 0 <= k < |rows| ==> !rows[k].Visible() && !rows[k].dropped) && (gap ==> !Sealed(lang, lines))
    ensures Fold(lang, Gather(lines, gap), rows) == Gather(lines + rows, gap && rows == [])
  {
    hide TextOf, AllSpace, EndsWithOpener, StartsWithCloser;
    if rows == [] {
      assert lines + rows == lines;
    } else {
      var more := rows[1..];
      assert Step(lang, Gather(lines, gap), rows[0]) == Gather(lines + [rows[0]], false);
      FoldKeepsAll(lang, lines + [rows[0]], more);
      assert lines + [rows[0]] + more == lines + rows;
    }
  }

  /** Behind a group of blank lines nothing more is kept. */
  lemma {:induction false} FoldRest(lang: Language, lines: seq<Row>, rows: seq<Row>)
    requires lines != [] && !lines[|lines| - 1].Visible() && (forall k :: 0 <= k < |rows| ==> !rows[k].Visible())
    requires rows != [] ==> rows[0].dropped
    ensures Fold(lang, Gather(lines, false), rows) == Gather(lines, rows != [])
  {
    hide TextOf, AllSpace, EndsWithOpener, StartsWithCloser;
    if rows != [] {
      assert Step(lang, Gather(lines, false), rows[0]) == Gather(lines, true);
      FoldSkip(lang, lines, rows[1..]);
    }
  }

  lemma {:induction false} PopGroup(lines: seq<Row>, group: seq<Row>)
    requires (lines == [] || lines[|lines| - 1].Visible()) && forall k :: 0 <= k < |group| ==> !group[k].Visible()
    ensures PopBlank(lines + group) == lines
    decreases |group|
  {
    hide TextOf, AllSpace;
    if group == [] {
      assert lines + group == lines;
    } else {
      var all, n := lines + group, |group| - 1;
      assert all[|all| - 1] == group[n] && all[..|all| - 1] == lines + group[..n];
      PopGroup(lines, group[..n]);
    }
  }

  /** A line of code behind a run: the blank lines before it go if comments followed them and it closes a block. */
  lemma {:induction false} CodeRow(lang: Language, lines: seq<Row>, group: seq<Row>, gap: bool, row: Row)
    requires lines == [] || lines[|lines| - 1].Visible()
    requires row.Visible() && !row.dropped && forall k :: 0 <= k < |group| ==> !group[k].Visible()
    ensures
      var goes := gap && group != [] && StartsWithCloser(lang, TextOf(row.line));
      Step(lang, Gather(lines + group, gap), row) == Gather(lines + (if goes then [] else group) + [row], false)
  {
    hide TextOf, AllSpace, EndsWithOpener, StartsWithCloser, PopBlank;
    PopGroup(lines, group);
    var all := lines + group;
    assert group != [] ==> all[|all| - 1] == group[|group| - 1];
    assert group == [] ==> all == lines;
    assert lines + [] == lines;
  }

  // ----- rows and lines -----

  ghost predicate Like(row: Row, line: Line) {
    && RowText(row) == line.printed && TextOf(row.line) == line.body
    && (row.Visible() <==> line.code) && (row.dropped <==> line.Gone())
  }

  ghost predicate AllLike(rows: seq<Row>, lines: seq<Line>) {
    |rows| == |lines| && forall k :: 0 <= k < |rows| ==> Like(rows[k], lines[k])
  }

  /** What is kept of the rows is what is kept of the lines. */
  lemma {:induction false} FoldKept(lang: Language, done: seq<Row>, prev: Option<Line>, rows: seq<Row>, lines: seq<Line>)
    requires AllLike(rows, lines) && (prev.None? <==> done == [])
    requires prev.Some? ==> done[|done| - 1].Visible() && TextOf(done[|done| - 1].line) == prev.value.body
    ensures
      var g := PopBlank(Fold(lang, Gather(done, false), rows).lines);
      |done| <= |g| && g[..|done|] == done && AllLike(g[|done|..], Kept(lang, prev, lines))
    decreases |rows|
  {
    hide TextOf, AllSpace, Like, Fold, PopBlank, Opener, Closer, Between;
    var n := FirstCode(lines);
    if n == |lines| {
      NoCodeLeft(lang, done, rows, lines);
    } else {
      var row, line := rows[n], lines[n];
      var between := RunThenCode(lang, done, prev, rows, lines, n);
      var done' := done + between + [row];
      assert Like(row, line);
      LikeBody(row, line);
      LikeFacts(row, line);
      var more, ls := rows[n + 1..], lines[n + 1..];
      assert AllLike(more, ls) by { LikeTail(rows, lines, n + 1); }
      assert done'[|done'| - 1] == row;
      FoldKept(lang, done', Some(line), more, ls);
      KeptLike(PopBlank(Fold(lang, Gather(done', false), more).lines), done, between, row,
        Between(lines[..n], prev.None? || Opener(lang, prev.value.body), Closer(lang, line.body)), line,
        Kept(lang, Some(line), ls));
    }
  }

  lemma {:induction false} LikeTail(rows: seq<Row>, lines: seq<Line>, n: nat)
    requires AllLike(rows, lines) && n <= |rows|
    ensures AllLike(rows[n..], lines[n..]) && AllLike(rows[..n], lines[..n])
  {
    hide Like;
  }

  lemma {:induction false} NoCodeLeft(lang: Language, done: seq<Row>, rows: seq<Row>, lines: seq<Line>)
    requires AllLike(rows, lines) && FirstCode(lines) == |lines| && (done != [] ==> done[|done| - 1].Visible())
    ensures PopBlank(Fold(lang, Gather(done, false), rows).lines) == done
  {
    hide TextOf, AllSpace, EndsWithOpener, Like, Fold, PopBlank, FirstCode, GoneLen, BlankLen, Group, Sealed;
    var n := |lines|;
    assert lines[..n] == lines && rows[..n] == rows;
    var a := GoneLen(lines);
    var b := a + BlankLen(lines[a..]);
    RunShape(rows, lines, n, a, b);
    FoldRun(lang, done, rows, a, b);
    PopGroup(done, Group(lang, done, rows, a, b));
  }

  /** A run of lines without code, and the line of code behind it. */
  lemma {:induction false} RunThenCode(lang: Language, done: seq<Row>, prev: Option<Line>, rows: seq<Row>, lines: seq<Line>, n: nat)
    returns (between: seq<Row>)
    requires AllLike(rows, lines) && n == FirstCode(lines) < |lines| && (prev.None? <==> done == [])
    requires prev.Some? ==> done[|done| - 1].Visible() && TextOf(done[|done| - 1].line) == prev.value.body
    ensures Fold(lang, Gather(done, false), rows) == Fold(lang, Gather(done + between + [rows[n]], false), rows[n + 1..])
    ensures AllLike(between,
      Between(lines[..n], prev.None? || Opener(lang, prev.value.body), Closer(lang, lines[n].body)))
  {
    hide TextOf, AllSpace, EndsWithOpener, StartsWithCloser, Like, Fold, Opener, Closer, FirstCode, GoneLen, BlankLen,
         Between, Sealed;
    var run, ls, row, more := rows[..n], lines[..n], rows[n], rows[n + 1..];
    var a := GoneLen(ls);
    var b := a + BlankLen(ls[a..]);
    RunShape(rows, lines, n, a, b);
    FoldRun(lang, done, run, a, b);
    var g := Fold(lang, Gather(done, false), run);
    var group := Group(lang, done, run, a, b);
    assert rows == run + ([row] + more);
    FoldConcat(lang, Gather(done, false), run, [row] + more);
    FoldCons(lang, g, row, more);
    CodeRow(lang, done, group, g.gap, row);
    LikeBody(row, lines[n]) by { assert Like(rows[n], lines[n]); }
    OpenIs(lang, done, prev);
    CloserIs(lang, lines[n].body);
    LikeTail(rows, lines, n);
    BetweenLike(run, ls, a, b, Sealed(lang, done), Closer(lang, lines[n].body));
    between := BetweenRows(run, a, b, Sealed(lang, done), Closer(lang, lines[n].body));
  }

  lemma LikeBody(row: Row, line: Line)
    requires Like(row, line)
    ensures TextOf(row.line) == line.body
  {
    hide AllSpace;
  }

  lemma FoldCons(lang: Language, g: Gather, row: Row, more: seq<Row>)
    ensures Fold(lang, g, [row] + more) == Fold(lang, Step(lang, g, row), more)
  {
    hide Step;
    assert ([row] + more)[1..] == more;
  }

  lemma {:induction false} OpenIs(lang: Language, done: seq<Row>, prev: Option<Line>)
    requires prev.None? <==> done == []
    requires prev.Some? ==> done[|done| - 1].Visible() && TextOf(done[|done| - 1].line) == prev.value.body
    ensures Sealed(lang, done) <==> prev.None? || Opener(lang, prev.value.body)
  {
    hide EndsWithOpener, Opener, AllSpace;
    if prev.Some? {
      OpenerIs(lang, prev.value.body);
    }
  }

  /** The run before the first line of code, as rows. */
  lemma {:induction false} RunShape(rows: seq<Row>, lines: seq<Line>, n: nat, a: nat, b: nat)
    requires AllLike(rows, lines) && n == FirstCode(lines) && a == GoneLen(lines[..n]) && b == a + BlankLen(lines[..n][a..])
    ensures forall k :: 0 <= k < n ==> !rows[k].Visible()
    ensures a <= b <= n && (forall k :: 0 <= k < a ==> rows[..n][k].dropped) && (forall k :: a <= k < b ==> !rows[..n][k].dropped)
    ensures b < n ==> a < b && rows[..n][b].dropped
    ensures n < |lines| ==> rows[n].Visible() && !rows[n].dropped
  {
    hide Like, GoneLen, BlankLen, FirstCode;
    var ls := lines[..n];
    var rest := ls[a..];
    forall k | 0 <= k < n
      ensures !rows[k].Visible() && rows[..n][k] == rows[k]
      ensures k < a ==> rows[k].dropped
      ensures a <= k < b ==> !rows[k].dropped
      ensures k == b ==> rows[k].dropped
    {
      assert ls[k] == lines[k] && Like(rows[k], lines[k]);
      assert k >= a ==> rest[k - a] == ls[k];
      LikeFacts(rows[k], lines[k]);
    }
    assert a < n && a == b ==> false by { assert a < n ==> rest[0] == ls[a] && !ls[a].code; }
    if n < |lines| {
      assert Like(rows[n], lines[n]);
      LikeFacts(rows[n], lines[n]);
    }
  }

  lemma LikeFacts(row: Row, line: Line)
    requires Like(row, line)
    ensures (row.Visible() <==> line.code) && (row.dropped <==> line.Gone())
  {
    hide AllSpace, TextOf, RowText;
  }

  function BetweenRows(run: seq<Row>, a: nat, b: nat, open: bool, close: bool): seq<Row>
    requires a <= b <= |run|
  {
    if (a == 0 || !open) && !(close && b < |run|) then run[a..b] else []
  }

  lemma {:induction false} BetweenLike(run: seq<Row>, ls: seq<Line>, a: nat, b: nat, open: bool, close: bool)
    requires AllLike(run, ls) && a == GoneLen(ls) && b == a + BlankLen(ls[a..])
    ensures AllLike(BetweenRows(run, a, b, open, close), Between(ls, open, close))
  {
    hide Like, GoneLen, BlankLen;
    var r, l := run[a..b], ls[a..b];
    forall k | 0 <= k < b - a
      ensures Like(r[k], l[k])
    {
      assert r[k] == run[a + k] && l[k] == ls[a + k];
    }
  }

  lemma {:induction false} KeptLike(g: seq<Row>, done: seq<Row>, between: seq<Row>, row: Row, bl: seq<Line>, line: Line, kept: seq<Line>)
    requires |done + between + [row]| <= |g| && g[..|done + between + [row]|] == done + between + [row]
    requires AllLike(g[|done + between + [row]|..], kept) && AllLike(between, bl) && Like(row, line)
    ensures |done| <= |g| && g[..|done|] == done && AllLike(g[|done|..], bl + [line] + kept)
  {
    hide Like;
    var m := |done + between + [row]|;
    var tail := g[m..];
    assert g == done + between + [row] + tail;
    assert g[..|done|] == done && g[|done|..] == between + [row] + tail;
  }

  lemma {:induction false} LineLike(x: seq<Cell>, spans: seq<Span>, a: nat, b: nat, nl: Cell)
    requires a <= b <= |x| && forall k: nat :: k < |x| ==> (x[k].IsComment() <==> InSpans(spans, k))
    ensures Like(RowOf(x[a..b], nl), LineAt(x, spans, a, b))
  {
    hide IsSpace, InSpans, Stripped, TextOf, AllSpace;
    var raw, text := x[a..b], TextOf(x);
    CharsOf(x);
    var cr := a < b && text[b - 1] == '\r';
    var e := if cr then b - 1 else b;
    var line := x[a..e];
    assert EndsInReturn(raw) <==> cr;
    assert LineOf(raw) == line;
    assert Touched(line) <==> SpannedIn(spans, a, e) by { TouchedIs(x, spans, a, e); }
    RowSettled(raw, nl);
    CodeIs(x, spans, a, e, b);
    assert TextOf(line) == text[a..e] by { CharsOf(line); }
  }

  lemma {:induction false} TouchedIs(x: seq<Cell>, spans: seq<Span>, a: nat, e: nat)
    requires a <= e <= |x| && forall k: nat :: k < |x| ==> (x[k].IsComment() <==> InSpans(spans, k))
    ensures Touched(x[a..e]) <==> SpannedIn(spans, a, e)
  {
    hide InSpans;
    var line := x[a..e];
    assert forall i :: 0 <= i < |line| ==> line[i] == x[a + i];
    if SpannedIn(spans, a, e) {
      var k: nat :| a <= k < e && InSpans(spans, k);
      assert line[k - a].IsComment();
    }
  }

  lemma {:induction false} CodeIs(x: seq<Cell>, spans: seq<Span>, a: nat, e: nat, b: nat)
    requires a <= e <= b <= |x| && (forall k: nat :: k < |x| ==> (x[k].IsComment() <==> InSpans(spans, k)))
    requires forall k :: e <= k < b ==> x[k].ch == '\r'
    ensures HasCode(x[a..b]) <==> CodeIn(TextOf(x), spans, a, e)
  {
    hide InSpans, IsSpace, TextOf;
    var raw, text := x[a..b], TextOf(x);
    CharsOf(x);
    ReturnIsSpace();
    assert forall i :: 0 <= i < |raw| ==> raw[i] == x[a + i];
    if HasCode(raw) {
      var i :| 0 <= i < |raw| && IsCode(raw[i]);
      assert CodeAt(text, spans, a + i);
    }
    if CodeIn(text, spans, a, e) {
      var k: nat :| a <= k < e && CodeAt(text, spans, k);
      assert IsCode(raw[k - a]);
    }
  }

  lemma {:induction false} EndIs(x: seq<Cell>, pos: nat)
    requires pos <= |x|
    ensures EndOf(TextOf(x), pos) == pos + BreakAt(x[pos..])
  {
    hide EndOf, BreakAt, TextOf;
    var rest := x[pos..];
    CharsOf(x);
    assert forall k :: 0 <= k < |rest| ==> rest[k] == x[pos + k];
    var e, b := EndOf(TextOf(x), pos), BreakAt(rest);
    assert e < |x| ==> rest[e - pos].ch == '\n';
    assert b < |rest| ==> TextOf(x)[pos + b] == '\n';
  }

  /** The rows of a labelled text are its lines. */
  lemma {:induction false} RowsAreLines(x: seq<Cell>, spans: seq<Span>, pos: nat)
    requires pos <= |x| && forall k: nat :: k < |x| ==> (x[k].IsComment() <==> InSpans(spans, k))
    ensures AllLike(Rows(x[pos..]), LinesFrom(x, spans, pos))
    decreases |x| - pos
  {
    hide InSpans, Like, RowOf, LineAt, TextOf, EndOf, BreakAt, Rows;
    var e := EndOf(TextOf(x), pos);
    FirstRow(x, pos, e);
    if e == |x| {
      LineLike(x, spans, pos, e, NEWLINE);
    } else {
      LineLike(x, spans, pos, e, x[e]);
      RowsAreLines(x, spans, e + 1);
    }
  }

  lemma {:induction false} FirstRow(x: seq<Cell>, pos: nat, e: nat)
    requires pos <= |x| && e == EndOf(TextOf(x), pos)
    ensures Rows(x[pos..]) == if e == |x| then [RowOf(x[pos..e], NEWLINE)] else [RowOf(x[pos..e], x[e])] + Rows(x[e + 1..])
  {
    hide RowOf, TextOf, EndOf, BreakAt;
    var rest := x[pos..];
    EndIs(x, pos);
    if e == |x| {
      assert rest == x[pos..e];
    } else {
      assert rest[..e - pos] == x[pos..e] && rest[e - pos] == x[e] && rest[e - pos + 1..] == x[e + 1..];
    }
  }

  lemma {:induction false} BodyPrinted(rows: seq<Row>, lines: seq<Line>)
    requires rows != [] && AllLike(rows, lines)
    ensures Body(rows) + "\n" == Printed(lines)
    decreases |rows|
  {
    hide Like, RowText, Body;
    assert Like(rows[0], lines[0]);
    LikePrinted(rows[0], lines[0]);
    if |rows| == 1 {
      assert rows == [rows[0]] && lines[1..] == [];
      BodyOne(rows[0]);
      assert lines[0].printed + "\n" + "" == lines[0].printed + "\n";
    } else {
      BodyCons(rows);
      LikeTail(rows, lines, 1);
      BodyPrinted(rows[1..], lines[1..]);
      var h, t := RowText(rows[0]), Body(rows[1..]);
      assert (h + "\n" + t) + "\n" == h + "\n" + (t + "\n");
    }
  }

  lemma LikePrinted(row: Row, line: Line)
    requires Like(row, line)
    ensures RowText(row) == line.printed
  {
    hide AllSpace, TextOf;
  }

  /** The text of the kept lines; the carriage return of the last one is written twice. */
  function Finished(lines: seq<Line>, newline: bool): string {
    if lines == [] then ""
    else
      var all, last := Printed(lines), lines[|lines| - 1].printed;
      if newline && last != "" && last[|last| - 1] == '\r' && all != "" then all[..|all| - 1] + "\r\n" else all
  }

  lemma {:induction false} FinishedIs(rows: seq<Row>, lines: seq<Line>, newline: bool)
    requires AllLike(rows, lines) && (rows != [] ==> Settled(rows[|rows| - 1]) && rows[|rows| - 1].Visible())
    ensures Rendered(rows, newline) == Finished(lines, newline)
  {
    hide Like, Body, Printed, Settled, AllSpace, TextOf;
    if rows != [] {
      BodyPrinted(rows, lines);
      var row, line := rows[|rows| - 1], lines[|rows| - 1];
      assert Like(row, line);
      LikePrinted(row, line);
      ReturnSeen(row);
      var all, body := Printed(lines), Body(rows);
      assert all[..|all| - 1] == body;
    }
  }

  lemma {:induction false} ReturnSeen(row: Row)
    requires Settled(row) && row.Visible()
    ensures RowText(row) != "" && (row.ret != [] <==> RowText(row)[|RowText(row)| - 1] == '\r')
  {
    hide IsSpace;
    var t := TextOf(row.line);
    assert t != "" && t[|t| - 1] == row.line[|row.line| - 1].ch;
  }

  // ----- the theorem -----

  /**
    * The result is made of the kept lines of the joined text: those of code, and the blank ones that
    * stay between them; a line with a comment and no code leaves nothing.
    */
  lemma {:induction false} StripKeepsLines(sc: Scanner, text: string)
    requires StripSpans(sc, text).Some?
    ensures Spans(sc, text, 0).Some?
    ensures
      var joined := JoinAll(text, Spans(sc, text, 0).value);
      && Lex(sc, joined).Some? && Spans(sc, joined, 0).Some?
      && var x, spans := Lex(sc, joined).value, Spans(sc, joined, 0).value;
         StripSpans(sc, text).value
         == Finished(Kept(sc.language, None, LinesFrom(x, spans, 0)), joined != "" && joined[|joined| - 1] == '\n')
  {
    hide Lex, Spans, Next, Rendered, Rows, Fold, PopBlank, JoinAll, InSpans, TextOf, LinesFrom, Kept, Finished, Settled, AllSpace;
    var joined := JoinAll(text, Spans(sc, text, 0).value);
    SpansAreComments(sc, joined, 0);
    var x, spans := Lex(sc, joined).value, Spans(sc, joined, 0).value;
    assert forall k: nat :: k < |x| ==> (x[k].IsComment() <==> InSpans(spans, 0 + k));
    RowsAreLines(x, spans, 0);
    assert x[0..] == x;
    FoldKept(sc.language, [], None, Rows(x), LinesFrom(x, spans, 0));
    var rows := Survivors(sc.language, x);
    assert rows[0..] == rows;
    SurvivorsEnd(sc.language, x);
    FinishedIs(rows, Kept(sc.language, None, LinesFrom(x, spans, 0)), EndsInNewline(joined));
  }

  // ----- what is kept -----

  function CodeLines(lines: seq<Line>): seq<Line> {
    if lines == [] then [] else (if lines[0].code then [lines[0]] else []) + CodeLines(lines[1..])
  }

  lemma {:induction false} CodeConcat(a: seq<Line>, b: seq<Line>)
    ensures CodeLines(a + b) == CodeLines(a) + CodeLines(b)
    decreases |a|
  {
    if a == [] {
      assert a + b == b;
    } else {
      assert (a + b)[0] == a[0] && (a + b)[1..] == a[1..] + b;
      CodeConcat(a[1..], b);
      var h := if a[0].code then [a[0]] else [];
      assert h + (CodeLines(a[1..]) + CodeLines(b)) == (h + CodeLines(a[1..])) + CodeLines(b);
    }
  }

  lemma {:induction false} NoCodeLines(a: seq<Line>)
    requires forall k :: 0 <= k < |a| ==> !a[k].code
    ensures CodeLines(a) == []
    decreases |a|
  {
    if a != [] {
      NoCodeLines(a[1..]);
    }
  }

  /** The lines of code among some blank ones, a line of code and what follows. */
  lemma {:induction false} CodeAround(a: seq<Line>, line: Line, b: seq<Line>)
    requires line.code && forall k :: 0 <= k < |a| ==> !a[k].code
    ensures CodeLines(a + [line] + b) == [line] + CodeLines(b)
  {
    hide CodeLines;
    NoCodeLines(a);
    CodeConcat(a + [line], b);
    CodeConcat(a, [line]);
    assert CodeLines([line]) == [line] by { OneCode(line); }
    assert [] + [line] == [line];
  }

  lemma OneCode(line: Line)
    requires line.code
    ensures CodeLines([line]) == [line]
  {
    assert [line][1..] == [];
  }

  /** Every line of code is kept, in order; no line of comments only is. */
  lemma {:induction false} KeptLines(lang: Language, prev: Option<Line>, lines: seq<Line>)
    ensures CodeLines(Kept(lang, prev, lines)) == CodeLines(lines)
    ensures forall k :: 0 <= k < |Kept(lang, prev, lines)| ==> !Kept(lang, prev, lines)[k].Gone()
    decreases |lines|
  {
    hide FirstCode, Between, CodeLines, Kept;
    var n := FirstCode(lines);
    if n == |lines| {
      NoCodeLines(lines);
      NoCodeLines([]);
      KeptNone(lang, prev, lines);
    } else {
      var line, run, more := lines[n], lines[..n], lines[n + 1..];
      var between := KeptSome(lang, prev, lines, n);
      KeptLines(lang, Some(line), more);
      assert forall k :: 0 <= k < |run| ==> run[k] == lines[k];
      assert lines == run + [line] + more;
      CodeAround(run, line, more);
      CodeAround(between, line, Kept(lang, Some(line), more));
    }
  }

  lemma KeptNone(lang: Language, prev: Option<Line>, lines: seq<Line>)
    requires FirstCode(lines) == |lines|
    ensures Kept(lang, prev, lines) == []
  {
    hide FirstCode;
  }

  lemma {:induction false} KeptSome(lang: Language, prev: Option<Line>, lines: seq<Line>, n: nat) returns (between: seq<Line>)
    requires FirstCode(lines) == n < |lines|
    ensures Kept(lang, prev, lines) == between + [lines[n]] + Kept(lang, Some(lines[n]), lines[n + 1..])
    ensures forall k :: 0 <= k < |between| ==> between[k].Blank()
  {
    hide Opener, Closer, FirstCode, Between;
    var open, close := prev.None? || Opener(lang, prev.value.body), Closer(lang, lines[n].body);
    between := Between(lines[..n], open, close);
    BetweenBlank(lines[..n], open, close);
  }

  lemma {:induction false} BetweenBlank(run: seq<Line>, open: bool, close: bool)
    ensures forall k :: 0 <= k < |Between(run, open, close)| ==> Between(run, open, close)[k].Blank()
  {
    hide GoneLen, BlankLen;
    var a := GoneLen(run);
    var rest := run[a..];
    assert forall k :: 0 <= k < BlankLen(rest) ==> rest[k] == run[a + k];
  }

  lemma {:induction false} AllBetween(run: seq<Line>, open: bool, close: bool)
    requires forall k :: 0 <= k < |run| ==> run[k].Blank()
    ensures Between(run, open, close) == run
  {
    hide GoneLen, BlankLen;
    assert run != [] ==> run[0].Blank();
    assert run[0..] == run;
    assert BlankLen(run) == |run|;
  }

  /** Where no line goes, all lines up to the last one of code are kept. */
  lemma {:induction false} NothingGoes(lang: Language, prev: Option<Line>, lines: seq<Line>)
    requires forall k :: 0 <= k < |lines| ==> !lines[k].Gone()
    ensures Kept(lang, prev, lines) <= lines
    ensures forall k :: |Kept(lang, prev, lines)| <= k < |lines| ==> !lines[k].code
    decreases |lines|
  {
    hide Opener, Closer, FirstCode, Between;
    var n := FirstCode(lines);
    if n < |lines| {
      var line, run, more := lines[n], lines[..n], lines[n + 1..];
      assert forall k :: 0 <= k < |run| ==> run[k] == lines[k];
      AllBetween(run, prev.None? || Opener(lang, prev.value.body), Closer(lang, line.body));
      NothingGoes(lang, Some(line), more);
      PrefixOf(run + [line], Kept(lang, Some(line), more), more);
      assert lines == run + [line] + more;
    }
  }

  lemma {:induction false} PrefixOf(a: seq<Line>, b: seq<Line>, c: seq<Line>)
    requires b <= c && forall k :: |b| <= k < |c| ==> !c[k].code
    ensures a + b <= a + c && forall k :: |a + b| <= k < |a + c| ==> !(a + c)[k].code
  {
    assert (a + c)[..|a + b|] == a + b;
  }
}
