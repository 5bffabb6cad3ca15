/** `shell_spans`: an automaton with a stack of quoting frames and a queue of here-documents. */
module Shell {
  import opened Text
  import opened Lexer
  import opened Scan

  datatype FrameKind = Code | Cmd | Bq | Dq | Param | Arith

  /** One entry of `frames`: the open parentheses and the open `case` words inside it. */
  datatype Frame = Frame(kind: FrameKind, depth: int, cases: nat)

  /** A here-document that starts at the next newline; `tabs` is `<<-`. */
  datatype Doc = Doc(delim: string, tabs: bool)

  datatype Core = Core(frames: seq<Frame>, pending: seq<Doc>, sep: bool)

  /** One step: the next state, how far the index moves, and the length of a comment found here. */
  datatype Move = Move(core: Core, advance: nat, comment: nat)

  const START := Core([Frame(Code, 0, 0)], [], true)

  predicate Separator(c: char) {
    c in " \t\n;&|()<>"
  }

  /** The bottom frame is the only `code` frame. */
  predicate Valid(c: Core) {
    && c.frames != [] && c.frames[0].kind == Code
    && forall k :: 0 < k < |c.frames| ==> c.frames[k].kind != Code
  }

  function Top(c: Core): Frame
    requires c.frames != []
  {
    c.frames[|c.frames| - 1]
  }

  function Push(c: Core, kind: FrameKind): (r: Core)
    requires c.frames != [] && kind != Code
    ensures Valid(c) ==> Valid(r)
  {
    c.(frames := c.frames + [Frame(kind, 0, 0)])
  }

  function Pop(c: Core): (r: Core)
    requires Valid(c) && Top(c).kind != Code
    ensures Valid(r)
  {
    c.(frames := c.frames[..|c.frames| - 1])
  }

  /** The update of the innermost frame in place. */
  function SetTop(c: Core, f: Frame): (r: Core)
    requires Valid(c) && f.kind == Top(c).kind
    ensures Valid(r)
  {
    c.(frames := c.frames[|c.frames| - 1 := f])
  }

  function Go(c: Core, sep: bool, advance: nat): Option<Move> {
    Some(Move(c.(sep := sep), advance, 0))
  }

  /** The same step without touching `sep`. */
  function Stay(c: Core, advance: nat): Option<Move> {
    Some(Move(c, advance, 0))
  }

  // ----- pieces of the grammar, as offsets into the rest of the text -----

  function NewlineOrEnd(u: string): (j: nat)
    ensures j <= |u| && (j < |u| ==> u[j] == '\n')
    ensures forall k :: 0 <= k < j ==> u[k] != '\n'
  {
    if u == "" || u[0] == '\n' then 0 else 1 + NewlineOrEnd(u[1..])
  }

  /** `end_of_line` from the front stops at the newline or at the return before it. */
  lemma {:induction false} EndOfFirstLine(u: string)
    ensures
      var j := NewlineOrEnd(u);
      EndOfLine(u, 0) == if j > 0 && u[j - 1] == '\r' then j - 1 else j
  {
    hide NewlineOrEnd;
    var j := NewlineOrEnd(u);
    FindIsFirst(u, 0, "\n");
    if j < |u| {
      assert u[j + 0] == "\n"[0];
      assert StartsAt(u, j, "\n");
    }
    if FindFrom(u, 0, "\n").Some? {
      var e := FindFrom(u, 0, "\n").value;
      assert u[e + 0] == "\n"[0];
    }
  }

  /** A comment in a backquoted command ends at the closing backquote. */
  function CommentStop(u: string, kind: FrameKind): (j: nat)
    ensures j <= |u|
    ensures u != "" && u[0] == '#' ==> j > 0
    ensures forall k :: 0 <= k < j ==> u[k] != '\n'
    ensures j < |u| ==> u[j] == '\n' || u[j] == '\r' || (kind == Bq && u[j] == '`')
  {
    EndOfFirstLine(u);
    var j := EndOfLine(u, 0);
    if kind == Bq then TickOr(u, j) else j
  }

  /** `text.find("`", i, j)`, or `j`. */
  function TickOr(u: string, j: nat): (k: nat)
    requires j <= |u|
    ensures k <= j && (k < j ==> u[k] == '`')
    ensures forall t :: 0 <= t < k ==> u[t] != '`'
    decreases j
  {
    if j == 0 || u[0] == '`' then 0 else 1 + TickOr(u[1..], j - 1)
  }

  /** The offset after the first quote at or behind `j`. */
  function AfterQuote(u: string, j: nat): (r: Option<nat>)
    ensures r.Some? ==> j < r.value <= |u|
    decreases |u| - j
  {
    if j >= |u| then None else if u[j] == '\'' then Some(j + 1) else AfterQuote(u, j + 1)
  }

  /** `skip_ansi_c`: the same, but a backslash escapes the next character. */
  function AfterAnsiQuote(u: string, j: nat): (r: Option<nat>)
    ensures r.Some? ==> j < r.value <= |u|
    decreases |u| - j
  {
    if j >= |u| then None
    else if u[j] == '\\' then AfterAnsiQuote(u, j + 2)
    else if u[j] == '\'' then Some(j + 1)
    else AfterAnsiQuote(u, j + 1)
  }

  /** `IDENT.match`: the length of the word at the front. */
  function WordLen(u: string): (n: nat)
    ensures n <= |u|
  {
    if u != "" && IdentStart(u[0]) then IdentEnd(u, 1) else 0
  }

  // ----- here-documents -----

  /** A character an unquoted delimiter may hold. */
  predicate DelimChar(c: char) {
    !IsSpace(c) && c !in ";&|<>()'\""
  }

  function DelimLen(u: string): (n: nat)
    ensures n <= |u|
    ensures forall k :: 0 <= k < n ==> DelimChar(u[k])
  {
    if u == "" || !DelimChar(u[0]) then 0 else 1 + DelimLen(u[1..])
  }

  /** The offset of a closing quote on the same line. */
  function QuotedLen(u: string, quote: char): (r: Option<nat>)
    ensures r.Some? ==> r.value < |u| && u[r.value] == quote
  {
    if u == "" || u[0] == '\n' then None
    else if u[0] == quote then Some(0)
    else match QuotedLen(u[1..], quote)
      case None => None
      case Some(k) => Some(k + 1)
  }

  /** A delimiter and the number of characters it takes. */
  datatype Delim = Delim(text: string, size: nat)

  /** The alternatives of `HEREDOC` after the blanks. */
  function DelimAt(u: string): (r: Option<Delim>)
    ensures r.Some? ==> 0 < r.value.size <= |u|
  {
    if u != "" && (u[0] == '\'' || u[0] == '"') then
      match QuotedLen(u[1..], u[0])
      case None => None
      case Some(k) => Some(Delim(u[1..k + 1], k + 2))
    else if u != "" && u[0] == '\\' && DelimLen(u[1..]) > 0 then
      Some(Delim(u[1..DelimLen(u[1..]) + 1], DelimLen(u[1..]) + 1))
    else if DelimLen(u) > 0 then Some(Delim(u[..DelimLen(u)], DelimLen(u)))
    else None
  }

  function BlanksThenDelim(u: string, tabs: bool, skip: nat): (r: Option<(Doc, nat)>)
    requires skip <= |u|
    ensures r.Some? ==> skip < r.value.1 <= |u|
  {
    var b := skip + LeadingBlanks(u[skip..]);
    match DelimAt(u[b..])
    case None => None
    case Some(d) => Some((Doc(d.text, tabs), b + d.size))
  }

  /** `HEREDOC.match` at the front of `u`: the document and the length of the match. */
  function Heredoc(u: string): (r: Option<(Doc, nat)>)
    requires |u| >= 2
    ensures r.Some? ==> 2 < r.value.1 <= |u|
  {
    if |u| > 2 && u[2] == '-' then
      var dashed := BlanksThenDelim(u, true, 3);
      if dashed.Some? then dashed else BlanksThenDelim(u, false, 2)
    else BlanksThenDelim(u, false, 2)
  }

  function RStripReturns(line: string): string {
    if line != "" && line[|line| - 1] == '\r' then RStripReturns(line[..|line| - 1]) else line
  }

  function LStripTabs(line: string): string {
    if line != "" && line[0] == '\t' then LStripTabs(line[1..]) else line
  }

  predicate Closes(doc: Doc, line: string) {
    var body := RStripReturns(line);
    (if doc.tabs then LStripTabs(body) else body) == doc.delim
  }

  /** The offset after the line that closes `doc`; it may be one past the end of the text. */
  function DocEnd(u: string, i: nat, doc: Doc): (r: Option<nat>)
    ensures r.Some? ==> i < r.value <= |u| + 1
    decreases |u| - i
  {
    if i >= |u| then None
    else
      var e := i + NewlineOrEnd(u[i..]);
      if Closes(doc, u[i..e]) then Some(e + 1) else DocEnd(u, e + 1, doc)
  }

  /** `consume_heredocs`. */
  function DocsEnd(u: string, i: nat, pending: seq<Doc>): (r: Option<nat>)
    requires i <= |u| + 1
    ensures r.Some? ==> i <= r.value <= |u| + 1
    decreases |pending|
  {
    if pending == [] then Some(i)
    else
      match DocEnd(u, i, pending[0])
      case None => None
      case Some(e) => DocsEnd(u, e, pending[1..])
  }

  // ----- one step in each kind of frame -----

  /** The frame after the word at the front of `u`: `case` and `esac` are counted. */
  function Counted(u: string, f: Frame): (r: Frame)
    requires WordLen(u) > 0
    ensures r.kind == f.kind
  {
    var n := WordLen(u);
    var after := if n < |u| then u[n] else '\n';
    if Separator(after) && u[..n] == "case" then f.(cases := f.cases + 1)
    else if Separator(after) && u[..n] == "esac" && f.cases > 0 then f.(cases := f.cases - 1)
    else f
  }

  /** A word in command position. */
  function WordStep(u: string, c: Core): (m: Option<Move>)
    requires Valid(c) && WordLen(u) > 0
    ensures m.Some? && Valid(m.value.core) && m.value.advance > 0 && m.value.comment == 0
  {
    Go(SetTop(c, Counted(u, Top(c))), false, WordLen(u))
  }

  /** A closing parenthesis in a command substitution. */
  function CloseStep(c: Core): (m: Option<Move>)
    requires Valid(c) && Top(c).kind == Cmd
    ensures m.Some? && Valid(m.value.core) && m.value.advance > 0 && m.value.comment == 0
  {
    var f := Top(c);
    if f.depth > 0 then Go(SetTop(c, f.(depth := f.depth - 1)), true, 1)
    else if f.cases > 0 then Go(c, true, 1)
    else Go(Pop(c), false, 1)
  }

  /** A character that is only itself. */
  function PlainStep(u: string, c: Core): (m: Option<Move>)
    requires Valid(c) && u != ""
    ensures m.Some? && Valid(m.value.core) && m.value.advance > 0 && m.value.comment == 0
  {
    var f := Top(c);
    if f.kind == Cmd && u[0] == '(' then Go(SetTop(c, f.(depth := f.depth + 1)), true, 1)
    else Go(c, Separator(u[0]), 1)
  }

  /** The openers `$((`, `((`, `$(`, `${`, `<<<` and `<<`, and what is left. */
  function OpenStep(u: string, c: Core): (m: Option<Move>)
    requires Valid(c) && u != ""
    ensures m.Some? ==> Valid(m.value.core) && m.value.advance > 0 && m.value.comment == 0
  {
    if StartsAt(u, 0, "$((") then Go(Push(c, Arith), false, 3)
    else if c.sep && StartsAt(u, 0, "((") then Go(Push(c, Arith), false, 2)
    else if StartsAt(u, 0, "$(") then Go(Push(c, Cmd), true, 2)
    else if StartsAt(u, 0, "${") then Go(Push(c, Param), false, 2)
    else if StartsAt(u, 0, "<<<") then Go(c, true, 3)
    else if StartsAt(u, 0, "<<") && Heredoc(u).Some? then
      var (doc, n) := Heredoc(u).value;
      Go(c.(pending := c.pending + [doc]), false, n)
    else if c.sep && WordLen(u) > 0 then WordStep(u, c)
    else if Top(c).kind == Cmd && u[0] == ')' then CloseStep(c)
    else PlainStep(u, c)
  }

  /** What a step that finds a comment has seen. */
  predicate Commented(u: string, first: bool, c: Core, m: Move)
    requires c.frames != [] && u != ""
  {
    && u[0] == '#' && c.sep && m.core == c && m.comment == m.advance == CommentStop(u, Top(c).kind)
    && !(first && StartsAt(u, 0, "#!"))
  }

  /** A step in `code`, `cmd` or `bq`; `first` is the very start of the text. */
  function CommandStep(u: string, first: bool, c: Core): (m: Option<Move>)
    requires Valid(c) && u != ""
    ensures m.Some? ==> Valid(m.value.core) && m.value.advance > 0
    ensures m.Some? && m.value.comment > 0 ==> Commented(u, first, c, m.value)
  {
    var kind := Top(c).kind;
    if u[0] == '#' && c.sep then
      var j := CommentStop(u, kind);
      Some(Move(c, j, if first && StartsAt(u, 0, "#!") then 0 else j))
    else if u[0] == '\\' then Go(c, false, 2)
    else if StartsAt(u, 0, "$'") then
      match AfterAnsiQuote(u, 2)
      case None => None
      case Some(j) => Go(c, false, j)
    else if u[0] == '\'' then
      match AfterQuote(u, 1)
      case None => None
      case Some(j) => Go(c, false, j)
    else if u[0] == '"' then Go(Push(c, Dq), false, 1)
    else if u[0] == '`' then
      if kind == Bq then Go(Pop(c), false, 1) else Go(Push(c, Bq), true, 1)
    else OpenStep(u, c)
  }

  /** A step in a double-quoted string. */
  function QuotedStep(u: string, c: Core): (m: Option<Move>)
    requires Valid(c) && u != "" && Top(c).kind == Dq
    ensures m.Some? && Valid(m.value.core) && m.value.advance > 0 && m.value.comment == 0
  {
    if u[0] == '\\' then Stay(c, 2)
    else if u[0] == '"' then Go(Pop(c), false, 1)
    else if StartsAt(u, 0, "$((") then Stay(Push(c, Arith), 3)
    else if StartsAt(u, 0, "$(") then Go(Push(c, Cmd), true, 2)
    else if StartsAt(u, 0, "${") then Stay(Push(c, Param), 2)
    else if u[0] == '`' then Go(Push(c, Bq), true, 1)
    else Stay(c, 1)
  }

  /** A step in `${...}`; a single quote is only a quote outside double quotes. */
  function ParamStep(u: string, c: Core): (m: Option<Move>)
    requires Valid(c) && u != "" && Top(c).kind == Param
    ensures m.Some? ==> Valid(m.value.core) && m.value.advance > 0 && m.value.comment == 0
  {
    if u[0] == '\\' then Stay(c, 2)
    else if u[0] == '}' then Go(Pop(c), false, 1)
    else if u[0] == '\'' && c.frames[|c.frames| - 2].kind != Dq then
      match AfterQuote(u, 1)
      case None => None
      case Some(j) => Stay(c, j)
    else if u[0] == '"' then Stay(Push(c, Dq), 1)
    else if StartsAt(u, 0, "${") then Stay(Push(c, Param), 2)
    else if StartsAt(u, 0, "$((") then Stay(Push(c, Arith), 3)
    else if StartsAt(u, 0, "$(") then Go(Push(c, Cmd), true, 2)
    else Stay(c, 1)
  }

  /** A step in arithmetic; the depth may fall below zero. */
  function ArithStep(u: string, c: Core): (m: Option<Move>)
    requires Valid(c) && u != "" && Top(c).kind == Arith
    ensures m.Some? && Valid(m.value.core) && m.value.advance > 0 && m.value.comment == 0
  {
    var f := Top(c);
    if u[0] == '(' then Stay(SetTop(c, f.(depth := f.depth + 1)), 1)
    else if u[0] == ')' then
      if f.depth == 0 && StartsAt(u, 0, "))") then Go(Pop(c), false, 2)
      else Stay(SetTop(c, f.(depth := f.depth - 1)), 1)
    else if StartsAt(u, 0, "$(") && !StartsAt(u, 0, "$((") then Go(Push(c, Cmd), true, 2)
    else if StartsAt(u, 0, "${") then Stay(Push(c, Param), 2)
    else Stay(c, 1)
  }

  predicate TakesDocs(kind: FrameKind) {
    kind == Code || kind == Cmd || kind == Bq || kind == Arith
  }

  /**
    * The body of the loop on the rest of the text; `None` is a ScanError. It keeps the bottom
    * frame the only `code` frame, always moves on, and never reads below the bottom frame.
    */
  function Step(u: string, first: bool, c: Core): (m: Option<Move>)
    requires Valid(c) && u != ""
    ensures m.Some? ==> Valid(m.value.core) && m.value.advance > 0
    ensures m.Some? && m.value.comment > 0 ==>
      Commented(u, first, c, m.value) && (Top(c).kind == Code || Top(c).kind == Cmd || Top(c).kind == Bq)
  {
    var kind := Top(c).kind;
    if u[0] == '\n' && c.pending != [] && TakesDocs(kind) then
      match DocsEnd(u, 1, c.pending)
      case None => None
      case Some(e) => Some(Move(c.(pending := [], sep := true), e, 0))
    else match kind
      case Dq => QuotedStep(u, c)
      case Param => ParamStep(u, c)
      case Arith => ArithStep(u, c)
      case _ => CommandStep(u, first, c)
  }

  /** The comment of a step that starts at `i`. */
  function Found(i: nat, m: Move): seq<Span> {
    if m.comment == 0 then [] else [(i, i + m.comment)]
  }

  /** The whole loop from `i` on: the spans found and the state at the end. */
  function Run(text: string, i: nat, c: Core): (r: Option<(seq<Span>, Core)>)
    requires Valid(c)
    ensures r.Some? ==> Valid(r.value.1)
    decreases |text| - i
  {
    if i >= |text| then Some(([], c))
    else
      match Step(text[i..], i == 0, c)
      case None => None
      case Some(m) => Prefixed(Found(i, m), Run(text, i + m.advance, m.core))
  }

  /** The spans found before, followed by those of the rest of the run. */
  function Prefixed(spans: seq<Span>, r: Option<(seq<Span>, Core)>): Option<(seq<Span>, Core)> {
    match r
    case None => None
    case Some((more, last)) => Some((spans + more, last))
  }

  lemma {:induction false} PrefixedTwice(one: seq<Span>, two: seq<Span>, r: Option<(seq<Span>, Core)>)
    ensures Prefixed(one, Prefixed(two, r)) == Prefixed(one + two, r)
  {
    if r.Some? {
      assert one + (two + r.value.0) == (one + two) + r.value.0;
    }
  }

  /** Nothing is left open. */
  predicate Closed(c: Core) {
    |c.frames| == 1 && c.pending == []
  }

  /** `shell_spans`; `None` is a ScanError. */
  function Spanned(text: string): Option<seq<Span>> {
    match Run(text, 0, START)
    case None => None
    case Some((spans, last)) => if Closed(last) then Some(spans) else None
  }

  // ----- what the spans are -----

  /** From a hash sign to the end of the line or to a backquote, and never the `#!` of the first line. */
  predicate IsShellComment(text: string, a: nat, b: nat) {
    && a < b <= |text| && text[a] == '#'
    && (forall k :: a <= k < b ==> text[k] != '\n')
    && (b < |text| ==> text[b] == '\n' || text[b] == '\r' || text[b] == '`')
    && !(a == 0 && StartsAt(text, 0, "#!"))
  }

  predicate AllShellComments(text: string, spans: seq<Span>) {
    forall k :: 0 <= k < |spans| ==> IsShellComment(text, spans[k].0, spans[k].1)
  }

  lemma {:induction false} StepComment(text: string, i: nat, c: Core)
    requires Valid(c) && i < |text|
    ensures
      var m := Step(text[i..], i == 0, c);
      m.Some? && m.value.comment > 0 ==>
        && m.value.comment == m.value.advance
        && IsShellComment(text, i, i + m.value.comment)
        && c.sep && (Top(c).kind == Code || Top(c).kind == Cmd || Top(c).kind == Bq)
  {
    hide Step;
    var u := text[i..];
    var m := Step(u, i == 0, c);
    if m.Some? && m.value.comment > 0 {
      var j := m.value.comment;
      assert forall k :: 0 <= k < |u| ==> u[k] == text[i + k];
      assert Commented(u, i == 0, c, m.value);
      forall k | i <= k < i + j
        ensures text[k] != '\n'
      {
        assert u[k - i] == text[k];
      }
      assert i == 0 ==> u == text;
    }
  }

  /** Spans are comments, in order and apart, from `i` on. */
  lemma {:induction false} RunSpans(text: string, i: nat, c: Core)
    requires Valid(c)
    ensures
      var r := Run(text, i, c);
      r.Some? ==> Ordered(r.value.0, i, |text|) && AllShellComments(text, r.value.0)
    decreases |text| - i
  {
    hide Step, IsShellComment, Ordered, AllShellComments, Commented;
    if i >= |text| {
      NothingOrdered(i, text);
    } else if Run(text, i, c).Some? {
      var m := Step(text[i..], i == 0, c).value;
      RunSpans(text, i + m.advance, m.core);
      StepComment(text, i, c);
      var rest := Run(text, i + m.advance, m.core).value.0;
      if m.comment > 0 {
        SpansCons(text, i, i + m.comment, rest);
      } else {
        assert [] + rest == rest;
        OrderedLater(rest, i, i + m.advance, |text|);
      }
    }
  }

  lemma NothingOrdered(i: nat, text: string)
    ensures Ordered([], i, |text|) && AllShellComments(text, [])
  {
  }

  lemma {:induction false} SpansCons(text: string, a: nat, b: nat, rest: seq<Span>)
    requires IsShellComment(text, a, b) && Ordered(rest, b, |text|) && AllShellComments(text, rest)
    ensures Ordered([(a, b)] + rest, a, |text|) && AllShellComments(text, [(a, b)] + rest)
  {
    hide IsShellComment;
    assert a < b <= |text| by { InBounds(text, a, b); }
    var all := [(a, b)] + rest;
    assert forall k :: 0 < k < |all| ==> all[k] == rest[k - 1];
  }

  lemma InBounds(text: string, a: nat, b: nat)
    requires IsShellComment(text, a, b)
    ensures a < b <= |text|
  {
  }

  lemma {:induction false} OrderedLater(rest: seq<Span>, a: nat, b: nat, n: nat)
    requires a <= b && Ordered(rest, b, n)
    ensures Ordered(rest, a, n)
  {
  }

  // ----- the loop -----

  /**
    * `shell_spans`: it answers exactly when the run ends with one frame and no pending here-document,
    * with the comments the run met, in order and apart.
    */
  method ShellSpans(text: string) returns (r: Option<seq<Span>>)
    ensures r == Spanned(text)
    ensures r.Some? ==> Ordered(r.value, 0, |text|) && AllShellComments(text, r.value)
  {
    hide Step, IsShellComment, Ordered;
    var core, spans: seq<Span>, i: nat := START, [], 0;
    RunSpans(text, 0, START);
    assert Run(text, 0, START) == Prefixed([], Run(text, 0, START)) by { NothingBefore(Run(text, 0, START)); }
    while i < |text|
      invariant Valid(core)
      invariant Run(text, 0, START) == Prefixed(spans, Run(text, i, core))
      decreases |text| - i
    {
      var m := Step(text[i..], i == 0, core);
      if m.None? {
        return None;
      }
      PrefixedStep(spans, text, i, core);
      spans := spans + Found(i, m.value);
      i, core := i + m.value.advance, m.value.core;
    }
    if core.pending != [] {
      return None;
    }
    if |core.frames| != 1 {
      return None;
    }
    assert spans + [] == spans;
    return Some(spans);
  }

  lemma NothingBefore(r: Option<(seq<Span>, Core)>)
    ensures Prefixed([], r) == r
  {
    if r.Some? {
      assert [] + r.value.0 == r.value.0;
    }
  }

  lemma {:induction false} PrefixedStep(spans: seq<Span>, text: string, i: nat, c: Core)
    requires Valid(c) && i < |text| && Step(text[i..], i == 0, c).Some?
    ensures
      var m := Step(text[i..], i == 0, c).value;
      Prefixed(spans, Run(text, i, c)) == Prefixed(spans + Found(i, m), Run(text, i + m.advance, m.core))
  {
    hide Step, Prefixed;
    var m := Step(text[i..], i == 0, c).value;
    PrefixedTwice(spans, Found(i, m), Run(text, i + m.advance, m.core));
  }
}
