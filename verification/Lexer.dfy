/**
  * The lexical grammar behind `c_family_spans` and `sql_spans`: what one lexeme is,
  * how a whole text splits into lexemes, and which lexemes are comments.
  */
module Lexer {
  import opened Text

  datatype Language = Cpp | Proto | Json | Sql

  /**
    * A language together with the interpreter's Unicode tables. `digits` and `alnums`
    * stand for the non-ASCII part of `str.isdigit` and `str.isalnum`; nothing is assumed of them.
    */
  datatype Scanner = Scanner(language: Language, digits: set<char>, alnums: set<char>) {
    /** `proto=True` of `c_family_spans`: no raw strings and no digit separators. */
    predicate Plain() { language != Cpp }

    predicate IsDigit(c: char) {
      '0' <= c <= '9' || (c as int > 127 && !IsSpace(c) && c in digits)
    }

    predicate IsAlnum(c: char) {
      || IsDigit(c) || 'A' <= c <= 'Z' || 'a' <= c <= 'z'
      || (c as int > 127 && !IsSpace(c) && c in alnums)
    }
  }

  datatype Kind = Comment | Blank | Token

  /** One lexeme: its kind and the number of characters it takes. */
  datatype Lexeme = Lexeme(kind: Kind, size: nat)

  /** Characters that never combine with a neighbour: white space and `UNSPACED_NEIGHBOURS`. */
  predicate Unspaced(c: char) {
    c in "()[]{},;"
  }

  predicate Sep(c: char) {
    IsSpace(c) || Unspaced(c)
  }

  // ----- pieces of the grammar, each an offset into the text of one lexeme -----

  /** Where a `//` comment ends: the first newline not preceded by a backslash. */
  function LineEnd(s: string, j: nat): (e: nat)
    requires 0 < j <= |s|
    ensures j <= e <= |s|
    ensures e < |s| ==> s[e] == '\n' && s[e - 1] != '\\'
    decreases |s| - j
  {
    if j == |s| || (s[j] == '\n' && s[j - 1] != '\\') then j else LineEnd(s, j + 1)
  }

  /** A carriage return before the line end stays outside the comment. */
  function TrimReturn(s: string, e: nat): (m: nat)
    requires 0 < e <= |s|
    ensures e - 1 <= m <= e
  {
    if s[e - 1] == '\r' then e - 1 else e
  }

  /** `end_of_line` from the start of a `--` comment. */
  function DashEnd(s: string): (m: nat)
    requires |s| >= 2 && s[0] == '-' && s[1] == '-'
    ensures 2 <= m <= |s|
    ensures m < |s| ==> s[m] == '\n' || s[m] == '\r'
  {
    match FindFrom(s, 0, "\n")
    case None => TrimReturn(s, |s|)
    case Some(e) =>
      FindIsFirst(s, 0, "\n");
      assert s[e + 0] == "\n"[0];
      TrimReturn(s, e)
  }

  /** `skip_quoted`: the offset after the closing quote; only a multiline literal goes past a newline. */
  function QuoteEnd(s: string, j: nat, quote: char, multiline: bool := false): (e: Option<nat>)
    ensures e.Some? ==> j < e.value <= |s| && s[e.value - 1] == quote
    decreases |s| - j
  {
    if j >= |s| then None
    else if s[j] == '\\' then QuoteEnd(s, j + 2, quote, multiline)
    else if s[j] == quote then Some(j + 1)
    else if s[j] == '\n' && !multiline then None
    else QuoteEnd(s, j + 1, quote, multiline)
  }

  /** An SQL literal, in which a doubled quote is a quote character. */
  function SqlQuoteEnd(s: string, j: nat, quote: char): (e: Option<nat>)
    ensures e.Some? ==> j < e.value <= |s| && s[e.value - 1] == quote
    decreases |s| - j
  {
    match FindFrom(s, j, [quote])
    case None => None
    case Some(k) =>
      FindIsFirst(s, j, [quote]);
      assert StartsAt(s, k, [quote]) && s[k + 0] == [quote][0];
      if k + 1 < |s| && s[k + 1] == quote then SqlQuoteEnd(s, k + 2, quote) else Some(k + 1)
  }

  /** Whether the character at `j` continues a number token. */
  predicate NumberGoesOn(sc: Scanner, s: string, j: nat)
    requires 0 < j < |s|
  {
    || sc.IsAlnum(s[j]) || s[j] == '_' || s[j] == '.'
    || (s[j] == '\'' && !sc.Plain() && j + 1 < |s| && sc.IsAlnum(s[j + 1]))
    || ((s[j] == '+' || s[j] == '-') && s[j - 1] in "eEpP")
  }

  function NumberEnd(sc: Scanner, s: string, j: nat): (e: nat)
    requires 0 < j <= |s|
    ensures j <= e <= |s|
    ensures e > j ==> !Sep(s[e - 1])
    decreases |s| - j
  {
    if j < |s| && NumberGoesOn(sc, s, j) then NumberEnd(sc, s, j + 1) else j
  }

  function IdentEnd(s: string, j: nat): (e: nat)
    requires 0 < j <= |s|
    ensures j <= e <= |s|
    ensures e > j ==> IdentChar(s[e - 1])
    decreases |s| - j
  {
    if j < |s| && IdentChar(s[j]) then IdentEnd(s, j + 1) else j
  }

  /** The set R, u8R, uR, UR, LR. */
  predicate RawPrefix(w: string) {
    && 1 <= |w| <= 3 && w[|w| - 1] == 'R'
    && (|w| == 2 ==> w[0] == 'u' || w[0] == 'U' || w[0] == 'L')
    && (|w| == 3 ==> w[0] == 'u' && w[1] == '8')
  }

  predicate RawDelimiter(delim: string) {
    |delim| <= 16 && forall k :: 0 <= k < |delim| ==> delim[k] !in " \\\n)"
  }

  /** The end of a raw string whose body starts at `j`. */
  function RawTail(s: string, j: nat, delim: string): (e: Option<nat>)
    ensures e.Some? ==> j < e.value <= |s| && s[e.value - 1] == '"'
  {
    if !RawDelimiter(delim) then None
    else
      var tail := ")" + delim + "\"";
      match FindFrom(s, j, tail)
      case None => None
      case Some(close) =>
        FindIsFirst(s, j, tail);
        assert StartsAt(s, close, tail) && s[close + (|tail| - 1)] == tail[|tail| - 1];
        Some(close + |tail|)
  }

  /** A raw string whose opening quote is at `q`: the offset after its closing quote. */
  function RawEnd(s: string, q: nat): (e: Option<nat>)
    requires q < |s| && s[q] == '"'
    ensures e.Some? ==> q < e.value <= |s| && s[e.value - 1] == '"'
  {
    match FindFrom(s, q + 1, "(")
    case None => None
    case Some(open) => RawTail(s, open + 1, s[q + 1..open])
  }

  function BlockEnd(s: string): (e: Option<nat>)
    requires |s| >= 2
    ensures e.Some? ==> 4 <= e.value <= |s| && s[e.value - 1] == '/'
  {
    match FindFrom(s, 2, "*/")
    case None => None
    case Some(k) =>
      FindIsFirst(s, 2, "*/");
      assert s[k + 1] == "*/"[1];
      Some(k + 2)
  }

  /** What every lexeme looks like at its two ends. */
  predicate LexemeShape(s: string, l: Lexeme)
  {
    && 0 < l.size <= |s|
    && (l.kind == Blank <==> IsSpace(s[0]))
    && (l.kind == Blank ==> l.size == 1)
    && (l.kind == Token ==> !IsSpace(s[l.size - 1]) && (Sep(s[l.size - 1]) ==> l.size == 1))
    && (l.kind == Comment ==> l.size >= 2 && (s[0] == '/' || s[0] == '-'))
    && (l.kind == Comment && l.size < |s| ==> s[l.size - 1] == '/' || s[l.size] == '\n' || s[l.size] == '\r')
    && (l.kind == Token && s[0] == '\'' ==> l.size >= 2)
  }

  function TokenOf(e: Option<nat>): Option<Lexeme> {
    match e
    case None => None
    case Some(m) => Some(Lexeme(Token, m))
  }

  function CommentOf(e: Option<nat>): Option<Lexeme> {
    match e
    case None => None
    case Some(m) => Some(Lexeme(Comment, m))
  }

  function OneChar(c: char): Lexeme {
    Lexeme(if IsSpace(c) then Blank else Token, 1)
  }

  predicate NumberStart(sc: Scanner, s: string)
    requires s != []
  {
    sc.IsDigit(s[0]) || (s[0] == '.' && |s| > 1 && sc.IsDigit(s[1]))
  }

  /** An identifier, or a raw string together with the prefix it is glued to. */
  function WordLexeme(sc: Scanner, s: string): (r: Option<Lexeme>)
    requires s != [] && IdentStart(s[0])
    ensures r.Some? ==> LexemeShape(s, r.value)
  {
    hide RawEnd, RawPrefix, IdentEnd;
    var e := IdentEnd(s, 1);
    if !sc.Plain() && RawPrefix(s[..e]) && e < |s| && s[e] == '"'
    then TokenOf(RawEnd(s, e))
    else Some(Lexeme(Token, e))
  }

  /** The first lexeme of a C-family text; `None` is a ScanError. */
  function CNext(sc: Scanner, s: string): (r: Option<Lexeme>)
    requires s != []
    ensures r.Some? ==> LexemeShape(s, r.value)
  {
    if |s| >= 2 && s[0] == '/' && s[1] == '/' then
      Some(Lexeme(Comment, TrimReturn(s, LineEnd(s, 2))))
    else if |s| >= 2 && s[0] == '/' && s[1] == '*' then
      CommentOf(BlockEnd(s))
    else if s[0] == '"' || s[0] == '\'' then
      TokenOf(QuoteEnd(s, 1, s[0]))
    else if NumberStart(sc, s) then
      Some(Lexeme(Token, NumberEnd(sc, s, 1)))
    else if IdentStart(s[0]) then
      WordLexeme(sc, s)
    else
      Some(OneChar(s[0]))
  }

  /** The first lexeme of an SQL text. */
  function SqlNext(s: string): (r: Option<Lexeme>)
    requires s != []
    ensures r.Some? ==> LexemeShape(s, r.value)
  {
    if |s| >= 2 && s[0] == '-' && s[1] == '-' then
      Some(Lexeme(Comment, DashEnd(s)))
    else if |s| >= 2 && s[0] == '/' && s[1] == '*' then
      CommentOf(BlockEnd(s))
    else if s[0] == '\'' || s[0] == '"' || s[0] == '`' then
      TokenOf(SqlQuoteEnd(s, 1, s[0]))
    else
      Some(OneChar(s[0]))
  }

  function Next(sc: Scanner, s: string): (r: Option<Lexeme>)
    requires s != []
    ensures r.Some? ==> 0 < r.value.size <= |s| && LexemeShape(s, r.value)
  {
    if sc.language == Sql then SqlNext(s) else CNext(sc, s)
  }

  // ----- a whole text -----

  datatype Tag = Void | First | Rest | CommentFirst | CommentRest

  /** One character with its place in the lexeme that holds it; `Void` is white space. */
  datatype Cell = Cell(ch: char, tag: Tag) {
    predicate IsComment() { tag == CommentFirst || tag == CommentRest }
    predicate IsSolid() { tag == First || tag == Rest }
  }

  function TagAt(kind: Kind, first: bool): Tag {
    match kind
    case Blank => Void
    case Token => if first then First else Rest
    case Comment => if first then CommentFirst else CommentRest
  }

  function CellsOf(s: string, l: Lexeme): (cells: seq<Cell>)
    requires l.size <= |s|
    ensures |cells| == l.size
    ensures forall k :: 0 <= k < l.size ==> cells[k] == Cell(s[k], TagAt(l.kind, k == 0))
  {
    seq(l.size, k requires 0 <= k < l.size => Cell(s[k], TagAt(l.kind, k == 0)))
  }

  /** The labelled text; `None` when some lexeme cannot be completed. */
  function Lex(sc: Scanner, s: string): (r: Option<seq<Cell>>)
    ensures r.Some? ==> |r.value| == |s| && TextOf(r.value) == s
    decreases |s|
  {
    hide Next, LexemeShape, CellsOf, TextOf;
    if s == [] then assert TextOf([]) == s; Some([])
    else
      match Next(sc, s)
      case None => None
      case Some(l) =>
        match Lex(sc, s[l.size..])
        case None => None
        case Some(rest) =>
          LexemeText(s, l, rest);
          Some(CellsOf(s, l) + rest)
  }

  lemma LexemeText(s: string, l: Lexeme, rest: seq<Cell>)
    requires l.size <= |s| && TextOf(rest) == s[l.size..]
    ensures |CellsOf(s, l) + rest| == |s| && TextOf(CellsOf(s, l) + rest) == s
  {
    var cells := CellsOf(s, l) + rest;
    forall k | 0 <= k < |s|
      ensures cells[k].ch == s[k]
    {
      assert k >= l.size ==> cells[k] == rest[k - l.size] && TextOf(rest)[k - l.size] == s[k];
    }
  }

  function TextOf(cells: seq<Cell>): (s: string)
    ensures |s| == |cells|
    ensures forall k :: 0 <= k < |s| ==> s[k] == cells[k].ch
  {
    seq(|cells|, k requires 0 <= k < |cells| => cells[k].ch)
  }
}
