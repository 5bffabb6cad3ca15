/**
  * What the shell's quoting means, told without the automaton: a grammar of scripts, their text and
  * their comments. Scanning the text of any script of the grammar reports exactly its comments.
  */
module ShellGrammar {
  import opened Text
  import opened Lexer
  import opened Scan
  import opened Shell

  /** What opens and closes around a nested part. */
  datatype Opening = DoubleQuote | Backquote | Subst | Params | Math | MathCommand | Group

  datatype Style = Bare | Escaped | SingleQuoted | DoubleQuoted

  datatype Script = Done | Then(piece: Piece, next: Script)

  datatype Piece =
    | Plain(s: string)
    | Dollar(c: char)                   // a dollar sign that opens nothing, and the character after it
    | Esc(c: char)
    | Hash                              // a hash sign inside a word
    | Single(s: string)
    | Ansi(s: string)                   // $'...'
    | Note(s: string)                   // a comment, without its hash sign
    | Less(c: char)                     // a redirection and the blank after it
    | Herestring
    | Apostrophe                        // in `${...}` between double quotes
    | Paren                             // the parenthesis behind a pattern
    | Case(inner: Script)               // from `case` to `esac`
    | Nest(opening: Opening, inner: Script)
    | Here(dash: bool, style: Style, delim: string, rest: Script, body: seq<string>)

  // ----- the text -----

  function Opens(o: Opening): string {
    match o
    case DoubleQuote => "\""
    case Backquote => "`"
    case Subst => "$("
    case Params => "${"
    case Math => "$(("
    case MathCommand => "(("
    case Group => "("
  }

  function Ends(o: Opening): string {
    match o
    case DoubleQuote => "\""
    case Backquote => "`"
    case Subst => ")"
    case Params => "}"
    case Math => "))"
    case MathCommand => "))"
    case Group => ")"
  }

  function Quoted(style: Style, delim: string): string {
    match style
    case Bare => delim
    case Escaped => "\\" + delim
    case SingleQuoted => "'" + delim + "'"
    case DoubleQuoted => "\"" + delim + "\""
  }

  predicate Unquoted(style: Style) {
    style == Bare || style == Escaped
  }

  function HereHead(dash: bool, style: Style, delim: string): string {
    "<<" + (if dash then "-" else "") + Quoted(style, delim)
  }

  /** The lines of a here-document and the one that closes it. */
  function DocText(body: seq<string>, delim: string): string
    decreases |body|
  {
    if body == [] then delim + "\n" else body[0] + "\n" + DocText(body[1..], delim)
  }

  function Print(p: Piece): string
    decreases p
  {
    match p
    case Plain(s) => s
    case Dollar(c) => "$" + [c]
    case Esc(c) => "\\" + [c]
    case Hash => "#"
    case Single(s) => "'" + s + "'"
    case Ansi(s) => "$'" + s + "'"
    case Note(s) => "#" + s
    case Less(c) => "<" + [c]
    case Herestring => "<<<"
    case Apostrophe => "'"
    case Paren => ")"
    case Case(inner) => "case" + PrintAll(inner) + "esac"
    case Nest(o, inner) => Opens(o) + PrintAll(inner) + Ends(o)
    case Here(dash, style, delim, rest, body) =>
      HereHead(dash, style, delim) + PrintAll(rest) + "\n" + DocText(body, delim)
  }

  function PrintAll(x: Script): string
    decreases x
  {
    match x
    case Done => ""
    case Then(p, next) => Print(p) + PrintAll(next)
  }

  // ----- the comments -----

  function Notes(p: Piece, i: nat): seq<Span>
    decreases p
  {
    match p
    case Note(s) => [(i, i + 1 + |s|)]
    case Case(inner) => NotesAll(inner, i + 4)
    case Nest(o, inner) => NotesAll(inner, i + |Opens(o)|)
    case Here(dash, style, delim, rest, _) => NotesAll(rest, i + |HereHead(dash, style, delim)|)
    case _ => []
  }

  function NotesAll(x: Script, i: nat): seq<Span>
    decreases x
  {
    match x
    case Done => []
    case Then(p, next) => Notes(p, i) + NotesAll(next, i + |Print(p)|)
  }

  // ----- which scripts are well formed -----

  predicate IsCommand(kind: FrameKind) {
    kind == Code || kind == Cmd || kind == Bq
  }

  /** Characters that stand for themselves. */
  predicate Ordinary(c: char, kind: FrameKind) {
    match kind
    case Dq => c !in "\\\"$`"
    case Param => c !in "\\}'\"$"
    case Arith => c !in "()$"
    case _ => c !in "#\\'\"`$<()"
  }

  /** The characters after which a word is a command. */
  predicate Breaks(c: char) {
    c in " \t\n;&|()<>"
  }

  predicate OrdinaryText(s: string, kind: FrameKind) {
    && (forall k :: 0 <= k < |s| ==> Ordinary(s[k], kind))
    && (IsCommand(kind) ==> forall k: nat :: k < |s| ==> !StartsAt(s, k, "case") && !StartsAt(s, k, "esac"))
  }

  /** Every quote is behind a backslash, and every backslash is before a character. */
  predicate AnsiBody(s: string) {
    s == "" || (if s[0] == '\\' then |s| > 1 && AnsiBody(s[2..]) else s[0] != '\'' && AnsiBody(s[1..]))
  }

  function First(s: string, next: Option<char>): Option<char> {
    if s == "" then next else Some(s[0])
  }

  predicate NoBreak(s: string) {
    forall k :: 0 <= k < |s| ==> s[k] != '\n'
  }

  predicate LetterOrDigit(c: char) {
    'A' <= c <= 'Z' || 'a' <= c <= 'z' || '0' <= c <= '9' || c == '_'
  }

  /** What a delimiter is written with: visible ASCII characters that mean nothing to the shell's words. */
  predicate DelimLetter(c: char) {
    '!' <= c <= '~' && c !in ";&|<>()'\"\\"
  }

  predicate IsDelim(s: string) {
    s != "" && s[0] != '-' && forall k :: 0 <= k < |s| ==> DelimLetter(s[k])
  }

  /** The line does not close the document: it is not the delimiter, with tabs before and returns behind. */
  ghost predicate IsDocLine(l: string, dash: bool, delim: string) {
    && NoBreak(l)
    && forall a, b :: 0 <= a <= b <= |l| && l[a..b] == delim ==>
         (exists k :: 0 <= k < a && (l[k] != '\t' || !dash)) || (exists k :: b <= k < |l| && l[k] != '\r')
  }

  /** The frame in which a nested part is read; a group stays in its own. */
  function Inside(o: Opening, kind: FrameKind): FrameKind {
    match o
    case DoubleQuote => Dq
    case Backquote => Bq
    case Subst => Cmd
    case Params => Param
    case Math => Arith
    case MathCommand => Arith
    case Group => kind
  }

  /** Whether a nested part may stand in a frame. */
  predicate MayOpen(o: Opening, kind: FrameKind, sep: bool, inner: string) {
    match kind
    case Dq => o == Backquote || o == Subst || o == Params || o == Math
    case Param => o == DoubleQuote || o == Subst || o == Params || o == Math
    case Arith => o == Subst || o == Params || o == Group
    case _ =>
      match o
      case Backquote => kind != Bq
      case MathCommand => sep
      case Group => sep ==> inner == "" || inner[0] != '('
      case _ => true
  }

  /** A command substitution is no arithmetic. */
  predicate Opened(o: Opening, kind: FrameKind, sep: bool, inner: string) {
    MayOpen(o, kind, sep, inner) && (o == Subst ==> inner == "" || inner[0] != '(')
  }

  function SepInside(o: Opening, kind: FrameKind, sep: bool): bool {
    match o
    case Subst => true
    case Backquote => true
    case Group => if IsCommand(kind) then true else sep
    case _ => if IsCommand(kind) then false else sep
  }

  /** Whether a comment may start after the piece. */
  function SepAfter(p: Piece, kind: FrameKind, sep: bool): bool
    decreases p
  {
    match p
    case Plain(s) => if s == "" || !IsCommand(kind) then sep else Breaks(s[|s| - 1])
    case Dollar(c) => if IsCommand(kind) then Breaks(c) else sep
    case Note(_) => sep
    case Less(_) => true
    case Herestring => true
    case Paren => true
    case Here(_, _, _, _, _) => true
    case Nest(o, inner) =>
      if o != Group then false else if IsCommand(kind) then true else SepAfterAll(inner, kind, sep)
    case _ => if IsCommand(kind) then false else sep
  }

  function SepAfterAll(x: Script, kind: FrameKind, sep: bool): bool
    decreases x
  {
    match x
    case Done => sep
    case Then(p, next) => SepAfterAll(next, kind, SepAfter(p, kind, sep))
  }

  /**
    * Where a piece stands: the frame and the one below, whether a here-document starts at the next
    * newline, the groups open in the frame and its open `case` words.
    */
  datatype Place = Place(kind: FrameKind, under: FrameKind, busy: bool, level: int, cases: nat)

  predicate CountsGroups(kind: FrameKind) {
    kind == Cmd || kind == Arith
  }

  function Inner(o: Opening, x: Place): Place {
    if o != Group then Place(Inside(o, x.kind), x.kind, x.busy, 0, 0)
    else if CountsGroups(x.kind) then x.(level := x.level + 1)
    else x
  }

  /** A piece that may stand in a place; `next` is the character that follows. */
  ghost predicate Fits(p: Piece, x: Place, sep: bool, next: Option<char>)
    decreases p
  {
    var kind, command := x.kind, IsCommand(x.kind);
    match p
    case Plain(s) =>
      && OrdinaryText(s, kind) && (x.busy ==> NoBreak(s))
      && (command && next.Some? && s != "" ==> !LetterOrDigit(s[|s| - 1]) || !LetterOrDigit(next.value))
    case Dollar(c) => Ordinary(c, kind) && c != '(' && c != '{' && (x.busy ==> c != '\n')
    case Esc(_) => kind != Arith
    case Hash => command && !sep
    case Single(s) => (command || (kind == Param && x.under != Dq)) && '\'' !in s
    case Ansi(s) => command && AnsiBody(s)
    case Note(s) =>
      && command && sep && NoBreak(s) && (s != "" ==> s[|s| - 1] != '\r') && (kind == Bq ==> '`' !in s)
      && (next.None? || next.value == '\n' || (kind == Bq && next.value == '`'))
    case Less(c) => command && (c == ' ' || c == '\t')
    case Herestring => command
    case Apostrophe => kind == Param && x.under == Dq
    case Paren => command && (kind == Cmd ==> x.level == 0 && x.cases > 0)
    case Case(inner) =>
      && command && sep && PrintAll(inner) != "" && Breaks(PrintAll(inner)[0])
      && FitsAll(inner, x.(cases := x.cases + 1), false, Some('e')) && SepAfterAll(inner, kind, false)
      && (next.None? || Breaks(next.value))
    case Nest(o, inner) =>
      Opened(o, kind, sep, PrintAll(inner)) && FitsAll(inner, Inner(o, x), SepInside(o, kind, sep), Some(Ends(o)[0]))
    case Here(dash, style, delim, rest, body) =>
      && command && !x.busy && IsDelim(delim)
      && (PrintAll(rest) == "" || (Unquoted(style) ==> PrintAll(rest)[0] in " \t;&|>"))
      && FitsAll(rest, x.(busy := true), false, Some('\n'))
      && forall k :: 0 <= k < |body| ==> IsDocLine(body[k], dash, delim)
  }

  ghost predicate FitsAll(x: Script, at: Place, sep: bool, next: Option<char>)
    decreases x
  {
    match x
    case Done => true
    case Then(p, more) =>
      Fits(p, at, sep, First(PrintAll(more), next)) && FitsAll(more, at, SepAfter(p, at.kind, sep), next)
  }

  // ----- single moves -----

  /** One step of the run. */
  lemma {:induction false} Moves(text: string, i: nat, c: Core, m: Move)
    requires Valid(c) && i < |text| && Step(text[i..], i == 0, c) == Some(m)
    ensures Run(text, i, c) == Prefixed(Found(i, m), Run(text, i + m.advance, m.core))
    ensures m.comment == 0 ==> Run(text, i, c) == Run(text, i + m.advance, m.core)
  {
    hide Step;
    var r := Run(text, i + m.advance, m.core);
    assert r.Some? ==> [] + r.value.0 == r.value.0;
  }

  lemma PrefixedNothing(r: Option<(seq<Span>, Core)>)
    ensures Prefixed([], r) == r
  {
    assert r.Some? ==> [] + r.value.0 == r.value.0;
  }

  /** The openers that the steps look for. */
  lemma Openers(u: string)
    requires u != ""
    ensures StartsAt(u, 0, "$'") <==> |u| >= 2 && u[0] == '$' && u[1] == '\''
    ensures StartsAt(u, 0, "$((") <==> |u| >= 3 && u[0] == '$' && u[1] == '(' && u[2] == '('
    ensures StartsAt(u, 0, "((") <==> |u| >= 2 && u[0] == '(' && u[1] == '('
    ensures StartsAt(u, 0, "$(") <==> |u| >= 2 && u[0] == '$' && u[1] == '('
    ensures StartsAt(u, 0, "${") <==> |u| >= 2 && u[0] == '$' && u[1] == '{'
    ensures StartsAt(u, 0, "))") <==> |u| >= 2 && u[0] == ')' && u[1] == ')'
    ensures StartsAt(u, 0, "<<<") <==> |u| >= 3 && u[0] == '<' && u[1] == '<' && u[2] == '<'
    ensures StartsAt(u, 0, "<<") <==> |u| >= 2 && u[0] == '<' && u[1] == '<'
  {
    Pair(u, '$', '\'');
    Pair(u, '(', '(');
    Pair(u, '$', '(');
    Pair(u, '$', '{');
    Pair(u, ')', ')');
    Pair(u, '<', '<');
    Triple(u, '$', '(', '(');
    Triple(u, '<', '<', '<');
    assert ['$', '\''] == "$'" && ['(', '('] == "((" && ['$', '('] == "$(" && ['$', '{'] == "${" && [')', ')'] == "))";
    assert ['<', '<'] == "<<" && ['$', '(', '('] == "$((" && ['<', '<', '<'] == "<<<";
  }

  lemma Pair(u: string, a: char, b: char)
    requires u != ""
    ensures StartsAt(u, 0, [a, b]) <==> |u| >= 2 && u[0] == a && u[1] == b
  {
    var pat := [a, b];
    assert |u| >= 2 ==> u[0 + 0] == u[0] && u[0 + 1] == u[1];
    assert pat[0] == a && pat[1] == b;
  }

  lemma Triple(u: string, a: char, b: char, c: char)
    requires u != ""
    ensures StartsAt(u, 0, [a, b, c]) <==> |u| >= 3 && u[0] == a && u[1] == b && u[2] == c
  {
    var pat := [a, b, c];
    assert |u| >= 3 ==> u[0 + 0] == u[0] && u[0 + 1] == u[1] && u[0 + 2] == u[2];
    assert pat[0] == a && pat[1] == b && pat[2] == c;
  }

  /** A separator is one of the characters after which a word is a command. */
  lemma BreaksIs(c: char)
    ensures Separator(c) == Breaks(c)
  {
  }

  // ----- ordinary characters -----

  lemma {:induction false} OrdinaryStep(u: string, first: bool, c: Core)
    requires Valid(c) && u != "" && Ordinary(u[0], Top(c).kind) && (c.pending != [] ==> u[0] != '\n')
    requires IsCommand(Top(c).kind) && c.sep ==> WordLen(u) == 0
    ensures Step(u, first, c)
         == Some(Move(if IsCommand(Top(c).kind) then c.(sep := Breaks(u[0])) else c, 1, 0))
  {
    hide StartsAt, WordLen;
    Openers(u);
    BreaksIs(u[0]);
  }

  lemma {:induction false} WordRun(u: string, j: nat)
    requires 0 < j <= |u|
    ensures forall k :: j <= k < IdentEnd(u, j) ==> LetterOrDigit(u[k])
    decreases |u| - j
  {
    if j < |u| && IdentChar(u[j]) {
      WordRun(u, j + 1);
    }
  }

  /** No word goes on from the one text into the other. */
  predicate Apart(s: string, rest: string) {
    s != "" && rest != "" ==> !LetterOrDigit(s[|s| - 1]) || !LetterOrDigit(rest[0])
  }

  /** A word of ordinary text ends with it. */
  lemma {:induction false} WordInside(s: string, rest: string)
    requires s != "" && Apart(s, rest) && WordLen(s + rest) > 0
    ensures WordLen(s + rest) <= |s| && !Breaks(s[WordLen(s + rest) - 1])
  {
    var u := s + rest;
    var n := WordLen(u);
    WordRun(u, 1);
    assert rest != "" ==> u[|s|] == rest[0];
    assert u[0] == s[0] && u[|s| - 1] == s[|s| - 1];
    assert IdentStart(u[0]) && LetterOrDigit(u[0]);
    assert n <= |s|;
    assert u[n - 1] == s[n - 1];
    assert LetterOrDigit(s[n - 1]);
  }

  lemma {:induction false} WordMove(u: string, first: bool, c: Core)
    requires Valid(c) && u != "" && IsCommand(Top(c).kind) && c.sep && WordLen(u) > 0
    requires u[..WordLen(u)] != "case" && u[..WordLen(u)] != "esac"
    ensures Step(u, first, c) == Some(Move(c.(sep := false), WordLen(u), 0))
  {
    hide StartsAt;
    Openers(u);
    assert IdentStart(u[0]);
    assert c.frames[|c.frames| - 1 := Top(c)] == c.frames;
  }

  lemma {:induction false} NoCaseWord(s: string, rest: string, n: nat)
    requires n <= |s| && OrdinaryText(s, Code)
    ensures (s + rest)[..n] != "case" && (s + rest)[..n] != "esac"
  {
    var u := s + rest;
    assert u[..n] == s[..n];
    if u[..n] == "case" {
      assert forall t :: 0 <= t < 4 ==> s[0 + t] == "case"[t];
      assert StartsAt(s, 0, "case");
    }
    if u[..n] == "esac" {
      assert forall t :: 0 <= t < 4 ==> s[0 + t] == "esac"[t];
      assert StartsAt(s, 0, "esac");
    }
  }

  lemma {:induction false} TextTail(s: string, kind: FrameKind, n: nat)
    requires n <= |s| && OrdinaryText(s, kind)
    ensures OrdinaryText(s[n..], kind)
  {
    hide StartsAt;
    var t := s[n..];
    forall k: nat | k < |t| && IsCommand(kind)
      ensures !StartsAt(t, k, "case") && !StartsAt(t, k, "esac")
    {
      Later(s, t, n, k, "case");
      Later(s, t, n, k, "esac");
    }
  }

  lemma {:induction false} Later(s: string, t: string, n: nat, k: nat, pat: string)
    requires n <= |s| && t == s[n..]
    ensures StartsAt(t, k, pat) ==> StartsAt(s, n + k, pat)
  {
    if StartsAt(t, k, pat) {
      forall i | 0 <= i < |pat|
        ensures s[n + k + i] == pat[i]
      {
        assert t[k + i] == s[n + k + i];
      }
    }
  }

  function PlainSep(s: string, kind: FrameKind, sep: bool): bool {
    if s == "" || !IsCommand(kind) then sep else Breaks(s[|s| - 1])
  }

  /** The first step in ordinary text: a word, or one character. */
  lemma {:induction false} PlainMove(u: string, first: bool, c: Core, s: string, rest: string) returns (n: nat, sep: bool)
    requires Valid(c) && s != "" && u == s + rest && OrdinaryText(s, Top(c).kind)
    requires c.pending != [] ==> NoBreak(s)
    requires IsCommand(Top(c).kind) ==> Apart(s, rest)
    ensures 0 < n <= |s| && Step(u, first, c) == Some(Move(c.(sep := sep), n, 0))
    ensures sep == if IsCommand(Top(c).kind) then Breaks(s[n - 1]) else c.sep
  {
    hide Step, StartsAt, OrdinaryText, WordLen, Ordinary;
    var kind := Top(c).kind;
    assert u[0] == s[0] && Ordinary(s[0], kind) by { FirstOrdinary(s, kind); }
    if IsCommand(kind) && c.sep && WordLen(u) > 0 {
      WordInside(s, rest);
      n, sep := WordLen(u), false;
      NoCaseWord(s, rest, n) by { TextCode(s, kind); }
      WordMove(u, first, c);
    } else {
      OrdinaryStep(u, first, c);
      n, sep := 1, if IsCommand(kind) then Breaks(u[0]) else c.sep;
      assert c.(sep := c.sep) == c;
    }
  }

  lemma {:induction false} RunPlain(text: string, i: nat, c: Core, s: string, rest: string)
    requires Valid(c) && i <= |text| && text[i..] == s + rest && OrdinaryText(s, Top(c).kind)
    requires c.pending != [] ==> NoBreak(s)
    requires IsCommand(Top(c).kind) ==> Apart(s, rest)
    ensures Run(text, i, c) == Run(text, i + |s|, c.(sep := PlainSep(s, Top(c).kind, c.sep)))
    decreases |s|
  {
    hide Step, StartsAt, Run, OrdinaryText, LetterOrDigit, Breaks;
    if s == "" {
      assert c.(sep := c.sep) == c;
    } else {
      var n, sep := PlainMove(text[i..], i == 0, c, s, rest);
      var c', t := c.(sep := sep), s[n..];
      Moves(text, i, c, Move(c', n, 0));
      Rests(text, i, s, rest, n);
      TextTail(s, Top(c).kind, n);
      RunPlain(text, i + n, c', t, rest);
      assert t != "" ==> t[|t| - 1] == s[|s| - 1];
    }
  }

  lemma {:induction false} Rests(text: string, i: nat, s: string, rest: string, n: nat)
    requires i <= |text| && text[i..] == s + rest && n <= |s|
    ensures i + n <= |text| && text[i + n..] == s[n..] + rest
  {
    assert text[i + n..] == text[i..][n..];
  }

  lemma TextCode(s: string, kind: FrameKind)
    requires OrdinaryText(s, kind) && IsCommand(kind)
    ensures OrdinaryText(s, Code)
  {
    hide StartsAt;
  }

  lemma FirstOrdinary(s: string, kind: FrameKind)
    requires s != "" && OrdinaryText(s, kind)
    ensures Ordinary(s[0], kind)
  {
    hide StartsAt;
  }

  // ----- the other pieces that hold no part -----

  /** In front of a piece that a command frame passes without a comment. */
  lemma {:induction false} DollarStep(u: string, first: bool, c: Core)
    requires Valid(c) && |u| >= 2 && u[0] == '$' && u[1] != '(' && u[1] != '{'
    requires IsCommand(Top(c).kind) ==> u[1] != '\''
    ensures Step(u, first, c) == Some(Move(if IsCommand(Top(c).kind) then c.(sep := false) else c, 1, 0))
  {
    hide StartsAt;
    Openers(u);
  }

  lemma {:induction false} RunDollar(text: string, i: nat, c: Core, ch: char, rest: string)
    requires Valid(c) && i <= |text| && text[i..] == "$" + [ch] + rest
    requires Ordinary(ch, Top(c).kind) && ch != '(' && ch != '{' && (c.pending != [] ==> ch != '\n')
    ensures Run(text, i, c) == Run(text, i + 2, if IsCommand(Top(c).kind) then c.(sep := Breaks(ch)) else c)
  {
    hide Step, Run;
    var u, command := text[i..], IsCommand(Top(c).kind);
    var c1 := if command then c.(sep := false) else c;
    assert u[0] == '$' && u[1] == ch;
    DollarStep(u, i == 0, c);
    Moves(text, i, c, Move(c1, 1, 0));
    var v := text[i + 1..];
    assert v == [ch] + rest by { assert v == u[1..]; }
    OrdinaryStep(v, false, c1);
    Moves(text, i + 1, c1, Move(if command then c1.(sep := Breaks(ch)) else c1, 1, 0));
  }

  lemma {:induction false} EscStep(u: string, first: bool, c: Core)
    requires Valid(c) && u != "" && u[0] == '\\' && Top(c).kind != Arith
    ensures Step(u, first, c) == Some(Move(if IsCommand(Top(c).kind) then c.(sep := false) else c, 2, 0))
  {
    hide StartsAt;
  }

  lemma {:induction false} HashStep(u: string, first: bool, c: Core)
    requires Valid(c) && u != "" && u[0] == '#' && IsCommand(Top(c).kind) && !c.sep
    ensures Step(u, first, c) == Some(Move(c, 1, 0))
  {
    hide StartsAt;
    Openers(u);
    assert c.(sep := false) == c;
  }

  lemma {:induction false} LessStep(u: string, first: bool, c: Core)
    requires Valid(c) && |u| >= 2 && u[0] == '<' && u[1] != '<' && IsCommand(Top(c).kind)
    ensures Step(u, first, c) == Some(Move(c.(sep := true), 1, 0))
  {
    hide StartsAt;
    Openers(u);
  }

  lemma {:induction false} BlankStep(u: string, first: bool, c: Core)
    requires Valid(c) && u != "" && (u[0] == ' ' || u[0] == '\t') && IsCommand(Top(c).kind)
    ensures Step(u, first, c) == Some(Move(c.(sep := true), 1, 0))
  {
    hide Step;
    OrdinaryStep(u, first, c);
  }

  lemma {:induction false} HerestringStep(u: string, first: bool, c: Core)
    requires Valid(c) && |u| >= 3 && u[0] == '<' && u[1] == '<' && u[2] == '<' && IsCommand(Top(c).kind)
    ensures Step(u, first, c) == Some(Move(c.(sep := true), 3, 0))
  {
    hide StartsAt, Heredoc;
    Openers(u);
  }

  // ----- quotes -----

  lemma {:induction false} QuoteFound(u: string, j: nat, n: nat)
    requires j <= n < |u| && u[n] == '\'' && forall k :: j <= k < n ==> u[k] != '\''
    ensures AfterQuote(u, j) == Some(n + 1)
    decreases n - j
  {
    if j < n {
      QuoteFound(u, j + 1, n);
    }
  }

  lemma {:induction false} SingleStep(u: string, first: bool, c: Core, s: string, rest: string)
    requires Valid(c) && u == "'" + s + "'" + rest && '\'' !in s
    requires IsCommand(Top(c).kind) || (Top(c).kind == Param && |c.frames| >= 2 && c.frames[|c.frames| - 2].kind != Dq)
    ensures Step(u, first, c) == Some(Move(if IsCommand(Top(c).kind) then c.(sep := false) else c, |s| + 2, 0))
  {
    hide StartsAt, AfterQuote;
    Openers(u);
    assert u[0] == '\'' && u[|s| + 1] == '\'' && forall k :: 1 <= k < |s| + 1 ==> u[k] == s[k - 1];
    QuoteFound(u, 1, |s| + 1);
  }

  lemma {:induction false} ApostropheStep(u: string, first: bool, c: Core)
    requires Valid(c) && u != "" && u[0] == '\'' && Top(c).kind == Param
    requires |c.frames| >= 2 && c.frames[|c.frames| - 2].kind == Dq
    ensures Step(u, first, c) == Some(Move(c, 1, 0))
  {
    hide StartsAt;
    Openers(u);
  }

  lemma {:induction false} AnsiFound(u: string, j: nat, s: string, rest: string)
    requires j <= |u| && u[j..] == s + "'" + rest && AnsiBody(s)
    ensures AfterAnsiQuote(u, j) == Some(j + |s| + 1)
    decreases |s|
  {
    var v := u[j..];
    assert u[j] == v[0];
    if s != "" {
      var n := if s[0] == '\\' then 2 else 1;
      assert u[j + n..] == v[n..] == s[n..] + "'" + rest;
      assert v[0] == s[0];
      AnsiFound(u, j + n, s[n..], rest);
    }
  }

  lemma {:induction false} AnsiStep(u: string, first: bool, c: Core, s: string, rest: string)
    requires Valid(c) && u == "$'" + s + "'" + rest && AnsiBody(s) && IsCommand(Top(c).kind)
    ensures Step(u, first, c) == Some(Move(c.(sep := false), |s| + 3, 0))
  {
    hide StartsAt, AfterAnsiQuote;
    Openers(u);
    assert u[2..] == s + "'" + rest;
    AnsiFound(u, 2, s, rest);
  }

  // ----- comments -----

  lemma {:induction false} NoteStop(u: string, s: string, rest: string, kind: FrameKind)
    requires u == "#" + s + rest && NoBreak(s) && (s != "" ==> s[|s| - 1] != '\r') && (kind == Bq ==> '`' !in s)
    requires rest == "" || rest[0] == '\n' || (kind == Bq && rest[0] == '`')
    ensures CommentStop(u, kind) == |s| + 1
  {
    hide NewlineOrEnd, EndOfLine, TickOr;
    EndOfFirstLine(u);
    var n, j := |s| + 1, NewlineOrEnd(u);
    assert forall k :: 0 < k < n ==> u[k] == s[k - 1];
    assert rest != "" ==> u[n] == rest[0];
    assert j >= n;
  }

  lemma {:induction false} NoteStep(u: string, first: bool, c: Core, s: string, rest: string)
    requires Valid(c) && IsCommand(Top(c).kind) && c.sep && !(first && StartsAt(u, 0, "#!"))
    requires u == "#" + s + rest && NoBreak(s) && (s != "" ==> s[|s| - 1] != '\r') && (Top(c).kind == Bq ==> '`' !in s)
    requires rest == "" || rest[0] == '\n' || (Top(c).kind == Bq && rest[0] == '`')
    ensures Step(u, first, c) == Some(Move(c, |s| + 1, |s| + 1))
  {
    hide StartsAt, CommentStop;
    NoteStop(u, s, rest, Top(c).kind);
  }

  // ----- nested parts -----

  /** The state in which a nested part is read. */
  function Enter(o: Opening, c: Core): (r: Core)
    requires Valid(c)
    ensures Valid(r)
  {
    var kind, f := Top(c).kind, Top(c);
    var inside :=
      if o != Group then Push(c, Inside(o, kind))
      else if CountsGroups(kind) then SetTop(c, f.(depth := f.depth + 1))
      else c;
    inside.(sep := SepInside(o, kind, c.sep))
  }

  lemma {:induction false} EnterStep(u: string, first: bool, c: Core, o: Opening, inner: string, rest: string)
    requires Valid(c) && u == Opens(o) + (inner + Ends(o) + rest) && Opened(o, Top(c).kind, c.sep, inner)
    ensures Step(u, first, c) == Some(Move(Enter(o, c), |Opens(o)|, 0))
  {
    hide StartsAt;
    var v := inner + Ends(o) + rest;
    assert v != "" && v[0] == if inner == "" then Ends(o)[0] else inner[0];
    assert u[|Opens(o)|] == v[0];
    Openers(u);
    if IsCommand(Top(c).kind) {
      EnterCommand(u, first, c, o, v);
    } else {
      EnterOther(u, first, c, o, v);
    }
  }

  lemma {:induction false} EnterCommand(u: string, first: bool, c: Core, o: Opening, v: string)
    requires Valid(c) && v != "" && u == Opens(o) + v && IsCommand(Top(c).kind)
    requires o == Backquote ==> Top(c).kind != Bq
    requires o == MathCommand ==> c.sep
    requires o == Subst ==> v[0] != '('
    requires o == Group && c.sep ==> v[0] != '('
    ensures Step(u, first, c) == Some(Move(Enter(o, c), |Opens(o)|, 0))
  {
    hide StartsAt;
    Openers(u);
    match o
    case Group => assert u[1] == v[0];
    case Subst => assert u[2] == v[0];
    case _ =>
  }

  lemma {:induction false} EnterOther(u: string, first: bool, c: Core, o: Opening, v: string)
    requires Valid(c) && v != "" && u == Opens(o) + v && !IsCommand(Top(c).kind)
    requires MayOpen(o, Top(c).kind, c.sep, "") && (o == Subst ==> v[0] != '(')
    ensures Step(u, first, c) == Some(Move(Enter(o, c), |Opens(o)|, 0))
  {
    hide StartsAt;
    Openers(u);
    match o
    case Subst => assert u[2] == v[0];
    case _ =>
  }

  /** Whether a comment may start after a nested part. */
  function SepBehind(o: Opening, kind: FrameKind, sep: bool): bool {
    if o != Group then false else if IsCommand(kind) then true else sep
  }

  lemma {:induction false} LeaveStep(u: string, c: Core, o: Opening, sep: bool, rest: string)
    requires Valid(c) && u == Ends(o) + rest && Top(c).depth >= 0
    requires o == Group ==> IsCommand(Top(c).kind) || Top(c).kind == Arith
    ensures Step(u, false, Enter(o, c).(sep := sep))
         == Some(Move(c.(sep := SepBehind(o, Top(c).kind, sep)), |Ends(o)|, 0))
  {
    hide StartsAt, Step, IsCommand;
    if o == Group {
      LeaveGroup(u, c, sep);
    } else {
      var e, k := Enter(o, c).(sep := sep), Inside(o, Top(c).kind);
      assert e.frames[..|e.frames| - 1] == c.frames && Top(e) == Frame(k, 0, 0);
      CloseFrame(u, e, k);
    }
  }

  /** What closes a frame. */
  function Closer(kind: FrameKind): string {
    match kind
    case Dq => "\""
    case Bq => "`"
    case Cmd => ")"
    case Param => "}"
    case Arith => "))"
    case Code => ""
  }

  lemma {:induction false} CloseFrame(u: string, e: Core, kind: FrameKind)
    requires Valid(e) && Top(e) == Frame(kind, 0, 0) && kind != Code
    requires Closer(kind) <= u
    ensures Step(u, false, e) == Some(Move(Pop(e).(sep := false), |Closer(kind)|, 0))
  {
    hide StartsAt;
    Openers(u);
    assert u[0] == Closer(kind)[0];
  }

  lemma {:induction false} LeaveGroup(u: string, c: Core, sep: bool)
    requires Valid(c) && u != "" && u[0] == ')' && Top(c).depth >= 0 && (IsCommand(Top(c).kind) || Top(c).kind == Arith)
    ensures Step(u, false, Enter(Group, c).(sep := sep))
         == Some(Move(c.(sep := SepBehind(Group, Top(c).kind, sep)), 1, 0))
  {
    hide StartsAt;
    Openers(u);
    var e, f, n := Enter(Group, c).(sep := sep), Top(c), |c.frames| - 1;
    if CountsGroups(f.kind) {
      var g := f.(depth := f.depth + 1);
      assert e.frames == c.frames[n := g] && Top(e) == g;
      assert e.frames[n := g.(depth := g.depth - 1)] == c.frames;
    }
  }

  // ----- here-documents -----

  lemma {:induction false} DelimRuns(s: string, rest: string)
    requires s != "" && (forall k :: 0 <= k < |s| ==> DelimLetter(s[k])) && (rest == "" || rest[0] in " \t\n;&|>")
    ensures DelimLen(s + rest) == |s|
    decreases |s|
  {
    var u := s + rest;
    assert u[0] == s[0] && u[1..] == s[1..] + rest;
    if |s| > 1 {
      DelimRuns(s[1..], rest);
    } else {
      assert s[1..] + rest == rest;
    }
  }

  lemma {:induction false} QuoteRuns(s: string, quote: char, rest: string)
    requires (forall k :: 0 <= k < |s| ==> DelimLetter(s[k])) && (quote == '\'' || quote == '"')
    ensures QuotedLen(s + [quote] + rest, quote) == Some(|s|)
    decreases |s|
  {
    var u := s + [quote] + rest;
    if s != "" {
      assert u[0] == s[0] && u[1..] == s[1..] + [quote] + rest;
      QuoteRuns(s[1..], quote, rest);
    }
  }

  lemma {:induction false} BareDelim(delim: string, rest: string)
    requires IsDelim(delim) && (rest == "" || rest[0] in " \t\n;&|>")
    ensures DelimAt(delim + rest) == Some(Delim(delim, |delim|)) && LeadingBlanks(delim + rest) == 0
  {
    hide DelimLen, QuotedLen;
    var u := delim + rest;
    assert u[0] == delim[0] && DelimLetter(delim[0]) && u[..|delim|] == delim;
    DelimRuns(delim, rest);
  }

  lemma {:induction false} EscapedDelim(delim: string, rest: string)
    requires IsDelim(delim) && (rest == "" || rest[0] in " \t\n;&|>")
    ensures DelimAt("\\" + delim + rest) == Some(Delim(delim, |delim| + 1)) && LeadingBlanks("\\" + delim + rest) == 0
  {
    hide DelimLen, QuotedLen;
    var u := "\\" + delim + rest;
    assert u[0] == '\\' && u[1..] == delim + rest;
    assert u[1..|delim| + 1] == delim;
    DelimRuns(delim, rest);
  }

  lemma {:induction false} QuotedDelim(delim: string, quote: char, rest: string)
    requires IsDelim(delim) && (quote == '\'' || quote == '"')
    ensures
      var u := [quote] + delim + [quote] + rest;
      DelimAt(u) == Some(Delim(delim, |delim| + 2)) && LeadingBlanks(u) == 0
  {
    hide DelimLen, QuotedLen, IsDelim, DelimLetter;
    var u, v := [quote] + delim + [quote] + rest, delim + [quote] + rest;
    QuoteRuns(delim, quote, rest) by { assert IsDelim(delim); DelimLetters(delim); }
    assert u == [quote] + v;
    assert u[1..] == v && u[1..|delim| + 1] == v[..|delim|] == delim;
  }

  lemma DelimLetters(delim: string)
    requires IsDelim(delim)
    ensures delim != "" && delim[0] != '-' && forall k :: 0 <= k < |delim| ==> DelimLetter(delim[k])
  {
  }

  lemma {:induction false} DelimIs(style: Style, delim: string, rest: string)
    requires IsDelim(delim) && (Unquoted(style) ==> rest == "" || rest[0] in " \t\n;&|>")
    ensures
      var v := Quoted(style, delim) + rest;
      && DelimAt(v) == Some(Delim(delim, |Quoted(style, delim)|)) && LeadingBlanks(v) == 0
      && v != "" && v[0] != '<' && v[0] != '-'
  {
    hide DelimAt, LeadingBlanks, IsDelim;
    DelimLetters(delim);
    match style
    case Bare => BareDelim(delim, rest);
    case Escaped => EscapedDelim(delim, rest);
    case SingleQuoted => QuotedDelim(delim, '\'', rest); assert "'" == ['\''];
    case DoubleQuoted => QuotedDelim(delim, '"', rest); assert "\"" == ['"'];
  }

  lemma {:induction false} HeredocIs(dash: bool, style: Style, delim: string, rest: string)
    requires IsDelim(delim) && (Unquoted(style) ==> rest == "" || rest[0] in " \t\n;&|>")
    ensures
      var u := HereHead(dash, style, delim) + rest;
      |u| >= 3 && u[0] == '<' && u[1] == '<' && u[2] != '<'
      && Heredoc(u) == Some((Doc(delim, dash), |HereHead(dash, style, delim)|))
  {
    hide DelimAt, LeadingBlanks, Quoted, IsDelim;
    var u, v := HereHead(dash, style, delim) + rest, Quoted(style, delim) + rest;
    DelimIs(style, delim, rest);
    if dash {
      assert u == "<<-" + v;
      assert u[3..] == v && u[3 + 0..] == v;
    } else {
      assert u == "<<" + v;
      assert u[2..] == v && u[2 + 0..] == v;
    }
  }

  lemma {:induction false} HereStep(u: string, first: bool, c: Core, dash: bool, style: Style, delim: string, rest: string)
    requires Valid(c) && u == HereHead(dash, style, delim) + rest && IsCommand(Top(c).kind)
    requires IsDelim(delim) && (Unquoted(style) ==> rest == "" || rest[0] in " \t\n;&|>")
    ensures Step(u, first, c)
         == Some(Move(c.(pending := c.pending + [Doc(delim, dash)], sep := false), |HereHead(dash, style, delim)|, 0))
  {
    hide StartsAt, Heredoc;
    HeredocIs(dash, style, delim, rest);
    Openers(u);
  }

  lemma {:induction false} ReturnsOff(l: string)
    ensures |RStripReturns(l)| <= |l| && RStripReturns(l) == l[..|RStripReturns(l)|]
    ensures forall k :: |RStripReturns(l)| <= k < |l| ==> l[k] == '\r'
    decreases |l|
  {
    if l != "" && l[|l| - 1] == '\r' {
      ReturnsOff(l[..|l| - 1]);
    }
  }

  lemma {:induction false} TabsOff(l: string) returns (a: nat)
    ensures a <= |l| && LStripTabs(l) == l[a..] && forall k :: 0 <= k < a ==> l[k] == '\t'
    decreases |l|
  {
    if l != "" && l[0] == '\t' {
      var b := TabsOff(l[1..]);
      a := b + 1;
      assert l[1..][b..] == l[a..];
      assert forall k :: 0 < k < a ==> l[k] == l[1..][k - 1];
    } else {
      a := 0;
    }
  }

  /** A line that closes a document is its delimiter, with tabs before and returns behind. */
  lemma {:induction false} ClosesMeans(l: string, dash: bool, delim: string) returns (a: nat, b: nat)
    requires Closes(Doc(delim, dash), l)
    ensures a <= b <= |l| && l[a..b] == delim
    ensures (forall k :: 0 <= k < a ==> l[k] == '\t' && dash) && (forall k :: b <= k < |l| ==> l[k] == '\r')
  {
    var t := RStripReturns(l);
    ReturnsOff(l);
    a, b := 0, |t|;
    if dash {
      a := TabsOff(t);
    }
    assert t[a..] == l[a..b] && forall k :: 0 <= k < a ==> t[k] == l[k];
  }

  lemma {:induction false} LineStays(l: string, dash: bool, delim: string)
    requires IsDocLine(l, dash, delim)
    ensures !Closes(Doc(delim, dash), l)
  {
    hide Closes;
    if Closes(Doc(delim, dash), l) {
      var a, b := ClosesMeans(l, dash, delim);
    }
  }

  lemma {:induction false} DelimCloses(delim: string, dash: bool)
    requires IsDelim(delim)
    ensures Closes(Doc(delim, dash), delim)
  {
  }

  lemma {:induction false} LineEndsAt(u: string, i: nat, l: string, rest: string)
    requires i <= |u| && u[i..] == l + "\n" + rest && NoBreak(l)
    ensures NewlineOrEnd(u[i..]) == |l| && u[i..i + |l|] == l && i + |l| + 1 <= |u| && u[i + |l| + 1..] == rest
  {
    hide NewlineOrEnd;
    var v := u[i..];
    assert v[|l|] == '\n' && forall k :: 0 <= k < |l| ==> v[k] == l[k];
    assert u[i..i + |l|] == v[..|l|];
    assert u[i + |l| + 1..] == v[|l| + 1..];
  }

  lemma DelimNoBreak(delim: string)
    requires IsDelim(delim)
    ensures NoBreak(delim)
  {
  }

  /** The document ends behind the line that is its delimiter. */
  lemma {:induction false} DocFound(u: string, i: nat, dash: bool, delim: string, body: seq<string>, rest: string)
    requires i <= |u| && u[i..] == DocText(body, delim) + rest && IsDelim(delim)
    requires forall k :: 0 <= k < |body| ==> IsDocLine(body[k], dash, delim)
    ensures DocEnd(u, i, Doc(delim, dash)) == Some(i + |DocText(body, delim)|)
    decreases |body|
  {
    hide NewlineOrEnd, Closes, IsDocLine, IsDelim, DocText;
    DocParts(u, i, delim, body, rest);
    if body == [] {
      DelimNoBreak(delim);
      LineEndsAt(u, i, delim, rest);
      DelimCloses(delim, dash);
    } else {
      var l, more := body[0], DocText(body[1..], delim);
      assert IsDocLine(l, dash, delim);
      assert NoBreak(l) by { LineNoBreak(l, dash, delim); }
      LineEndsAt(u, i, l, more + rest);
      LineStays(l, dash, delim);
      assert u[i..i + |l|] == l;
      DocFound(u, i + |l| + 1, dash, delim, body[1..], rest);
    }
  }

  /** The first line of a document and the rest. */
  lemma {:induction false} DocParts(u: string, i: nat, delim: string, body: seq<string>, rest: string)
    requires i <= |u| && u[i..] == DocText(body, delim) + rest
    ensures body == [] ==> DocText(body, delim) == delim + "\n" && u[i..] == delim + "\n" + rest
    ensures body != [] ==>
      var more := DocText(body[1..], delim);
      |DocText(body, delim)| == |body[0]| + 1 + |more| && u[i..] == body[0] + "\n" + (more + rest)
  {
  }

  lemma LineNoBreak(l: string, dash: bool, delim: string)
    requires IsDocLine(l, dash, delim)
    ensures NoBreak(l)
  {
  }

  lemma {:induction false} DocStep(u: string, first: bool, c: Core, dash: bool, delim: string, body: seq<string>, rest: string)
    requires Valid(c) && IsCommand(Top(c).kind) && c.pending == [Doc(delim, dash)] && IsDelim(delim)
    requires u == "\n" + (DocText(body, delim) + rest)
    requires forall k :: 0 <= k < |body| ==> IsDocLine(body[k], dash, delim)
    ensures Step(u, first, c) == Some(Move(c.(pending := [], sep := true), 1 + |DocText(body, delim)|, 0))
  {
    hide DocEnd, IsDocLine;
    assert u[1..] == DocText(body, delim) + rest;
    DocFound(u, 1, dash, delim, body, rest);
    assert c.pending[1..] == [] && DocsEnd(u, 1 + |DocText(body, delim)|, []) == Some(1 + |DocText(body, delim)|);
  }

  // ----- whole scripts -----

  function PlaceOf(c: Core): Place
    requires Valid(c)
  {
    Place(Top(c).kind, if |c.frames| >= 2 then c.frames[|c.frames| - 2].kind else Code, c.pending != [], Top(c).depth, Top(c).cases)
  }

  /** At `i` of the text stands `s`, and then `rest`. */
  ghost predicate Ready(text: string, i: nat, c: Core, s: string, rest: string) {
    && Valid(c) && Top(c).depth >= 0 && i <= |text| && text[i..] == s + rest
    && (i > 0 || !StartsAt(text, 0, "#!"))
  }

  lemma {:induction false} ReadyNext(text: string, i: nat, c: Core, s: string, t: string, rest: string)
    requires i <= |text| && text[i..] == s + t + rest
    ensures i + |s| <= |text| && text[i + |s|..] == t + rest && text[i..] == s + (t + rest)
  {
    assert text[i + |s|..] == text[i..][|s|..];
  }

  /** What running over a piece does. */
  ghost predicate RunsOver(text: string, i: nat, c: Core, s: string, spans: seq<Span>, sep: bool)
    requires Valid(c)
  {
    Run(text, i, c) == Prefixed(spans, Run(text, i + |s|, c.(sep := sep)))
  }

  lemma {:induction false} RunSimple(text: string, i: nat, c: Core, p: Piece, rest: string)
    requires Ready(text, i, c, Print(p), rest) && !p.Nest? && !p.Here? && !p.Case?
    requires Fits(p, PlaceOf(c), c.sep, First(rest, None))
    ensures RunsOver(text, i, c, Print(p), Notes(p, i), SepAfter(p, Top(c).kind, c.sep))
  {
    hide Run, Step, StartsAt, OrdinaryText, Ordinary, AnsiBody, Prefixed;
    var u, s, kind := text[i..], Print(p), Top(c).kind;
    var c' := c.(sep := SepAfter(p, kind, c.sep));
    PrefixedNothing(Run(text, i + |s|, c'));
    match p
    case Plain(t) => RunPlain(text, i, c, t, rest);
    case Dollar(ch) =>
      assert u == "$" + [ch] + rest;
      RunDollar(text, i, c, ch, rest);
      assert c.(sep := c.sep) == c;
    case Note(t) =>
      RunNote(text, i, c, t, rest);
    case Less(ch) => RunLess(text, i, c, ch, rest);
    case _ =>
      RunOneStep(text, i, c, p, rest);
  }

  lemma {:induction false} RunNote(text: string, i: nat, c: Core, t: string, rest: string)
    requires Ready(text, i, c, "#" + t, rest) && Fits(Note(t), PlaceOf(c), c.sep, First(rest, None))
    ensures RunsOver(text, i, c, "#" + t, [(i, i + 1 + |t|)], c.sep)
  {
    hide Run, Step, StartsAt, Prefixed;
    var u := text[i..];
    assert i == 0 ==> u == text;
    NoteStep(u, i == 0, c, t, rest);
    Moves(text, i, c, Move(c, |t| + 1, |t| + 1));
    assert c.(sep := c.sep) == c;
  }

  lemma {:induction false} RunLess(text: string, i: nat, c: Core, ch: char, rest: string)
    requires Valid(c) && i <= |text| && text[i..] == "<" + [ch] + rest && IsCommand(Top(c).kind) && (ch == ' ' || ch == '\t')
    ensures Run(text, i, c) == Run(text, i + 2, c.(sep := true))
  {
    hide Run, Step;
    var u := text[i..];
    LessStep(u, i == 0, c);
    Moves(text, i, c, Move(c.(sep := true), 1, 0));
    var v := text[i + 1..];
    assert v == u[1..] && v[0] == ch;
    BlankStep(v, false, c.(sep := true));
    Moves(text, i + 1, c.(sep := true), Move(c.(sep := true), 1, 0));
  }

  /** The pieces that one step passes. */
  lemma {:induction false} RunOneStep(text: string, i: nat, c: Core, p: Piece, rest: string)
    requires Ready(text, i, c, Print(p), rest) && (p.Esc? || p.Hash? || p.Single? || p.Ansi? || p.Herestring? || p.Apostrophe? || p.Paren?)
    requires Fits(p, PlaceOf(c), c.sep, First(rest, None))
    ensures Run(text, i, c) == Run(text, i + |Print(p)|, c.(sep := SepAfter(p, Top(c).kind, c.sep)))
  {
    hide Run, Step, StartsAt, AnsiBody;
    var u, kind := text[i..], Top(c).kind;
    var c' := c.(sep := SepAfter(p, kind, c.sep));
    assert c.(sep := c.sep) == c;
    match p {
      case Esc(_) => EscStep(u, i == 0, c);
      case Hash => HashStep(u, i == 0, c);
      case Single(t) =>
        ParamDeep(c);
        SingleStep(u, i == 0, c, t, rest);
      case Ansi(t) => AnsiStep(u, i == 0, c, t, rest);
      case Herestring => HerestringStep(u, i == 0, c);
      case Apostrophe =>
        ParamDeep(c);
        ApostropheStep(u, i == 0, c);
      case Paren => ParenStep(u, i == 0, c);
    }
    Moves(text, i, c, Move(c', |Print(p)|, 0));
  }

  lemma ParamDeep(c: Core)
    requires Valid(c)
    ensures Top(c).kind != Code ==> |c.frames| >= 2
  {
  }

  lemma {:induction false} RunPiece(text: string, i: nat, c: Core, p: Piece, rest: string)
    requires Ready(text, i, c, Print(p), rest)
    requires Fits(p, PlaceOf(c), c.sep, First(rest, None))
    ensures RunsOver(text, i, c, Print(p), Notes(p, i), SepAfter(p, Top(c).kind, c.sep))
    decreases p, 0
  {
    hide RunsOver, Ready, Fits, Print, Notes, SepAfter;
    match p
    case Nest(o, inner) => RunNest(text, i, c, o, inner, rest);
    case Case(inner) => RunCase(text, i, c, inner, rest);
    case Here(dash, style, delim, tail, body) => RunHere(text, i, c, dash, style, delim, tail, body, rest);
    case _ => RunSimple(text, i, c, p, rest);
  }

  lemma {:induction false} RunNest(text: string, i: nat, c: Core, o: Opening, inner: Script, rest: string)
    requires Ready(text, i, c, Print(Nest(o, inner)), rest)
    requires Fits(Nest(o, inner), PlaceOf(c), c.sep, First(rest, None))
    ensures RunsOver(text, i, c, Print(Nest(o, inner)), Notes(Nest(o, inner), i), SepAfter(Nest(o, inner), Top(c).kind, c.sep))
    decreases inner, 1
  {
    hide Run, Step, StartsAt, PrintAll, FitsAll, NotesAll, SepAfterAll, Opened, Prefixed, Enter, Opens, Ends, Inside,
         SepInside, IsCommand;
    var kind, t, tail := Top(c).kind, PrintAll(inner), Ends(o) + rest;
    assert text[i..] == Opens(o) + t + tail;
    ReadyNext(text, i, c, Opens(o), t, tail);
    EnterRun(text, i, c, o, t, rest);
    EnterFrames(o, c);
    var c1, i1 := Enter(o, c), i + |Opens(o)|;
    RunAll(text, i1, c1, inner, tail);
    var i2, sep := i1 + |t|, SepAfterAll(inner, Inside(o, kind), c1.sep);
    assert text[i2..] == tail by { assert text[i2..] == text[i1..][|t|..]; }
    GroupPlace(o, kind, c.sep, t);
    LeaveRun(text, i2, c, o, sep, rest);
    NestSep(o, inner, kind, c.sep);
  }

  lemma NestSep(o: Opening, inner: Script, kind: FrameKind, sep: bool)
    ensures SepAfter(Nest(o, inner), kind, sep) == SepBehind(o, kind, SepAfterAll(inner, Inside(o, kind), SepInside(o, kind, sep)))
  {
    hide SepAfterAll;
  }

  lemma {:induction false} EnterRun(text: string, i: nat, c: Core, o: Opening, t: string, rest: string)
    requires Valid(c) && i <= |text| && text[i..] == Opens(o) + (t + (Ends(o) + rest)) && Opened(o, Top(c).kind, c.sep, t)
    ensures |Opens(o)| > 0 && Run(text, i, c) == Run(text, i + |Opens(o)|, Enter(o, c))
    ensures First(Ends(o) + rest, None) == Some(Ends(o)[0])
  {
    hide Run, Step, Opened, Enter;
    assert t + (Ends(o) + rest) == t + Ends(o) + rest;
    EnterStep(text[i..], i == 0, c, o, t, rest);
    Moves(text, i, c, Move(Enter(o, c), |Opens(o)|, 0));
  }

  lemma {:induction false} LeaveRun(text: string, i: nat, c: Core, o: Opening, sep: bool, rest: string)
    requires Valid(c) && Top(c).depth >= 0 && 0 < i <= |text| && text[i..] == Ends(o) + rest
    requires o == Group ==> IsCommand(Top(c).kind) || Top(c).kind == Arith
    ensures Run(text, i, Enter(o, c).(sep := sep)) == Run(text, i + |Ends(o)|, c.(sep := SepBehind(o, Top(c).kind, sep)))
  {
    hide Run, Step, Enter, SepBehind;
    LeaveStep(text[i..], c, o, sep, rest);
    Moves(text, i, Enter(o, c).(sep := sep), Move(c.(sep := SepBehind(o, Top(c).kind, sep)), |Ends(o)|, 0));
  }

  lemma GroupPlace(o: Opening, kind: FrameKind, sep: bool, inner: string)
    requires Opened(o, kind, sep, inner)
    ensures o == Group ==> IsCommand(kind) || kind == Arith
  {
  }

  lemma {:induction false} EnterFrames(o: Opening, c: Core)
    requires Valid(c) && Top(c).depth >= 0
    ensures PlaceOf(Enter(o, c)) == Inner(o, PlaceOf(c)) && Top(Enter(o, c)).depth >= 0
    ensures Enter(o, c).sep == SepInside(o, Top(c).kind, c.sep) && Inner(o, PlaceOf(c)).kind == Inside(o, Top(c).kind)
  {
  }

  // ----- case -----

  function Counting(c: Core, n: nat): (r: Core)
    requires Valid(c)
    ensures Valid(r) && r.pending == c.pending && r.sep == c.sep && Top(r) == Top(c).(cases := n)
  {
    SetTop(c, Top(c).(cases := n))
  }

  lemma {:induction false} KeywordLen(u: string, word: string)
    requires (word == "case" || word == "esac") && |u| >= 4 && u[..4] == word && (|u| > 4 ==> Breaks(u[4]))
    ensures WordLen(u) == 4
  {
    assert u[0] == word[0] && u[1] == word[1] && u[2] == word[2] && u[3] == word[3];
    assert IdentEnd(u, 4) == 4;
    assert IdentEnd(u, 3) == 4;
    assert IdentEnd(u, 2) == 4;
  }

  lemma {:induction false} CaseStep(u: string, first: bool, c: Core)
    requires Valid(c) && IsCommand(Top(c).kind) && c.sep && |u| > 4 && u[..4] == "case" && Breaks(u[4])
    ensures Step(u, first, c) == Some(Move(Counting(c, Top(c).cases + 1).(sep := false), 4, 0))
  {
    hide StartsAt, WordLen;
    assert u[0] == u[..4][0] == 'c';
    KeywordLen(u, "case");
    Openers(u);
    BreaksIs(u[4]);
  }

  lemma {:induction false} EsacStep(u: string, first: bool, c: Core)
    requires Valid(c) && IsCommand(Top(c).kind) && c.sep && Top(c).cases > 0
    requires |u| >= 4 && u[..4] == "esac" && (|u| > 4 ==> Breaks(u[4]))
    ensures Step(u, first, c) == Some(Move(Counting(c, Top(c).cases - 1).(sep := false), 4, 0))
  {
    hide StartsAt, WordLen;
    assert u[0] == u[..4][0] == 'e';
    KeywordLen(u, "esac");
    Openers(u);
    assert |u| > 4 ==> Separator(u[4]) by { if |u| > 4 { BreaksIs(u[4]); } }
  }

  lemma {:induction false} ParenStep(u: string, first: bool, c: Core)
    requires Valid(c) && u != "" && u[0] == ')' && IsCommand(Top(c).kind)
    requires Top(c).kind == Cmd ==> Top(c).depth == 0 && Top(c).cases > 0
    ensures Step(u, first, c) == Some(Move(c.(sep := true), 1, 0))
  {
    hide StartsAt;
    Openers(u);
  }

  lemma {:induction false} RunCase(text: string, i: nat, c: Core, inner: Script, rest: string)
    requires Ready(text, i, c, Print(Case(inner)), rest) && Fits(Case(inner), PlaceOf(c), c.sep, First(rest, None))
    ensures RunsOver(text, i, c, Print(Case(inner)), Notes(Case(inner), i), SepAfter(Case(inner), Top(c).kind, c.sep))
    decreases inner, 1
  {
    hide Run, Step, StartsAt, PrintAll, FitsAll, NotesAll, SepAfterAll, Prefixed, IsCommand, Breaks, Counting;
    var t, tail, n := PrintAll(inner), "esac" + rest, Top(c).cases;
    assert text[i..] == "case" + t + tail;
    ReadyNext(text, i, c, "case", t, tail);
    var c1 := Counting(c, n + 1).(sep := false);
    CaseRun(text, i, c, t, tail);
    CountingPlace(c, n + 1, false);
    RunAll(text, i + 4, c1, inner, tail);
    var i2 := i + 4 + |t|;
    assert text[i2..] == tail by { assert text[i2..] == text[i + 4..][|t|..]; }
    EsacRun(text, i2, c, rest);
    CountingPlace(c, n + 1, true);
  }

  lemma {:induction false} CaseRun(text: string, i: nat, c: Core, t: string, tail: string)
    requires Valid(c) && i <= |text| && text[i..] == "case" + (t + tail) && IsCommand(Top(c).kind) && c.sep
    requires t != "" && Breaks(t[0])
    ensures Run(text, i, c) == Run(text, i + 4, Counting(c, Top(c).cases + 1).(sep := false))
  {
    hide Run, Step, IsCommand, Breaks, Counting;
    assert text[i..][..4] == "case" && text[i..][4] == t[0];
    CaseStep(text[i..], i == 0, c);
    Moves(text, i, c, Move(Counting(c, Top(c).cases + 1).(sep := false), 4, 0));
  }

  lemma {:induction false} EsacRun(text: string, i: nat, c: Core, rest: string)
    requires Valid(c) && 0 < i <= |text| && text[i..] == "esac" + rest && IsCommand(Top(c).kind)
    requires rest == "" || Breaks(rest[0])
    ensures Run(text, i, Counting(c, Top(c).cases + 1).(sep := true)) == Run(text, i + 4, c.(sep := false))
  {
    hide Run, Step, IsCommand, Breaks, Counting;
    var n, tail := Top(c).cases, text[i..];
    var c2 := Counting(c, n + 1).(sep := true);
    assert tail[..4] == "esac" && (rest != "" ==> tail[4] == rest[0]);
    CountingPlace(c, n + 1, true);
    EsacStep(tail, false, c2);
    CountingBack(c, n + 1);
    Moves(text, i, c2, Move(c.(sep := false), 4, 0));
  }

  lemma {:induction false} CountingPlace(c: Core, n: nat, sep: bool)
    requires Valid(c)
    ensures
      var d := Counting(c, n).(sep := sep);
      && PlaceOf(d) == PlaceOf(c).(cases := n) && Valid(d) && Top(d).depth == Top(c).depth
      && Top(d).kind == Top(c).kind && Top(d).cases == n && d.sep == sep
      && Counting(c, n).(sep := false).(sep := sep) == d
  {
  }

  lemma {:induction false} CountingBack(c: Core, n: nat)
    requires Valid(c)
    ensures forall sep :: Counting(Counting(c, n).(sep := sep), Top(c).cases).(sep := false) == c.(sep := false)
  {
    var k := |c.frames| - 1;
    assert c.frames[k := Top(c).(cases := n)][k := Top(c)] == c.frames;
  }

  lemma {:induction false} RunHere(text: string, i: nat, c: Core, dash: bool, style: Style, delim: string, tail: Script,
                                   body: seq<string>, rest: string)
    requires Ready(text, i, c, Print(Here(dash, style, delim, tail, body)), rest)
    requires Fits(Here(dash, style, delim, tail, body), PlaceOf(c), c.sep, First(rest, None))
    ensures
      var p := Here(dash, style, delim, tail, body);
      RunsOver(text, i, c, Print(p), Notes(p, i), SepAfter(p, Top(c).kind, c.sep))
    decreases tail, 2
  {
    hide Run, StartsAt, PrintAll, FitsAll, NotesAll, HereHead, DocText, IsDelim, IsDocLine, Prefixed, IsCommand;
    var head, t, doc := HereHead(dash, style, delim), PrintAll(tail), DocText(body, delim);
    assert text[i..] == head + t + ("\n" + (doc + rest));
    RunHereParts(text, i, c, dash, style, delim, tail, body, rest);
    HereLength(head, t, doc);
  }

  lemma {:induction false} RunHereParts(text: string, i: nat, c: Core, dash: bool, style: Style, delim: string, tail: Script,
                                        body: seq<string>, rest: string)
    requires Valid(c) && Top(c).depth >= 0 && i <= |text| && IsCommand(Top(c).kind) && c.pending == [] && IsDelim(delim)
    requires text[i..] == HereHead(dash, style, delim) + PrintAll(tail) + ("\n" + (DocText(body, delim) + rest))
    requires PrintAll(tail) == "" || (Unquoted(style) ==> PrintAll(tail)[0] in " \t;&|>")
    requires FitsAll(tail, PlaceOf(c).(busy := true), false, Some('\n'))
    requires forall k :: 0 <= k < |body| ==> IsDocLine(body[k], dash, delim)
    ensures
      var n := |HereHead(dash, style, delim)|;
      Run(text, i, c) == Prefixed(NotesAll(tail, i + n),
        Run(text, i + n + |PrintAll(tail)| + 1 + |DocText(body, delim)|, c.(sep := true)))
    decreases tail, 1
  {
    hide Run, StartsAt, PrintAll, FitsAll, NotesAll, SepAfterAll, HereHead, DocText, IsDelim, IsDocLine, Prefixed,
         IsCommand;
    var head, t := HereHead(dash, style, delim), PrintAll(tail);
    var after := "\n" + (DocText(body, delim) + rest);
    ReadyNext(text, i, c, head, t, after);
    OpenHere(text, i, c, dash, style, delim, t, after);
    var c1, i1 := c.(pending := [Doc(delim, dash)], sep := false), i + |head|;
    var sep := SepAfterAll(tail, Top(c).kind, false);
    assert PlaceOf(c1) == PlaceOf(c).(busy := true) && First(after, None) == Some('\n');
    assert Ready(text, i1, c1, t, after);
    hide Ready, RunsOver;
    RunAll(text, i1, c1, tail, after);
    Behind(text, i1, t, after);
    CloseHere(text, i1 + |t|, c, sep, dash, delim, body, rest);
    Over(text, i1, c1, t, NotesAll(tail, i1), sep);
  }

  lemma {:induction false} Behind(text: string, i: nat, t: string, after: string)
    requires i <= |text| && text[i..] == t + after
    ensures i + |t| <= |text| && text[i + |t|..] == after
  {
    assert text[i + |t|..] == text[i..][|t|..];
  }

  lemma Over(text: string, i: nat, c: Core, t: string, spans: seq<Span>, sep: bool)
    requires Valid(c) && RunsOver(text, i, c, t, spans, sep)
    ensures Run(text, i, c) == Prefixed(spans, Run(text, i + |t|, c.(sep := sep)))
  {
    hide Run, Prefixed;
  }

  lemma HereLength(head: string, t: string, doc: string)
    ensures |head + t + "\n" + doc| == |head| + |t| + 1 + |doc|
  {
  }

  lemma {:induction false} CloseHere(text: string, i: nat, c: Core, sep: bool, dash: bool, delim: string, body: seq<string>, rest: string)
    requires Valid(c) && 0 < i <= |text| && IsCommand(Top(c).kind) && c.pending == [] && IsDelim(delim)
    requires text[i..] == "\n" + (DocText(body, delim) + rest)
    requires forall k :: 0 <= k < |body| ==> IsDocLine(body[k], dash, delim)
    ensures Run(text, i, c.(pending := [Doc(delim, dash)], sep := sep)) == Run(text, i + 1 + |DocText(body, delim)|, c.(sep := true))
  {
    hide Run, Step, IsDelim, IsDocLine, DocText, IsCommand;
    var d := c.(pending := [Doc(delim, dash)], sep := sep);
    DocStep(text[i..], false, d, dash, delim, body, rest);
    Moves(text, i, d, Move(d.(pending := [], sep := true), 1 + |DocText(body, delim)|, 0));
    assert d.(pending := [], sep := true) == c.(sep := true);
  }

  lemma {:induction false} OpenHere(text: string, i: nat, c: Core, dash: bool, style: Style, delim: string, t: string, after: string)
    requires Valid(c) && i <= |text| && text[i..] == HereHead(dash, style, delim) + (t + after)
    requires IsCommand(Top(c).kind) && c.pending == [] && IsDelim(delim)
    requires after != "" && after[0] == '\n' && (t == "" || (Unquoted(style) ==> t[0] in " \t;&|>"))
    ensures |HereHead(dash, style, delim)| > 0
    ensures Run(text, i, c)
         == Run(text, i + |HereHead(dash, style, delim)|, c.(pending := [Doc(delim, dash)], sep := false))
  {
    hide Run, Step, HereHead, IsDelim, IsCommand;
    HeadLong(dash, style, delim);
    assert (t + after)[0] == if t == "" then '\n' else t[0];
    HereStep(text[i..], i == 0, c, dash, style, delim, t + after);
    assert [] + [Doc(delim, dash)] == [Doc(delim, dash)];
    Moves(text, i, c, Move(c.(pending := [Doc(delim, dash)], sep := false), |HereHead(dash, style, delim)|, 0));
  }

  lemma HeadLong(dash: bool, style: Style, delim: string)
    ensures |HereHead(dash, style, delim)| >= 2
  {
  }

  /** Running over the text of a script finds its comments and comes back to the same frame. */
  lemma {:induction false} RunAll(text: string, i: nat, c: Core, x: Script, rest: string)
    requires Ready(text, i, c, PrintAll(x), rest)
    requires FitsAll(x, PlaceOf(c), c.sep, First(rest, None))
    ensures RunsOver(text, i, c, PrintAll(x), NotesAll(x, i), SepAfterAll(x, Top(c).kind, c.sep))
    decreases x, 0
  {
    hide Run, StartsAt, Print, Fits, Notes, SepAfter, Prefixed, RunsOver, Ready;
    ReadyValid(text, i, c, PrintAll(x), rest);
    match x
    case Done => OverNothing(text, i, c);
    case Then(p, more) =>
      var s, t := Print(p), PrintAll(more);
      assert First(t + rest, None) == First(t, First(rest, None));
      ReadyThen(text, i, c, s, t, rest);
      RunPiece(text, i, c, p, t + rest);
      var sep := SepAfter(p, Top(c).kind, c.sep);
      ReadySep(text, i + |s|, c, t, rest, sep);
      RunAll(text, i + |s|, c.(sep := sep), more, rest);
      OverThen(text, i, c, s, t, Notes(p, i), sep, NotesAll(more, i + |s|), SepAfterAll(more, Top(c).kind, sep));
  }

  lemma OverNothing(text: string, i: nat, c: Core)
    requires Valid(c)
    ensures RunsOver(text, i, c, "", [], c.sep)
  {
    hide Run;
    PrefixedNothing(Run(text, i, c));
    assert c.(sep := c.sep) == c;
  }

  lemma {:induction false} OverThen(text: string, i: nat, c: Core, s: string, t: string, one: seq<Span>, sep: bool, two: seq<Span>, sep2: bool)
    requires Valid(c) && RunsOver(text, i, c, s, one, sep) && RunsOver(text, i + |s|, c.(sep := sep), t, two, sep2)
    ensures RunsOver(text, i, c, s + t, one + two, sep2)
  {
    hide Run, Prefixed;
    PrefixedTwice(one, two, Run(text, i + |s| + |t|, c.(sep := sep2)));
    assert c.(sep := sep).(sep := sep2) == c.(sep := sep2);
  }

  lemma {:induction false} ReadyThen(text: string, i: nat, c: Core, s: string, t: string, rest: string)
    requires Ready(text, i, c, s + t, rest)
    ensures Ready(text, i, c, s, t + rest) && Ready(text, i + |s|, c, t, rest)
  {
    hide StartsAt;
    ReadyNext(text, i, c, s, t, rest);
  }

  lemma ReadyValid(text: string, i: nat, c: Core, s: string, rest: string)
    requires Ready(text, i, c, s, rest)
    ensures Valid(c)
  {
    hide StartsAt;
  }

  lemma ReadySep(text: string, i: nat, c: Core, s: string, rest: string, sep: bool)
    requires Ready(text, i, c, s, rest)
    ensures Ready(text, i, c.(sep := sep), s, rest)
  {
    hide StartsAt;
  }

  /** Scanning the text of any script of the grammar reports exactly its comments. */
  lemma {:induction false} GrammarScanned(x: Script)
    requires FitsAll(x, TOP, true, None) && !StartsAt(PrintAll(x), 0, "#!")
    ensures Spanned(PrintAll(x)) == Some(NotesAll(x, 0))
  {
    hide StartsAt, PrintAll, FitsAll, NotesAll, SepAfterAll, Step;
    var text := PrintAll(x);
    assert text[0..] == text + "";
    RunAll(text, 0, START, x, "");
    var last := START.(sep := SepAfterAll(x, Code, true));
    assert Run(text, |text|, last) == Some(([], last));
    assert NotesAll(x, 0) + [] == NotesAll(x, 0);
  }

  // ----- what is left open is refused -----

  const TOP := Place(Code, Code, false, 0, 0)

  /** Up to the end of a script, whatever follows it. */
  lemma {:induction false} RunTo(x: Script, rest: string)
    requires FitsAll(x, TOP, true, First(rest, None)) && !StartsAt(PrintAll(x) + rest, 0, "#!")
    ensures
      var text, c := PrintAll(x) + rest, START.(sep := SepAfterAll(x, Code, true));
      Run(text, 0, START) == Prefixed(NotesAll(x, 0), Run(text, |PrintAll(x)|, c))
  {
    hide StartsAt, PrintAll, FitsAll, NotesAll, SepAfterAll, Step, Run;
    var text := PrintAll(x) + rest;
    assert text[0..] == text;
    RunAll(text, 0, START, x, rest);
  }

  /** A script that ends inside a quoted or nested part is refused. */
  lemma {:induction false} OpenRefused(x: Script, o: Opening, inner: Script)
    requires o != Group && PrintAll(inner) != ""
    requires FitsAll(x, TOP, true, Some(Opens(o)[0])) && !StartsAt(PrintAll(x) + (Opens(o) + PrintAll(inner)), 0, "#!")
    requires Opened(o, Code, SepAfterAll(x, Code, true), PrintAll(inner))
    requires FitsAll(inner, Inner(o, TOP), SepInside(o, Code, SepAfterAll(x, Code, true)), None)
    ensures Spanned(PrintAll(x) + (Opens(o) + PrintAll(inner))) == None
  {
    hide StartsAt, PrintAll, FitsAll, NotesAll, SepAfterAll, Step, Run, Enter, Inner, SepInside, Inside, Opens, Opened;
    OpensLong(o);
    var t, rest, i := PrintAll(inner), Opens(o) + PrintAll(inner), |PrintAll(x)|;
    var text, c := PrintAll(x) + rest, START.(sep := SepAfterAll(x, Code, true));
    assert First(rest, None) == Some(Opens(o)[0]);
    RunTo(x, rest);
    assert text[i..] == rest && PlaceOf(c) == TOP;
    EnterOpen(rest, i == 0, c, o, t);
    Moves(text, i, c, Move(Enter(o, c), |Opens(o)|, 0));
    EnterFrames(o, c);
    assert |Enter(o, c).frames| == 2 by { EnterDeep(o, c); }
    var i1, c1 := i + |Opens(o)|, Enter(o, c);
    Behind(text, i, Opens(o), t);
    OpenEnds(text, i1, c1, inner);
  }

  lemma OpensLong(o: Opening)
    ensures Opens(o) != ""
  {
  }

  lemma EnterOpen(u: string, first: bool, c: Core, o: Opening, t: string)
    requires Valid(c) && t != "" && u == Opens(o) + t && IsCommand(Top(c).kind) && Opened(o, Top(c).kind, c.sep, t)
    ensures Step(u, first, c) == Some(Move(Enter(o, c), |Opens(o)|, 0))
  {
    hide Step, Enter, Opens;
    EnterCommand(u, first, c, o, t);
  }

  /** A run that starts in a nested part and never leaves it. */
  lemma {:induction false} OpenEnds(text: string, i: nat, c: Core, inner: Script)
    requires Ready(text, i, c, PrintAll(inner), "") && FitsAll(inner, PlaceOf(c), c.sep, None) && |c.frames| > 1
    ensures Run(text, i, c).Some? && |Run(text, i, c).value.1.frames| > 1
  {
    hide StartsAt, PrintAll, FitsAll, NotesAll, SepAfterAll, Run;
    RunAll(text, i, c, inner, "");
    RunEnds(text, i + |PrintAll(inner)|, c.(sep := SepAfterAll(inner, Top(c).kind, c.sep)));
  }

  lemma EnterDeep(o: Opening, c: Core)
    requires Valid(c) && o != Group
    ensures |Enter(o, c).frames| == |c.frames| + 1
  {
  }

  lemma RunEnds(text: string, i: nat, c: Core)
    requires Valid(c) && i >= |text|
    ensures Run(text, i, c) == Some(([], c))
  {
  }

  lemma {:induction false} NoQuote(u: string, j: nat)
    requires forall k :: j <= k < |u| ==> u[k] != '\''
    ensures AfterQuote(u, j) == None
    decreases |u| - j
  {
    if j < |u| {
      NoQuote(u, j + 1);
    }
  }

  /** A script that ends inside single quotes is refused. */
  lemma {:induction false} OpenQuoteRefused(x: Script, s: string)
    requires FitsAll(x, TOP, true, Some('\'')) && !StartsAt(PrintAll(x) + ("'" + s), 0, "#!") && '\'' !in s
    ensures Spanned(PrintAll(x) + ("'" + s)) == None
  {
    hide StartsAt, PrintAll, FitsAll, NotesAll, SepAfterAll, Step;
    var rest, i := "'" + s, |PrintAll(x)|;
    var text, c := PrintAll(x) + rest, START.(sep := SepAfterAll(x, Code, true));
    RunTo(x, rest);
    assert text[i..] == rest;
    OpenQuoteStep(rest, i == 0, c, s);
  }

  lemma {:induction false} OpenQuoteStep(u: string, first: bool, c: Core, s: string)
    requires Valid(c) && IsCommand(Top(c).kind) && u == "'" + s && '\'' !in s
    ensures Step(u, first, c) == None
  {
    hide StartsAt, AfterQuote;
    assert u[0] == '\'' && forall k :: 1 <= k < |u| ==> u[k] == s[k - 1];
    NoQuote(u, 1);
    Openers(u);
  }

  /** A script that ends before its here-document does is refused. */
  lemma {:induction false} OpenDocRefused(x: Script, dash: bool, style: Style, delim: string)
    requires FitsAll(x, TOP, true, Some('<')) && IsDelim(delim)
    requires !StartsAt(PrintAll(x) + HereHead(dash, style, delim), 0, "#!")
    ensures Spanned(PrintAll(x) + HereHead(dash, style, delim)) == None
  {
    hide StartsAt, PrintAll, FitsAll, NotesAll, SepAfterAll, Step, Run, IsDelim;
    var head, i := HereHead(dash, style, delim), |PrintAll(x)|;
    var text, c := PrintAll(x) + head, START.(sep := SepAfterAll(x, Code, true));
    assert head[0] == '<';
    RunTo(x, head);
    assert text[i..] == head + "";
    HereStep(text[i..], i == 0, c, dash, style, delim, "");
    assert [] + [Doc(delim, dash)] == [Doc(delim, dash)];
    var last := c.(pending := [Doc(delim, dash)], sep := false);
    Moves(text, i, c, Move(last, |head|, 0));
    RunEnds(text, i + |head|, last);
  }

  // ----- single constructs, from any command frame -----

  /** Back in the same frame, behind the text, with no comment found. */
  ghost predicate Hidden(text: string, i: nat, c: Core, s: string)
    requires Valid(c)
  {
    Run(text, i, c) == Run(text, i + |s|, c.(sep := false))
  }

  lemma {:induction false} PieceHides(text: string, i: nat, c: Core, p: Piece, rest: string)
    requires Ready(text, i, c, Print(p), rest) && Fits(p, PlaceOf(c), c.sep, First(rest, None))
    requires Notes(p, i) == [] && !SepAfter(p, Top(c).kind, c.sep)
    ensures Hidden(text, i, c, Print(p))
  {
    hide Run, Fits, Ready, Print, Notes, SepAfter;
    ReadyValid(text, i, c, Print(p), rest);
    RunPiece(text, i, c, p, rest);
    PrefixedNothing(Run(text, i + |Print(p)|, c.(sep := false)));
  }

  lemma {:induction false} OneInside(o: Opening, s: string, i: nat, x: Place, sep: bool, next: Option<char>)
    requires (o == DoubleQuote || o == Params) && IsCommand(x.kind) && (x.busy ==> NoBreak(s))
    requires forall k :: 0 <= k < |s| ==> Ordinary(s[k], Inside(o, x.kind))
    ensures
      var p := Nest(o, Then(Plain(s), Done));
      && Print(p) == Opens(o) + s + Ends(o) && Notes(p, i) == [] && !SepAfter(p, x.kind, sep)
      && Fits(p, x, sep, next)
  {
    hide Ordinary;
    var inner := Then(Plain(s), Done);
    assert PrintAll(inner) == s + PrintAll(Done);
    assert s + "" == s;
    var at := Inner(o, x);
    assert OrdinaryText(s, at.kind);
    assert Fits(Plain(s), at, SepInside(o, x.kind, sep), First(PrintAll(Done), Some(Ends(o)[0])));
    assert FitsAll(inner, at, SepInside(o, x.kind, sep), Some(Ends(o)[0]));
    assert NotesAll(inner, i + |Opens(o)|) == Notes(Plain(s), i + |Opens(o)|) + NotesAll(Done, i + |Opens(o)| + |s|);
  }

  /** Whatever stands in single quotes, in double quotes, in `$'...'` or in `${...}` is no comment. */
  lemma {:induction false} QuotesHide(text: string, i: nat, c: Core, s: string, rest: string)
    requires Valid(c) && IsCommand(Top(c).kind)
    requires Ready(text, i, c, "'" + s + "'", rest) && '\'' !in s
    ensures Hidden(text, i, c, "'" + s + "'")
  {
    hide Run;
    PieceHides(text, i, c, Single(s), rest);
  }

  lemma {:induction false} DoubleQuotesHide(text: string, i: nat, c: Core, s: string, rest: string)
    requires Valid(c) && IsCommand(Top(c).kind)
    requires Ready(text, i, c, "\"" + s + "\"", rest) && forall k :: 0 <= k < |s| ==> s[k] !in "\\\"$`"
    requires c.pending != [] ==> NoBreak(s)
    ensures Hidden(text, i, c, "\"" + s + "\"")
  {
    hide Run, Ready;
    OneInside(DoubleQuote, s, i, PlaceOf(c), c.sep, First(rest, None));
    PieceHides(text, i, c, Nest(DoubleQuote, Then(Plain(s), Done)), rest);
  }

  lemma {:induction false} AnsiHides(text: string, i: nat, c: Core, s: string, rest: string)
    requires Valid(c) && IsCommand(Top(c).kind)
    requires Ready(text, i, c, "$'" + s + "'", rest) && AnsiBody(s)
    ensures Hidden(text, i, c, "$'" + s + "'")
  {
    hide Run, AnsiBody;
    PieceHides(text, i, c, Ansi(s), rest);
  }

  lemma {:induction false} ParamsHide(text: string, i: nat, c: Core, s: string, rest: string)
    requires Valid(c) && IsCommand(Top(c).kind)
    requires Ready(text, i, c, "${" + s + "}", rest) && forall k :: 0 <= k < |s| ==> s[k] !in "\\}'\"$"
    requires c.pending != [] ==> NoBreak(s)
    ensures Hidden(text, i, c, "${" + s + "}")
  {
    hide Run, Ready;
    OneInside(Params, s, i, PlaceOf(c), c.sep, First(rest, None));
    PieceHides(text, i, c, Nest(Params, Then(Plain(s), Done)), rest);
  }

  /** A hash sign where a command may start is a comment up to the end of its line. */
  lemma {:induction false} HashComments(text: string, i: nat, c: Core, s: string, rest: string)
    requires Valid(c) && IsCommand(Top(c).kind) && Top(c).kind != Bq && c.sep && NoBreak(s) && (s != "" ==> s[|s| - 1] != '\r')
    requires Ready(text, i, c, "#" + s, rest) && (rest == "" || rest[0] == '\n')
    ensures Run(text, i, c) == Prefixed([(i, i + 1 + |s|)], Run(text, i + 1 + |s|, c))
  {
    hide Run;
    RunNote(text, i, c, s, rest);
    assert c.(sep := c.sep) == c;
  }

  // ----- several here-documents -----

  datatype Document = Document(dash: bool, delim: string, body: seq<string>)

  ghost predicate IsDocument(d: Document) {
    IsDelim(d.delim) && forall k :: 0 <= k < |d.body| ==> IsDocLine(d.body[k], d.dash, d.delim)
  }

  function DocsText(docs: seq<Document>): string {
    if docs == [] then "" else DocText(docs[0].body, docs[0].delim) + DocsText(docs[1..])
  }

  function Awaited(docs: seq<Document>): (r: seq<Doc>)
    ensures |r| == |docs|
  {
    if docs == [] then [] else [Doc(docs[0].delim, docs[0].dash)] + Awaited(docs[1..])
  }

  lemma {:induction false} DocsFound(u: string, i: nat, docs: seq<Document>, rest: string)
    requires i <= |u| && u[i..] == DocsText(docs) + rest && forall k :: 0 <= k < |docs| ==> IsDocument(docs[k])
    ensures DocsEnd(u, i, Awaited(docs)) == Some(i + |DocsText(docs)|)
    decreases |docs|
  {
    hide DocEnd, IsDocLine, IsDelim, DocText, DocsText;
    if docs == [] {
      assert DocsText(docs) == "" by { NoDocs(); }
    } else {
      var d, more := docs[0], docs[1..];
      var t := DocText(d.body, d.delim);
      DocsCons(u, i, docs, rest);
      assert IsDocument(d);
      DocFound(u, i, d.dash, d.delim, d.body, DocsText(more) + rest);
      DocsFound(u, i + |t|, more, rest);
      assert Awaited(docs)[1..] == Awaited(more);
    }
  }

  lemma NoDocs()
    ensures DocsText([]) == ""
  {
  }

  lemma {:induction false} DocsCons(u: string, i: nat, docs: seq<Document>, rest: string)
    requires i <= |u| && u[i..] == DocsText(docs) + rest && docs != []
    ensures
      var t, more := DocText(docs[0].body, docs[0].delim), DocsText(docs[1..]);
      && |DocsText(docs)| == |t| + |more| && i + |t| <= |u|
      && u[i..] == t + (more + rest) && u[i + |t|..] == more + rest
  {
    hide DocText;
    var t, more := DocText(docs[0].body, docs[0].delim), DocsText(docs[1..]);
    assert u[i..] == t + (more + rest);
    assert u[i + |t|..] == u[i..][|t|..];
  }

  /** Another here-document of the line waits behind those before it. */
  lemma {:induction false} DocsQueue(text: string, i: nat, c: Core, dash: bool, style: Style, delim: string, rest: string)
    requires Valid(c) && IsCommand(Top(c).kind) && IsDelim(delim)
    requires i <= |text| && text[i..] == HereHead(dash, style, delim) + rest
    requires Unquoted(style) ==> rest == "" || rest[0] in " \t\n;&|>"
    ensures Run(text, i, c)
         == Run(text, i + |HereHead(dash, style, delim)|, c.(pending := c.pending + [Doc(delim, dash)], sep := false))
  {
    hide Run, Step, HereHead, IsDelim, IsCommand;
    HeadLong(dash, style, delim);
    HereStep(text[i..], i == 0, c, dash, style, delim, rest);
    Moves(text, i, c, Move(c.(pending := c.pending + [Doc(delim, dash)], sep := false), |HereHead(dash, style, delim)|, 0));
  }

  /** At the next newline outside of quotes and of `${...}` all of them are passed, in their order. */
  lemma {:induction false} DocsTaken(text: string, i: nat, c: Core, docs: seq<Document>, rest: string)
    requires Valid(c) && (IsCommand(Top(c).kind) || Top(c).kind == Arith)
    requires docs != [] && c.pending == Awaited(docs) && forall k :: 0 <= k < |docs| ==> IsDocument(docs[k])
    requires i <= |text| && text[i..] == "\n" + (DocsText(docs) + rest)
    ensures Run(text, i, c) == Run(text, i + 1 + |DocsText(docs)|, c.(pending := [], sep := true))
  {
    hide Run, DocsEnd, IsDocument, DocsText, Awaited;
    var u := text[i..];
    assert u[1..] == DocsText(docs) + rest;
    DocsFound(u, 1, docs, rest);
    Moves(text, i, c, Move(c.(pending := [], sep := true), 1 + |DocsText(docs)|, 0));
  }

  /** In quotes and in `${...}` they go on waiting. */
  lemma {:induction false} DocsWait(text: string, i: nat, c: Core)
    requires Valid(c) && (Top(c).kind == Dq || Top(c).kind == Param) && i < |text| && text[i] == '\n'
    ensures Run(text, i, c) == Run(text, i + 1, c)
  {
    hide Run, StartsAt;
    Openers(text[i..]);
    Moves(text, i, c, Move(c, 1, 0));
  }
}
