/**
  * The two index-jumping scanners, `c_family_spans` and `sql_spans`, proved to report exactly
  * the comments of the lexical grammar.
  */
module Scan {
  import opened Text
  import opened Lexer

  type Span = (nat, nat)

  /** The comment spans of `s`, counted from `off`; `None` is a ScanError. */
  function Spans(sc: Scanner, s: string, off: nat): (r: Option<seq<Span>>)
    decreases |s|
  {
    if s == [] then Some([])
    else
      match Next(sc, s)
      case None => None
      case Some(l) =>
        Extend(SpanOf(l, off), Spans(sc, s[l.size..], off + l.size))
  }

  /** `skip_quoted`; `None` is a ScanError. */
  method SkipQuoted(text: string, i: nat, quote: char, multiline: bool) returns (r: Option<nat>)
    requires i < |text|
    ensures r == Shift(i, QuoteEnd(text[i..], 1, quote, multiline))
  {
    var s := text[i..];
    var j := i + 1;
    while j < |text|
      invariant i < j
      invariant QuoteEnd(s, j - i, quote, multiline) == QuoteEnd(s, 1, quote, multiline)
    {
      var c := text[j];
      assert c == s[j - i];
      if c == '\\' {
        j := j + 2;
      } else if c == quote {
        return Some(j + 1);
      } else if c == '\n' && !multiline {
        return None;
      } else {
        j := j + 1;
      }
    }
    return None;
  }

  /** What was found before an offset, followed by what is found after it. */
  function Extend(spans: seq<Span>, rest: Option<seq<Span>>): Option<seq<Span>> {
    match rest
    case None => None
    case Some(more) => Some(spans + more)
  }

  function SpanOf(l: Lexeme, b: nat): seq<Span> {
    if l.kind == Comment then [(b, b + l.size)] else []
  }

  lemma {:induction false} ExtendTwice(one: seq<Span>, two: seq<Span>, rest: Option<seq<Span>>)
    ensures Extend(one, Extend(two, rest)) == Extend(one + two, rest)
  {
    if rest.Some? {
      assert one + (two + rest.value) == (one + two) + rest.value;
    }
  }

  /** One lexeme further. */
  lemma {:induction false} ResumeAfter(sc: Scanner, text: string, b: nat, spans: seq<Span>, l: Lexeme)
    requires b < |text| && Next(sc, text[b..]) == Some(l) && l.size <= |text[b..]|
    ensures Extend(spans, Spans(sc, text[b..], b))
         == Extend(spans + SpanOf(l, b), Spans(sc, text[b + l.size..], b + l.size))
  {
    hide Next, LexemeShape;
    var s := text[b..];
    assert s[l.size..] == text[b + l.size..];
    assert Spans(sc, s, b) == Extend(SpanOf(l, b), Spans(sc, s[l.size..], b + l.size));
    ExtendTwice(spans, SpanOf(l, b), Spans(sc, s[l.size..], b + l.size));
  }

  /** One token or blank further: nothing is reported. */
  lemma {:induction false} SkipToken(sc: Scanner, text: string, b: nat, spans: seq<Span>, l: Lexeme)
    requires b < |text| && Next(sc, text[b..]) == Some(l) && l.size <= |text[b..]| && l.kind != Comment
    ensures Extend(spans, Spans(sc, text[b..], b)) == Extend(spans, Spans(sc, text[b + l.size..], b + l.size))
  {
    ResumeAfter(sc, text, b, spans, l);
    assert spans + [] == spans;
  }

  lemma {:induction false} FindShift(text: string, i: nat, j: nat, pat: string)
    requires i <= |text|
    ensures FindFrom(text, i + j, pat) == Shift(i, FindFrom(text[i..], j, pat))
    decreases |text| - j
  {
    assert StartsAt(text, i + j, pat) == StartsAt(text[i..], j, pat);
    if !StartsAt(text, i + j, pat) && i + j < |text| {
      FindShift(text, i, j + 1, pat);
    }
  }

  /** The inner loop of the `//` branch: where the comment starting at `i` ends. */
  method LineCommentEnd(text: string, i: nat) returns (j: nat)
    requires i + 2 <= |text|
    ensures j == i + TrimReturn(text[i..], LineEnd(text[i..], 2))
  {
    var s := text[i..];
    j := i + 2;
    while j < |text| && !(text[j] == '\n' && text[j - 1] != '\\')
      invariant i + 2 <= j <= |text|
      invariant LineEnd(s, j - i) == LineEnd(s, 2)
    {
      assert text[j] == s[j - i] && text[j - 1] == s[j - i - 1];
      j := j + 1;
    }
    assert text[j - 1] == s[j - i - 1];
    assert j < |text| ==> text[j] == s[j - i];
    if text[j - 1] == '\r' {
      j := j - 1;
    }
  }

  /** The inner loop of the number branch. */
  method NumberTokenEnd(sc: Scanner, text: string, i: nat) returns (j: nat)
    requires i < |text|
    ensures j == i + NumberEnd(sc, text[i..], 1)
  {
    hide NumberEnd;
    var s := text[i..];
    j := i + 1;
    while j < |text|
      invariant i < j <= |text|
      invariant NumberEnd(sc, s, j - i) == NumberEnd(sc, s, 1)
    {
      NumberStep(sc, s, j - i);
      var d := text[j];
      assert d == s[j - i] && text[j - 1] == s[j - i - 1];
      assert j + 1 < |text| ==> text[j + 1] == s[j - i + 1];
      if sc.IsAlnum(d) || d == '_' || d == '.' {
        j := j + 1;
      } else if d == '\'' && !sc.Plain() && j + 1 < |text| && sc.IsAlnum(text[j + 1]) {
        j := j + 1;
      } else if (d == '+' || d == '-') && text[j - 1] in "eEpP" {
        j := j + 1;
      } else {
        return;
      }
    }
    NumberStep(sc, s, j - i);
  }

  lemma NumberStep(sc: Scanner, s: string, j: nat)
    requires 0 < j <= |s|
    ensures NumberEnd(sc, s, j) == if j < |s| && NumberGoesOn(sc, s, j) then NumberEnd(sc, s, j + 1) else j
  {
  }

  /** `IDENT.match(text, i).end()`. */
  method IdentTokenEnd(text: string, i: nat) returns (j: nat)
    requires i < |text| && IdentStart(text[i])
    ensures j == i + IdentEnd(text[i..], 1)
  {
    var s := text[i..];
    j := i + 1;
    while j < |text| && IdentChar(text[j])
      invariant i < j <= |text|
      invariant IdentEnd(s, j - i) == IdentEnd(s, 1)
    {
      assert text[j] == s[j - i];
      j := j + 1;
    }
    assert j < |text| ==> text[j] == s[j - i];
  }

  function Shift(b: nat, r: Option<nat>): Option<nat> {
    match r
    case None => None
    case Some(k) => Some(b + k)
  }

  lemma {:induction false} RawTailShift(text: string, b: nat, j: nat, delim: string)
    requires b <= |text|
    ensures RawTail(text, b + j, delim) == Shift(b, RawTail(text[b..], j, delim))
  {
    FindShift(text, b, j, ")" + delim + "\"");
  }

  lemma {:induction false} RawShift(text: string, b: nat, i: nat)
    requires b <= i < |text| && text[i] == '"'
    ensures RawEnd(text, i) == Shift(b, RawEnd(text[b..], i - b))
  {
    hide RawTail, FindFrom;
    var s := text[b..];
    FindShift(text, b, i - b + 1, "(");
    match FindFrom(s, i - b + 1, "(")
    case None =>
    case Some(open) =>
      var delim := s[i - b + 1..open];
      assert text[i + 1..b + open] == delim;
      RawTailShift(text, b, open + 1, delim);
  }

  /** The raw-string branch: the offset after the literal whose quote is at `i`. */
  method RawTokenEnd(text: string, i: nat) returns (r: Option<nat>)
    requires i < |text| && text[i] == '"'
    ensures r == RawEnd(text, i)
  {
    var open := FindFrom(text, i + 1, "(");
    if open.None? {
      return None;
    }
    var delim := text[i + 1..open.value];
    if !RawDelimiter(delim) {
      return None;
    }
    var close := FindFrom(text, open.value + 1, ")" + delim + "\"");
    if close.None? {
      return None;
    }
    return Some(close.value + |delim| + 2);
  }

  /** An identifier that the next iteration will find in front of a raw string. */
  ghost predicate RawAhead(sc: Scanner, text: string, i: nat, ident: string, identEnd: int) {
    !sc.Plain() && identEnd == i && RawPrefix(ident) && i < |text| && text[i] == '"'
  }

  /** `b` is where the lexeme being read starts: at `i`, or at the prefix of a raw string. */
  ghost predicate At(sc: Scanner, text: string, b: nat, i: nat, ident: string, identEnd: int) {
    && b <= i <= |text| && identEnd <= i
    && (b == i ==> !RawAhead(sc, text, i, ident, identEnd))
    && (b < i ==>
          && RawAhead(sc, text, i, ident, identEnd)
          && IdentStart(text[b]) && IdentEnd(text[b..], 1) == i - b && text[b..i] == ident)
  }

  lemma {:induction false} RawNext(sc: Scanner, text: string, b: nat, i: nat, ident: string, identEnd: int)
    requires At(sc, text, b, i, ident, identEnd) && b < i
    ensures sc.language != Sql ==> Next(sc, text[b..]) == TokenOf(RawEnd(text[b..], i - b))
  {
    var s := text[b..];
    assert s[..i - b] == text[b..i] && s[i - b] == text[i];
    assert s[0] == text[b];
  }

  /** Every branch of the loop body except the two for words and raw strings. */
  method PlainLexeme(sc: Scanner, text: string, i: nat) returns (r: Option<Lexeme>)
    requires sc.language != Sql && i < |text| && !IdentStart(text[i])
    ensures r == Next(sc, text[i..])
  {
    var c := text[i];
    var nxt := if i + 1 < |text| then [text[i + 1]] else "";
    ghost var s := text[i..];
    assert s[0] == c && (if i + 1 < |text| then |s| >= 2 && s[1] == text[i + 1] else |s| == 1);
    if c == '/' && nxt == "/" {
      var j := LineCommentEnd(text, i);
      return Some(Lexeme(Comment, j - i));
    }
    if c == '/' && nxt == "*" {
      FindShift(text, i, 2, "*/");
      var j := FindFrom(text, i + 2, "*/");
      return if j.None? then None else Some(Lexeme(Comment, j.value + 2 - i));
    }
    if c == '"' || c == '\'' {
      var j := SkipQuoted(text, i, c, false);
      return if j.None? then None else Some(Lexeme(Token, j.value - i));
    }
    if sc.IsDigit(c) || (c == '.' && nxt != "" && sc.IsDigit(nxt[0])) {
      var j := NumberTokenEnd(sc, text, i);
      return Some(Lexeme(Token, j - i));
    }
    return Some(OneChar(c));
  }

  lemma {:induction false} WordNext(sc: Scanner, text: string, i: nat, j: nat)
    requires sc.language != Sql && i < |text| && IdentStart(text[i]) && j == i + IdentEnd(text[i..], 1)
    requires !RawAhead(sc, text, j, text[i..j], j)
    ensures Next(sc, text[i..]) == Some(Lexeme(Token, j - i))
  {
    var s := text[i..];
    assert s[0] == text[i] && s[..j - i] == text[i..j];
    assert j < |text| ==> s[j - i] == text[j];
  }

  /** `c_family_spans` reports the comments of the grammar, and fails exactly where it does. */
  method CFamilySpans(sc: Scanner, text: string) returns (r: Option<seq<Span>>)
    requires sc.language != Sql
    ensures r == Spans(sc, text, 0)
  {
    hide Next, LexemeShape, RawEnd, IdentEnd, Spans, Extend;
    var spans: seq<Span>, i: nat := [], 0;
    var lastIdent, lastIdentEnd := "", -1;
    ghost var b: nat := 0;
    assert text[0..] == text;
    assert Extend(spans, Spans(sc, text, 0)) == Spans(sc, text, 0) by { EmptyExtend(Spans(sc, text, 0)); }
    while i < |text|
      invariant At(sc, text, b, i, lastIdent, lastIdentEnd)
      invariant Extend(spans, Spans(sc, text[b..], b)) == Spans(sc, text, 0)
      decreases |text| - i
    {
      if text[i] == '"' && !sc.Plain() && lastIdentEnd == i && RawPrefix(lastIdent) {
        RawNext(sc, text, b, i, lastIdent, lastIdentEnd);
        RawShift(text, b, i);
        var e := RawTokenEnd(text, i);
        if e.None? {
          Fails(sc, text, b, spans);
          return None;
        }
        SkipToken(sc, text, b, spans, Lexeme(Token, e.value - b));
        i := e.value;
        b := i;
      } else if IdentStart(text[i]) {
        var j := IdentTokenEnd(text, i);
        lastIdent, lastIdentEnd := text[i..j], j;
        if !RawAhead(sc, text, j, lastIdent, lastIdentEnd) {
          WordNext(sc, text, i, j);
          SkipToken(sc, text, b, spans, Lexeme(Token, j - i));
          b := j;
        }
        i := j;
      } else {
        var l := PlainLexeme(sc, text, i);
        if l.None? {
          Fails(sc, text, b, spans);
          return None;
        }
        if l.value.kind == Comment {
          ResumeAfter(sc, text, b, spans, l.value);
          spans := spans + [(i, i + l.value.size)];
        } else {
          SkipToken(sc, text, b, spans, l.value);
        }
        i := i + l.value.size;
        b := i;
      }
    }
    NothingLeft(sc, text, b, spans);
    return Some(spans);
  }

  lemma {:induction false} Fails(sc: Scanner, text: string, b: nat, spans: seq<Span>)
    requires b < |text| && Next(sc, text[b..]) == None
    ensures Extend(spans, Spans(sc, text[b..], b)) == None
  {
  }

  lemma {:induction false} NothingLeft(sc: Scanner, text: string, b: nat, spans: seq<Span>)
    requires b == |text|
    ensures Extend(spans, Spans(sc, text[b..], b)) == Some(spans)
  {
    assert text[b..] == [] && spans + [] == spans;
  }

  lemma {:induction false} EmptyExtend(r: Option<seq<Span>>)
    ensures Extend([], r) == r
  {
    if r.Some? {
      assert [] + r.value == r.value;
    }
  }

  /** The inner loop of the literal branch of `sql_spans`. */
  method SqlLiteralEnd(text: string, i: nat) returns (r: Option<nat>)
    requires i < |text|
    ensures r == Shift(i, SqlQuoteEnd(text[i..], 1, text[i]))
  {
    hide FindFrom;
    var c, s := text[i], text[i..];
    var j := i + 1;
    while true
      invariant i < j
      invariant SqlQuoteEnd(s, j - i, c) == SqlQuoteEnd(s, 1, c)
      decreases |text| - j
    {
      FindShift(text, i, j - i, [c]);
      var k := FindFrom(text, j, [c]);
      if k.None? {
        return None;
      }
      FindIsFirst(text, j, [c]);
      assert text[k.value + 0] == [c][0];
      assert k.value + 1 < |text| ==> text[k.value + 1] == s[k.value - i + 1];
      if k.value + 1 < |text| && text[k.value + 1] == c {
        j := k.value + 2;
      } else {
        return Some(k.value + 1);
      }
    }
  }

  lemma {:induction false} DashEndIs(text: string, i: nat)
    requires i + 2 <= |text| && text[i] == '-' && text[i + 1] == '-'
    ensures EndOfLine(text, i) == i + DashEnd(text[i..])
  {
    FindShift(text, i, 0, "\n");
    var s := text[i..];
    match FindFrom(s, 0, "\n")
    case None => assert text[|text| - 1] == s[|s| - 1];
    case Some(e) =>
      FindIsFirst(s, 0, "\n");
      assert s[e + 0] == "\n"[0];
      assert text[i + e - 1] == s[e - 1];
  }

  /** `sql_spans` reports the comments of the grammar, and fails exactly where it does. */
  method SqlSpans(sc: Scanner, text: string) returns (r: Option<seq<Span>>)
    requires sc.language == Sql
    ensures r == Spans(sc, text, 0)
  {
    hide Next, LexemeShape, Spans, Extend;
    var spans: seq<Span>, i: nat := [], 0;
    assert text[0..] == text;
    EmptyExtend(Spans(sc, text, 0));
    while i < |text|
      invariant i <= |text|
      invariant Extend(spans, Spans(sc, text[i..], i)) == Spans(sc, text, 0)
      decreases |text| - i
    {
      var l := SqlLexeme(sc, text, i);
      if l.None? {
        Fails(sc, text, i, spans);
        return None;
      }
      if l.value.kind == Comment {
        ResumeAfter(sc, text, i, spans, l.value);
        spans := spans + [(i, i + l.value.size)];
      } else {
        SkipToken(sc, text, i, spans, l.value);
      }
      i := i + l.value.size;
    }
    NothingLeft(sc, text, i, spans);
    return Some(spans);
  }

  /** The loop body of `sql_spans`. */
  method SqlLexeme(sc: Scanner, text: string, i: nat) returns (r: Option<Lexeme>)
    requires i < |text| && sc.language == Sql
    ensures r == Next(sc, text[i..])
  {
    var c := text[i];
    ghost var s := text[i..];
    assert s[0] == c && (if i + 1 < |text| then |s| >= 2 && s[1] == text[i + 1] else |s| == 1);
    if i + 1 < |text| && c == '-' && text[i + 1] == '-' {
      DashEndIs(text, i);
      return Some(Lexeme(Comment, EndOfLine(text, i) - i));
    }
    if i + 1 < |text| && c == '/' && text[i + 1] == '*' {
      FindShift(text, i, 2, "*/");
      var j := FindFrom(text, i + 2, "*/");
      return if j.None? then None else Some(Lexeme(Comment, j.value + 2 - i));
    }
    if c == '\'' || c == '"' || c == '`' {
      var j := SqlLiteralEnd(text, i);
      return if j.None? then None else Some(Lexeme(Token, j.value - i));
    }
    return Some(OneChar(c));
  }

  /** `spans_for`, for the languages modelled here. */
  method SpansFor(sc: Scanner, text: string) returns (r: Option<seq<Span>>)
    ensures r == Spans(sc, text, 0)
  {
    if sc.language == Sql {
      r := SqlSpans(sc, text);
    } else {
      r := CFamilySpans(sc, text);
    }
  }

  // ----- spans and labels -----

  predicate InSpans(spans: seq<Span>, k: nat) {
    exists i :: 0 <= i < |spans| && spans[i].0 <= k < spans[i].1
  }

  /** Spans are in bounds, non-empty, in order and disjoint. */
  predicate Ordered(spans: seq<Span>, lo: nat, hi: nat) {
    && (forall i :: 0 <= i < |spans| ==> lo <= spans[i].0 < spans[i].1 <= hi)
    && (forall i, j :: 0 <= i < j < |spans| ==> spans[i].1 <= spans[j].0)
  }

  /** A span is one whole comment of the labelled text. */
  ghost predicate IsCommentAt(x: seq<Cell>, a: nat, b: nat) {
    && a < b <= |x| && x[a].tag == CommentFirst
    && (forall k :: a < k < b ==> x[k].tag == CommentRest)
    && (b < |x| ==> x[b].tag != CommentRest)
  }

  /** The spans are exactly the comments of the labelled text, in order. */
  ghost predicate Report(x: seq<Cell>, spans: seq<Span>, off: nat) {
    && Ordered(spans, off, off + |x|)
    && (forall k: nat :: k < |x| ==> (x[k].IsComment() <==> InSpans(spans, off + k)))
    && (forall i :: 0 <= i < |spans| ==> IsCommentAt(x, spans[i].0 - off, spans[i].1 - off))
  }

  lemma {:induction false} SpansAreComments(sc: Scanner, s: string, off: nat)
    ensures Spans(sc, s, off).Some? <==> Lex(sc, s).Some?
    ensures Lex(sc, s).Some? ==> Report(Lex(sc, s).value, Spans(sc, s, off).value, off)
    ensures Lex(sc, s).Some? && s != [] ==> Lex(sc, s).value[0].tag != CommentRest
    decreases |s|
  {
    hide Next, Report;
    if s == [] {
      assert Report([], [], off) by { EmptyReport(off); }
    } else if Next(sc, s).Some? {
      var l := Next(sc, s).value;
      SpansAreComments(sc, s[l.size..], off + l.size);
      assert CellsOf(s, l)[0] == Cell(s[0], TagAt(l.kind, true));
      if Lex(sc, s[l.size..]).Some? {
        ReportStep(s, l, Lex(sc, s[l.size..]).value, Spans(sc, s[l.size..], off + l.size).value, off);
      }
    }
  }

  lemma {:induction false} EmptyReport(off: nat)
    ensures Report([], [], off)
  {
  }

  lemma {:induction false} CommentShift(p: seq<Cell>, x: seq<Cell>, a: nat, b: nat)
    requires IsCommentAt(x, a, b)
    ensures IsCommentAt(p + x, |p| + a, |p| + b)
  {
    assert forall k :: a <= k < |x| ==> (p + x)[|p| + k] == x[k];
    forall k | |p| + a < k < |p| + b
      ensures (p + x)[k].tag == CommentRest
    {
      assert (p + x)[k] == x[k - |p|];
    }
  }

  lemma {:induction false} CommentHead(s: string, l: Lexeme, x: seq<Cell>)
    requires 0 < l.size <= |s| && l.kind == Comment
    requires x != [] ==> x[0].tag != CommentRest
    ensures IsCommentAt(CellsOf(s, l) + x, 0, l.size)
  {
    var cells := CellsOf(s, l);
    assert forall k :: 0 <= k < l.size ==> (cells + x)[k] == cells[k];
  }

  lemma {:induction false} InSpansSplit(one: seq<Span>, two: seq<Span>, k: nat)
    ensures InSpans(one + two, k) <==> InSpans(one, k) || InSpans(two, k)
  {
    var all := one + two;
    if InSpans(one, k) {
      var i :| 0 <= i < |one| && one[i].0 <= k < one[i].1;
      assert all[i] == one[i];
    }
    if InSpans(two, k) {
      var i :| 0 <= i < |two| && two[i].0 <= k < two[i].1;
      assert all[|one| + i] == two[i];
    }
    if InSpans(all, k) {
      var i :| 0 <= i < |all| && all[i].0 <= k < all[i].1;
      assert i < |one| ==> one[i] == all[i];
      assert i >= |one| ==> two[i - |one|] == all[i];
    }
  }

  lemma {:induction false} ReportStep(s: string, l: Lexeme, x: seq<Cell>, spans: seq<Span>, off: nat)
    requires 0 < l.size <= |s| && Report(x, spans, off + l.size)
    requires x != [] ==> x[0].tag != CommentRest
    ensures Report(CellsOf(s, l) + x, SpanOf(l, off) + spans, off)
  {
    hide IsCommentAt, InSpans, CellsOf;
    var cells, one := CellsOf(s, l), SpanOf(l, off);
    var x', all := cells + x, one + spans;
    forall k: nat | k < |x'|
      ensures x'[k].IsComment() <==> InSpans(all, off + k)
    {
      InSpansSplit(one, spans, off + k);
      StepCovers(s, l, x, spans, off, k);
    }
    forall i | 0 <= i < |all|
      ensures IsCommentAt(x', all[i].0 - off, all[i].1 - off)
    {
      if i < |one| {
        CommentHead(s, l, x);
      } else {
        assert all[i] == spans[i - |one|];
        CommentShift(cells, x, all[i].0 - off - l.size, all[i].1 - off - l.size);
      }
    }
  }

  lemma {:induction false} StepCovers(s: string, l: Lexeme, x: seq<Cell>, spans: seq<Span>, off: nat, k: nat)
    requires 0 < l.size <= |s| && Report(x, spans, off + l.size) && k < l.size + |x|
    ensures (CellsOf(s, l) + x)[k].IsComment() <==> InSpans(SpanOf(l, off), off + k) || InSpans(spans, off + k)
  {
    if k < l.size {
      assert (CellsOf(s, l) + x)[k] == CellsOf(s, l)[k];
      assert l.kind == Comment ==> SpanOf(l, off)[0].0 <= off + k < SpanOf(l, off)[0].1;
    } else {
      assert (CellsOf(s, l) + x)[k] == x[k - l.size];
      assert off + l.size + (k - l.size) == off + k;
    }
  }
}
