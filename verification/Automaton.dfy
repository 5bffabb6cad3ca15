/**
  * A scanner that reads one character at a time, with one character of lookahead. The index-jumping
  * scanners report exactly the positions at which it stands inside a comment.
  */
module Automaton {
  import opened Text
  import opened Lexer
  import opened Stability
  import opened Scan

  datatype State =
    | Code
    | LineOpen                          // between the two characters that open a line comment
    | Line(prev: char)
    | BlockOpen                         // between the two characters that open a block comment
    | Block(star: bool)                 // `star`: the character before may begin the closing pair
    | Quote(quote: char)
    | Escape(quote: char)               // after a backslash
    | SqlQuote(quote: char)
    | Twin(quote: char)                 // between the two characters of a doubled quote
    | Number(prev: char)
    | Ident(word: string)
    | RawDelim(delim: string)
    | RawBody(delim: string, body: string)
    | Failed

  /** The states in which a text may end. */
  predicate Final(q: State) {
    q.Code? || q.Line? || q.Number? || q.Ident?
  }

  // ----- its own character classes, words and delimiters -----

  predicate Letter(c: char) {
    'A' <= c <= 'Z' || 'a' <= c <= 'z'
  }

  predicate Numeral(sc: Scanner, c: char) {
    '0' <= c <= '9' || (c in sc.digits && c as int > 127 && !IsSpace(c))
  }

  predicate Alphanumeric(sc: Scanner, c: char) {
    Letter(c) || Numeral(sc, c) || (c in sc.alnums && c as int > 127 && !IsSpace(c))
  }

  predicate RawWord(word: string) {
    word == "R" || word == "u8R" || word == "uR" || word == "UR" || word == "LR"
  }

  predicate DelimAllowed(delim: string) {
    |delim| <= 16 && ' ' !in delim && '\\' !in delim && '\n' !in delim && ')' !in delim
  }

  predicate Continues(sc: Scanner, prev: char, c: char, next: Option<char>) {
    || Alphanumeric(sc, c) || c == '_' || c == '.'
    || (c == '\'' && sc.language == Cpp && next.Some? && Alphanumeric(sc, next.value))
    || ((c == '+' || c == '-') && (prev == 'e' || prev == 'E' || prev == 'p' || prev == 'P'))
  }

  /** The next state, and whether this character belongs to a comment. */
  function CodeStep(sc: Scanner, c: char, next: Option<char>): (State, bool) {
    if sc.language == Sql then
      if c == '-' && next == Some('-') then (LineOpen, true)
      else if c == '/' && next == Some('*') then (BlockOpen, true)
      else if c == '\'' || c == '"' || c == '`' then (SqlQuote(c), false)
      else (Code, false)
    else if c == '/' && next == Some('/') then (LineOpen, true)
    else if c == '/' && next == Some('*') then (BlockOpen, true)
    else if c == '"' || c == '\'' then (Quote(c), false)
    else if Numeral(sc, c) || (c == '.' && next.Some? && Numeral(sc, next.value)) then (Number(c), false)
    else if Letter(c) || c == '_' then (Ident([c]), false)
    else (Code, false)
  }

  function Step(sc: Scanner, q: State, c: char, next: Option<char>): (State, bool) {
    match q
    case Code => CodeStep(sc, c, next)
    case LineOpen => (Line(c), true)
    case Line(prev) =>
      if c == '\n' && (sc.language == Sql || prev != '\\') then (Code, false)
      else if c == '\r' && (next == None || next == Some('\n')) then (Code, false)
      else (Line(c), true)
    case BlockOpen => (Block(false), true)
    case Block(star) => if star && c == '/' then (Code, true) else (Block(c == '*'), true)
    case Quote(quote) =>
      if c == '\\' then (Escape(quote), false)
      else if c == quote then (Code, false)
      else if c == '\n' then (Failed, false)
      else (q, false)
    case Escape(quote) => (Quote(quote), false)
    case SqlQuote(quote) => if c != quote then (q, false) else if next == Some(quote) then (Twin(quote), false) else (Code, false)
    case Twin(quote) => (SqlQuote(quote), false)
    case Number(prev) => if Continues(sc, prev, c, next) then (Number(c), false) else CodeStep(sc, c, next)
    case Ident(word) =>
      if Letter(c) || '0' <= c <= '9' || c == '_' then (Ident(word + [c]), false)
      else if c == '"' && sc.language == Cpp && RawWord(word) then (RawDelim(""), false)
      else CodeStep(sc, c, next)
    case RawDelim(delim) =>
      if c != '(' then (RawDelim(delim + [c]), false)
      else if DelimAllowed(delim) then (RawBody(delim, ""), false)
      else (Failed, false)
    case RawBody(delim, body) =>
      if Closes(body + [c], delim) then (Code, false) else (RawBody(delim, body + [c]), false)
    case Failed => (Failed, false)
  }

  predicate Closes(body: string, delim: string) {
    |body| >= |delim| + 2 && body[|body| - |delim| - 2..] == ")" + delim + "\""
  }

  function Peek(s: string): Option<char> {
    if |s| > 1 then Some(s[1]) else None
  }

  /** Which characters belong to comments; `None` when the text ends inside something. */
  function Run(sc: Scanner, q: State, s: string): (r: Option<seq<bool>>)
    ensures r.Some? ==> |r.value| == |s|
    decreases |s|
  {
    if s == [] then (if Final(q) then Some([]) else None)
    else
      var (q', b) := Step(sc, q, s[0], Peek(s));
      Glue([b], Run(sc, q', s[1..]))
  }

  function Glue(labels: seq<bool>, r: Option<seq<bool>>): Option<seq<bool>> {
    match r
    case None => None
    case Some(more) => Some(labels + more)
  }

  function Fill(n: nat, b: bool): (r: seq<bool>)
    ensures |r| == n && forall k :: 0 <= k < n ==> r[k] == b
  {
    seq(n, _ => b)
  }

  // ----- chaining steps -----

  /** From `j` to `e` the labels are all `b`, and from `e` on they are those of `q'`. */
  ghost predicate Leads(sc: Scanner, q: State, s: string, j: nat, e: nat, b: bool, q': State)
    requires j <= e <= |s|
  {
    Run(sc, q, s[j..]) == Glue(Fill(e - j, b), Run(sc, q', s[e..]))
  }

  lemma {:induction false} LeadsNow(sc: Scanner, q: State, s: string, j: nat, b: bool, q': State)
    requires j <= |s| && Run(sc, q, s[j..]) == Run(sc, q', s[j..])
    ensures Leads(sc, q, s, j, j, b, q')
  {
    var r := Run(sc, q', s[j..]);
    if r.Some? {
      assert Fill(0, b) + r.value == r.value;
    }
  }

  lemma {:induction false} LeadsStep(sc: Scanner, q: State, s: string, j: nat, e: nat, b: bool, q1: State, q': State)
    requires j < e <= |s| && Step(sc, q, s[j], Peek(s[j..])) == (q1, b) && Leads(sc, q1, s, j + 1, e, b, q')
    ensures Leads(sc, q, s, j, e, b, q')
  {
    hide Step, Glue, Fill;
    assert s[j..][1..] == s[j + 1..] && s[j..][0] == s[j];
    GlueMore(e - j - 1, b, Run(sc, q', s[e..]));
  }

  lemma {:induction false} GlueMore(n: nat, b: bool, r: Option<seq<bool>>)
    ensures Glue([b], Glue(Fill(n, b), r)) == Glue(Fill(n + 1, b), r)
  {
    if r.Some? {
      assert [b] + Fill(n, b) == Fill(n + 1, b);
      assert [b] + (Fill(n, b) + r.value) == ([b] + Fill(n, b)) + r.value;
    }
  }

  /** Both states do the same with what comes next. */
  lemma {:induction false} SameNext(sc: Scanner, q: State, s: string, j: nat, q': State)
    requires j <= |s| && (j == |s| ==> Final(q) && Final(q'))
    requires j < |s| ==> Step(sc, q, s[j], Peek(s[j..])) == Step(sc, q', s[j], Peek(s[j..]))
    ensures Run(sc, q, s[j..]) == Run(sc, q', s[j..])
  {
    hide Step;
    if j < |s| {
      assert s[j..][0] == s[j];
    }
  }

  lemma {:induction false} FailsStep(sc: Scanner, q: State, s: string, j: nat, q1: State, b: bool)
    requires j < |s| && Step(sc, q, s[j], Peek(s[j..])) == (q1, b) && Run(sc, q1, s[j + 1..]) == None
    ensures Run(sc, q, s[j..]) == None
  {
    hide Step;
    assert s[j..][1..] == s[j + 1..] && s[j..][0] == s[j];
  }

  lemma {:induction false} FailedRuns(sc: Scanner, s: string)
    ensures Run(sc, Failed, s) == None
    decreases |s|
  {
    if s != [] {
      FailedRuns(sc, s[1..]);
    }
  }

  lemma {:induction false} PeekAt(s: string, j: nat)
    requires j < |s|
    ensures Peek(s[j..]) == if j + 1 < |s| then Some(s[j + 1]) else None
  {
  }

  lemma {:induction false} StartsOne(s: string, j: nat, pat: string)
    requires |pat| == 1
    ensures StartsAt(s, j, pat) <==> j < |s| && s[j] == pat[0]
  {
    assert j < |s| ==> s[j + 0] == s[j];
  }

  lemma {:induction false} StartsTwo(s: string, j: nat, pat: string)
    requires |pat| == 2
    ensures StartsAt(s, j, pat) <==> j + 1 < |s| && s[j] == pat[0] && s[j + 1] == pat[1]
  {
    assert j < |s| ==> s[j + 0] == s[j];
  }

  // ----- comments -----

  /** No carriage return stands just before the end of the line. */
  predicate PastReturn(s: string, j: nat)
    requires 0 < j <= |s|
  {
    s[j - 1] != '\r' || (j < |s| && s[j] != '\n')
  }

  lemma {:induction false} LineRun(sc: Scanner, s: string, j: nat)
    requires sc.language != Sql && 0 < j <= |s| && PastReturn(s, j)
    ensures
      var m := TrimReturn(s, LineEnd(s, j));
      j <= m && Leads(sc, Line(s[j - 1]), s, j, m, true, Code)
    decreases |s| - j
  {
    hide Leads, Run;
    var q := Line(s[j - 1]);
    if j < |s| {
      PeekAt(s, j);
    }
    if j == |s| || (s[j] == '\n' && s[j - 1] != '\\') || (s[j] == '\r' && (j + 1 == |s| || s[j + 1] == '\n')) {
      SameNext(sc, q, s, j, Code);
      LeadsNow(sc, q, s, j, true, Code);
    } else {
      LineRun(sc, s, j + 1);
      LeadsStep(sc, q, s, j, TrimReturn(s, LineEnd(s, j)), true, Line(s[j]), Code);
    }
  }

  lemma {:induction false} DashRun(sc: Scanner, s: string, j: nat)
    requires sc.language == Sql && 2 <= j <= |s| && s[0] == '-' && s[1] == '-' && PastReturn(s, j)
    requires FindFrom(s, 0, "\n") == FindFrom(s, j, "\n")
    ensures j <= DashEnd(s) && Leads(sc, Line(s[j - 1]), s, j, DashEnd(s), true, Code)
    decreases |s| - j
  {
    hide Leads, Run;
    var q := Line(s[j - 1]);
    FindIsFirst(s, j, "\n");
    if j < |s| {
      PeekAt(s, j);
      StartsOne(s, j, "\n");
    }
    if j == |s| || s[j] == '\n' {
      SameNext(sc, q, s, j, Code);
      LeadsNow(sc, q, s, j, true, Code);
    } else if s[j] == '\r' && (j + 1 == |s| || s[j + 1] == '\n') {
      StartsOne(s, j + 1, "\n");
      SameNext(sc, q, s, j, Code);
      LeadsNow(sc, q, s, j, true, Code);
    } else {
      DashRun(sc, s, j + 1);
      LeadsStep(sc, q, s, j, DashEnd(s), true, Line(s[j]), Code);
    }
  }

  lemma {:induction false} BlockRun(sc: Scanner, s: string, j: nat, star: bool)
    requires 2 <= j <= |s| && (star <==> j > 2 && s[j - 1] == '*')
    requires FindFrom(s, 2, "*/") == FindFrom(s, if star then j - 1 else j, "*/")
    ensures BlockEnd(s).None? ==> Run(sc, Block(star), s[j..]) == None
    ensures BlockEnd(s).Some? ==> j <= BlockEnd(s).value && Leads(sc, Block(star), s, j, BlockEnd(s).value, true, Code)
    decreases |s| - j
  {
    hide Leads, Run;
    var from := if star then j - 1 else j;
    FindIsFirst(s, from, "*/");
    if j == |s| {
      assert !StartsAt(s, from, "*/") && !StartsAt(s, j, "*/");
      EndsUnfinished(sc, Block(star), s);
    } else {
      StartsTwo(s, j - 1, "*/");
      StartsTwo(s, j, "*/");
      if star && s[j] == '/' {
        LeadsNow(sc, Code, s, j + 1, true, Code);
        LeadsStep(sc, Block(star), s, j, j + 1, true, Code, Code);
      } else {
        BlockRun(sc, s, j + 1, s[j] == '*');
        match BlockEnd(s)
        case None => FailsStep(sc, Block(star), s, j, Block(s[j] == '*'), true);
        case Some(e) => LeadsStep(sc, Block(star), s, j, e, true, Block(s[j] == '*'), Code);
      }
    }
  }

  lemma EndsUnfinished(sc: Scanner, q: State, s: string)
    requires !Final(q)
    ensures Run(sc, q, s[|s|..]) == None
  {
  }

  // ----- literals -----

  lemma {:induction false} QuoteRun(sc: Scanner, s: string, j: nat, quote: char)
    requires j <= |s|
    ensures QuoteEnd(s, j, quote).None? ==> Run(sc, Quote(quote), s[j..]) == None
    ensures QuoteEnd(s, j, quote).Some? ==> Leads(sc, Quote(quote), s, j, QuoteEnd(s, j, quote).value, false, Code)
    decreases |s| - j
  {
    hide Leads, Run;
    var q, e := Quote(quote), QuoteEnd(s, j, quote);
    if j == |s| {
      EndsUnfinished(sc, q, s);
    } else if s[j] == '\\' {
      if j + 1 == |s| {
        EndsUnfinished(sc, Escape(quote), s);
        FailsStep(sc, q, s, j, Escape(quote), false);
      } else {
        QuoteRun(sc, s, j + 2, quote);
        if e.None? {
          FailsStep(sc, Escape(quote), s, j + 1, q, false);
          FailsStep(sc, q, s, j, Escape(quote), false);
        } else {
          LeadsStep(sc, Escape(quote), s, j + 1, e.value, false, q, Code);
          LeadsStep(sc, q, s, j, e.value, false, Escape(quote), Code);
        }
      }
    } else if s[j] == quote {
      LeadsNow(sc, Code, s, j + 1, false, Code);
      LeadsStep(sc, q, s, j, j + 1, false, Code, Code);
    } else if s[j] == '\n' {
      FailedRuns(sc, s[j + 1..]);
      FailsStep(sc, q, s, j, Failed, false);
    } else {
      QuoteRun(sc, s, j + 1, quote);
      if e.None? {
        FailsStep(sc, q, s, j, q, false);
      } else {
        LeadsStep(sc, q, s, j, e.value, false, q, Code);
      }
    }
  }

  /** `SqlQuoteEnd`, one character further. */
  lemma {:induction false} SqlQuoteNext(s: string, j: nat, quote: char)
    requires j <= |s|
    ensures j == |s| ==> SqlQuoteEnd(s, j, quote) == None
    ensures j < |s| && s[j] != quote ==> SqlQuoteEnd(s, j, quote) == SqlQuoteEnd(s, j + 1, quote)
    ensures j < |s| && s[j] == quote ==>
      SqlQuoteEnd(s, j, quote) == if j + 1 < |s| && s[j + 1] == quote then SqlQuoteEnd(s, j + 2, quote) else Some(j + 1)
  {
    if j < |s| {
      StartsOne(s, j, [quote]);
    }
  }

  lemma {:induction false} SqlQuoteRun(sc: Scanner, s: string, j: nat, quote: char)
    requires j <= |s|
    ensures SqlQuoteEnd(s, j, quote).None? ==> Run(sc, SqlQuote(quote), s[j..]) == None
    ensures SqlQuoteEnd(s, j, quote).Some? ==> Leads(sc, SqlQuote(quote), s, j, SqlQuoteEnd(s, j, quote).value, false, Code)
    decreases |s| - j
  {
    hide Leads, Run, SqlQuoteEnd;
    SqlQuoteNext(s, j, quote);
    var q, e := SqlQuote(quote), SqlQuoteEnd(s, j, quote);
    if j == |s| {
      EndsUnfinished(sc, q, s);
    } else {
      PeekAt(s, j);
      if s[j] != quote {
        SqlQuoteRun(sc, s, j + 1, quote);
        if e.None? {
          FailsStep(sc, q, s, j, q, false);
        } else {
          LeadsStep(sc, q, s, j, e.value, false, q, Code);
        }
      } else if j + 1 < |s| && s[j + 1] == quote {
        SqlQuoteRun(sc, s, j + 2, quote);
        if e.None? {
          FailsStep(sc, Twin(quote), s, j + 1, q, false);
          FailsStep(sc, q, s, j, Twin(quote), false);
        } else {
          LeadsStep(sc, Twin(quote), s, j + 1, e.value, false, q, Code);
          LeadsStep(sc, q, s, j, e.value, false, Twin(quote), Code);
        }
      } else {
        LeadsNow(sc, Code, s, j + 1, false, Code);
        LeadsStep(sc, q, s, j, j + 1, false, Code, Code);
      }
    }
  }

  // ----- numbers and words -----

  lemma {:induction false} NumberRun(sc: Scanner, s: string, j: nat)
    requires sc.language != Sql && 0 < j <= |s|
    ensures Leads(sc, Number(s[j - 1]), s, j, NumberEnd(sc, s, j), false, Code)
    decreases |s| - j
  {
    hide Leads, Run;
    var q := Number(s[j - 1]);
    if j < |s| {
      PeekAt(s, j);
      assert Continues(sc, s[j - 1], s[j], Peek(s[j..])) <==> NumberGoesOn(sc, s, j);
    }
    if j < |s| && NumberGoesOn(sc, s, j) {
      NumberRun(sc, s, j + 1);
      LeadsStep(sc, q, s, j, NumberEnd(sc, s, j), false, Number(s[j]), Code);
    } else {
      SameNext(sc, q, s, j, Code);
      LeadsNow(sc, q, s, j, false, Code);
    }
  }

  lemma {:induction false} IdentRun(sc: Scanner, s: string, j: nat)
    requires 0 < j <= |s|
    ensures Leads(sc, Ident(s[..j]), s, j, IdentEnd(s, j), false, Ident(s[..IdentEnd(s, j)]))
    decreases |s| - j
  {
    hide Leads, Run;
    var e := IdentEnd(s, j);
    if j < |s| && IdentChar(s[j]) {
      IdentRun(sc, s, j + 1);
      assert s[..j] + [s[j]] == s[..j + 1];
      LeadsStep(sc, Ident(s[..j]), s, j, e, false, Ident(s[..j + 1]), Ident(s[..e]));
    } else {
      LeadsNow(sc, Ident(s[..j]), s, j, false, Ident(s[..j]));
    }
  }

  // ----- raw strings -----

  lemma {:induction false} ClosesAt(s: string, start: nat, j: nat, delim: string)
    requires start <= j < |s|
    ensures
      var tail := ")" + delim + "\"";
      Closes(s[start..j] + [s[j]], delim) <==> start + |tail| <= j + 1 && StartsAt(s, j + 1 - |tail|, tail)
  {
    var tail, body := ")" + delim + "\"", s[start..j] + [s[j]];
    assert body == s[start..j + 1];
    if start + |tail| <= j + 1 {
      var k := j + 1 - |tail|;
      var part := s[k..j + 1];
      assert body[|body| - |tail|..] == part;
      assert forall t :: 0 <= t < |part| ==> part[t] == s[k + t];
    }
  }

  /** The body of a raw string: the first closing sequence ends it. */
  lemma {:induction false} BodyRun(sc: Scanner, s: string, start: nat, j: nat, delim: string)
    requires start <= j <= |s|
    requires FindFrom(s, start, ")" + delim + "\"").Some? ==> j < FindFrom(s, start, ")" + delim + "\"").value + |delim| + 2
    ensures
      var found := FindFrom(s, start, ")" + delim + "\"");
      && (found.None? ==> Run(sc, RawBody(delim, s[start..j]), s[j..]) == None)
      && (found.Some? ==> Leads(sc, RawBody(delim, s[start..j]), s, j, found.value + |delim| + 2, false, Code))
    decreases |s| - j
  {
    hide Leads, Run, FindFrom, StartsAt, Closes;
    var tail, q := ")" + delim + "\"", RawBody(delim, s[start..j]);
    FindIsFirst(s, start, tail);
    var found := FindFrom(s, start, tail);
    if j == |s| {
      EndsUnfinished(sc, q, s);
    } else {
      ClosesAt(s, start, j, delim);
      assert s[start..j] + [s[j]] == s[start..j + 1];
      if found.Some? && j + 1 == found.value + |tail| {
        assert j + 1 - |tail| == found.value;
        LeadsNow(sc, Code, s, j + 1, false, Code);
        LeadsStep(sc, q, s, j, j + 1, false, Code, Code);
      } else {
        var q1 := RawBody(delim, s[start..j + 1]);
        assert start + |tail| <= j + 1 ==> !StartsAt(s, j + 1 - |tail|, tail);
        BodyRun(sc, s, start, j + 1, delim);
        if found.None? {
          FailsStep(sc, q, s, j, q1, false);
        } else {
          LeadsStep(sc, q, s, j, found.value + |tail|, false, q1, Code);
        }
      }
    }
  }

  lemma {:induction false} DelimRun(sc: Scanner, s: string, q0: nat, j: nat)
    requires q0 < j <= |s| && s[q0] == '"' && FindFrom(s, q0 + 1, "(") == FindFrom(s, j, "(")
    ensures RawEnd(s, q0).None? ==> Run(sc, RawDelim(s[q0 + 1..j]), s[j..]) == None
    ensures RawEnd(s, q0).Some? ==>
      j <= RawEnd(s, q0).value && Leads(sc, RawDelim(s[q0 + 1..j]), s, j, RawEnd(s, q0).value, false, Code)
    decreases |s| - j
  {
    hide Leads, Run;
    var q, e := RawDelim(s[q0 + 1..j]), RawEnd(s, q0);
    FindIsFirst(s, j, "(");
    if j == |s| {
      EndsUnfinished(sc, q, s);
    } else {
      StartsOne(s, j, "(");
      if s[j] != '(' {
        assert s[q0 + 1..j] + [s[j]] == s[q0 + 1..j + 1];
        DelimRun(sc, s, q0, j + 1);
        if e.None? {
          FailsStep(sc, q, s, j, RawDelim(s[q0 + 1..j + 1]), false);
        } else {
          LeadsStep(sc, q, s, j, e.value, false, RawDelim(s[q0 + 1..j + 1]), Code);
        }
      } else {
        OpenRun(sc, s, q0, j);
      }
    }
  }

  lemma {:induction false} OpenRun(sc: Scanner, s: string, q0: nat, j: nat)
    requires q0 < j < |s| && s[q0] == '"' && FindFrom(s, q0 + 1, "(") == Some(j) && s[j] == '('
    ensures RawEnd(s, q0).None? ==> Run(sc, RawDelim(s[q0 + 1..j]), s[j..]) == None
    ensures RawEnd(s, q0).Some? ==>
      j <= RawEnd(s, q0).value && Leads(sc, RawDelim(s[q0 + 1..j]), s, j, RawEnd(s, q0).value, false, Code)
  {
    hide Leads, Run, FindFrom;
    var delim := s[q0 + 1..j];
    var q := RawDelim(delim);
    if !RawDelimiter(delim) {
      FailedRuns(sc, s[j + 1..]);
      FailsStep(sc, q, s, j, Failed, false);
    } else {
      var tail := ")" + delim + "\"";
      FindIsFirst(s, j + 1, tail);
      BodyRun(sc, s, j + 1, j + 1, delim);
      assert s[j + 1..j + 1] == "";
      match FindFrom(s, j + 1, tail)
      case None => FailsStep(sc, q, s, j, RawBody(delim, ""), false);
      case Some(k) => LeadsStep(sc, q, s, j, k + |tail|, false, RawBody(delim, ""), Code);
    }
  }

  // ----- one lexeme -----

  /** What the automaton does from the start of a lexeme. */
  ghost predicate Follows(sc: Scanner, s: string, r: Option<Lexeme>)
    requires r.Some? ==> r.value.size <= |s|
  {
    match r
    case None => Run(sc, Code, s) == None
    case Some(l) => Run(sc, Code, s) == Glue(Fill(l.size, l.kind == Comment), Run(sc, Code, s[l.size..]))
  }

  /** After its first characters, the automaton leads to the end of the lexeme. */
  lemma {:induction false} FollowsFrom(sc: Scanner, s: string, e: nat, kind: Kind, q: State)
    requires s != [] && 1 <= e <= |s| && CodeStep(sc, s[0], Peek(s)) == (q, kind == Comment)
    requires Leads(sc, q, s, 1, e, kind == Comment, Code)
    ensures Follows(sc, s, Some(Lexeme(kind, e)))
  {
    assert s[0..] == s;
    LeadsStep(sc, Code, s, 0, e, kind == Comment, q, Code);
  }

  lemma {:induction false} FailsFrom(sc: Scanner, s: string, q: State, b: bool)
    requires s != [] && CodeStep(sc, s[0], Peek(s)) == (q, b) && Run(sc, q, s[1..]) == None
    ensures Follows(sc, s, None)
  {
    assert s[0..] == s;
    FailsStep(sc, Code, s, 0, q, b);
  }

  lemma {:induction false} OneFollows(sc: Scanner, s: string)
    requires s != [] && CodeStep(sc, s[0], Peek(s)) == (Code, false)
    ensures Follows(sc, s, Some(OneChar(s[0])))
  {
    LeadsNow(sc, Code, s, 1, false, Code);
    FollowsFrom(sc, s, 1, OneChar(s[0]).kind, Code);
  }

  lemma {:induction false} BlockFollows(sc: Scanner, s: string)
    requires |s| >= 2 && CodeStep(sc, s[0], Peek(s)) == (BlockOpen, true)
    ensures Follows(sc, s, CommentOf(BlockEnd(s)))
  {
    hide Leads, Run, CodeStep;
    BlockRun(sc, s, 2, false);
    match BlockEnd(s)
    case None =>
      FailsStep(sc, BlockOpen, s, 1, Block(false), true);
      FailsFrom(sc, s, BlockOpen, true);
    case Some(e) =>
      LeadsStep(sc, BlockOpen, s, 1, e, true, Block(false), Code);
      FollowsFrom(sc, s, e, Comment, BlockOpen);
  }

  lemma {:induction false} LineFollows(sc: Scanner, s: string)
    requires |s| >= 2 && sc.language != Sql && s[1] == '/' && CodeStep(sc, s[0], Peek(s)) == (LineOpen, true)
    ensures Follows(sc, s, Some(Lexeme(Comment, TrimReturn(s, LineEnd(s, 2)))))
  {
    hide Leads, Run, CodeStep;
    LineRun(sc, s, 2);
    var m := TrimReturn(s, LineEnd(s, 2));
    LeadsStep(sc, LineOpen, s, 1, m, true, Line(s[1]), Code);
    FollowsFrom(sc, s, m, Comment, LineOpen);
  }

  lemma {:induction false} DashFollows(sc: Scanner, s: string)
    requires |s| >= 2 && sc.language == Sql && s[0] == '-' && s[1] == '-' && CodeStep(sc, s[0], Peek(s)) == (LineOpen, true)
    ensures Follows(sc, s, Some(Lexeme(Comment, DashEnd(s))))
  {
    hide Leads, Run, CodeStep;
    StartsOne(s, 0, "\n");
    StartsOne(s, 1, "\n");
    DashRun(sc, s, 2);
    LeadsStep(sc, LineOpen, s, 1, DashEnd(s), true, Line(s[1]), Code);
    FollowsFrom(sc, s, DashEnd(s), Comment, LineOpen);
  }

  lemma {:induction false} WordFollows(sc: Scanner, s: string)
    requires s != [] && sc.language != Sql && IdentStart(s[0]) && CodeStep(sc, s[0], Peek(s)) == (Ident([s[0]]), false)
    ensures Follows(sc, s, WordLexeme(sc, s))
  {
    hide Leads, Run, CodeStep, RawEnd;
    var e := IdentEnd(s, 1);
    IdentStops(s, 1);
    IdentRun(sc, s, 1);
    assert s[..1] == [s[0]];
    var q := Ident(s[..e]);
    if !sc.Plain() && RawPrefix(s[..e]) && e < |s| && s[e] == '"' {
      assert s[e + 1..e + 1] == "";
      DelimRun(sc, s, e, e + 1);
      if RawEnd(s, e).None? {
        FailsStep(sc, q, s, e, RawDelim(""), false);
        LeadsNone(sc, Ident([s[0]]), s, 1, e, q);
        FailsFrom(sc, s, Ident([s[0]]), false);
      } else {
        var m := RawEnd(s, e).value;
        LeadsStep(sc, q, s, e, m, false, RawDelim(""), Code);
        LeadsOn(sc, Ident([s[0]]), s, 1, e, m, false, q, Code);
        FollowsFrom(sc, s, m, Token, Ident([s[0]]));
      }
    } else {
      SameNext(sc, q, s, e, Code);
      LeadsNow(sc, q, s, e, false, Code);
      LeadsOn(sc, Ident([s[0]]), s, 1, e, e, false, q, Code);
      FollowsFrom(sc, s, e, Token, Ident([s[0]]));
    }
  }

  lemma {:induction false} LeadsNone(sc: Scanner, q: State, s: string, j: nat, e: nat, q': State)
    requires j <= e <= |s| && Leads(sc, q, s, j, e, false, q') && Run(sc, q', s[e..]) == None
    ensures Run(sc, q, s[j..]) == None
  {
  }

  lemma {:induction false} LeadsOn(sc: Scanner, q: State, s: string, j: nat, e: nat, m: nat, b: bool, q1: State, q': State)
    requires j <= e <= m <= |s| && Leads(sc, q, s, j, e, b, q1) && Leads(sc, q1, s, e, m, b, q')
    ensures Leads(sc, q, s, j, m, b, q')
  {
    hide Run;
    var r := Run(sc, q', s[m..]);
    if r.Some? {
      assert Fill(e - j, b) + Fill(m - e, b) == Fill(m - j, b);
      assert Fill(e - j, b) + (Fill(m - e, b) + r.value) == (Fill(e - j, b) + Fill(m - e, b)) + r.value;
    }
  }

  lemma {:induction false} QuoteFollows(sc: Scanner, s: string)
    requires s != [] && CodeStep(sc, s[0], Peek(s)) == (Quote(s[0]), false)
    ensures Follows(sc, s, TokenOf(QuoteEnd(s, 1, s[0])))
  {
    hide Leads, Run, CodeStep;
    QuoteRun(sc, s, 1, s[0]);
    match QuoteEnd(s, 1, s[0])
    case None => FailsFrom(sc, s, Quote(s[0]), false);
    case Some(e) => FollowsFrom(sc, s, e, Token, Quote(s[0]));
  }

  lemma {:induction false} SqlQuoteFollows(sc: Scanner, s: string)
    requires s != [] && CodeStep(sc, s[0], Peek(s)) == (SqlQuote(s[0]), false)
    ensures Follows(sc, s, TokenOf(SqlQuoteEnd(s, 1, s[0])))
  {
    hide Leads, Run, CodeStep;
    SqlQuoteRun(sc, s, 1, s[0]);
    match SqlQuoteEnd(s, 1, s[0])
    case None => FailsFrom(sc, s, SqlQuote(s[0]), false);
    case Some(e) => FollowsFrom(sc, s, e, Token, SqlQuote(s[0]));
  }

  /** The automaton passes one lexeme of the grammar at a time. */
  lemma {:induction false} NextFollows(sc: Scanner, s: string)
    requires s != []
    ensures Follows(sc, s, Next(sc, s))
  {
    hide Leads, Run, Follows, LexemeShape, BlockEnd, DashEnd, LineEnd, QuoteEnd, SqlQuoteEnd, WordLexeme, NumberEnd;
    if sc.language == Sql {
      if |s| >= 2 && s[0] == '-' && s[1] == '-' {
        DashFollows(sc, s);
      } else if |s| >= 2 && s[0] == '/' && s[1] == '*' {
        BlockFollows(sc, s);
      } else if s[0] == '\'' || s[0] == '"' || s[0] == '`' {
        SqlQuoteFollows(sc, s);
      } else {
        OneFollows(sc, s);
      }
    } else if |s| >= 2 && s[0] == '/' && s[1] == '/' {
      LineFollows(sc, s);
    } else if |s| >= 2 && s[0] == '/' && s[1] == '*' {
      BlockFollows(sc, s);
    } else if s[0] == '"' || s[0] == '\'' {
      QuoteFollows(sc, s);
    } else if NumberStart(sc, s) {
      NumberRun(sc, s, 1);
      FollowsFrom(sc, s, NumberEnd(sc, s, 1), Token, Number(s[0]));
    } else if IdentStart(s[0]) {
      WordFollows(sc, s);
    } else {
      OneFollows(sc, s);
    }
  }

  // ----- the theorem -----

  lemma {:induction false} LabelsAreCells(sc: Scanner, s: string)
    ensures Run(sc, Code, s).Some? <==> Lex(sc, s).Some?
    ensures Lex(sc, s).Some? ==>
      forall k :: 0 <= k < |s| ==> (Run(sc, Code, s).value[k] <==> Lex(sc, s).value[k].IsComment())
    decreases |s|
  {
    hide Next, LexemeShape, Step;
    if s != [] {
      NextFollows(sc, s);
      if Next(sc, s).Some? {
        var l := Next(sc, s).value;
        LabelsAreCells(sc, s[l.size..]);
      }
    }
  }

  /**
    * The spans of a text and the automaton agree: both fail on the same texts, and a position lies
    * in a span exactly when the automaton is in a comment there.
    */
  lemma {:induction false} SpansAreLabels(sc: Scanner, text: string)
    ensures Spans(sc, text, 0).Some? <==> Run(sc, Code, text).Some?
    ensures Spans(sc, text, 0).Some? ==>
      && Ordered(Spans(sc, text, 0).value, 0, |text|)
      && forall k: nat :: k < |text| ==> (InSpans(Spans(sc, text, 0).value, k) <==> Run(sc, Code, text).value[k])
  {
    hide Next, Step, Run, Lex, Spans;
    LabelsAreCells(sc, text);
    SpansAreComments(sc, text, 0);
    if Lex(sc, text).Some? {
      forall k: nat | k < |text|
        ensures InSpans(Spans(sc, text, 0).value, k) <==> Run(sc, Code, text).value[k]
      {
        assert Lex(sc, text).value[k].IsComment() <==> InSpans(Spans(sc, text, 0).value, 0 + k);
      }
    }
  }
}
