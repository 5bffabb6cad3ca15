/**
  * A lexeme is recognised from its own characters and at most two more. These lemmas
  * say exactly how much of the following text may change before the lexeme does.
  */
module Stability {
  import opened Text
  import opened Lexer

  /** The text after a token may change like this without changing the token. */
  predicate TokenFollow(s: string, s': string, m: nat)
    requires 0 < m <= |s| && m <= |s'|
  {
    || m == |s'|
    || Sep(s'[m])
    || Sep(s[m - 1])
    || (m < |s| && s[m] == s'[m]
        && (s[m] == '\'' ==> m + 1 < |s| && m + 1 < |s'| && s[m + 1] == s'[m + 1]))
  }

  /** The text after a comment may change like this without changing the comment. */
  predicate CommentFollow(s: string, s': string, m: nat)
    requires 0 < m <= |s| && m <= |s'|
  {
    && (m == |s| ==> m == |s'|)
    && (m < |s| && s[m] in "\r\n" ==>
          && m < |s'| && s[m] == s'[m]
          && (s[m] == '\r' && m + 1 == |s| ==> m + 1 == |s'|)
          && (s[m] == '\r' && m + 1 < |s| && s[m + 1] == '\n' ==> m + 1 < |s'| && s'[m + 1] == '\n'))
  }

  lemma {:induction false} QuoteStable(s: string, s': string, j: nat, quote: char)
    requires QuoteEnd(s, j, quote).Some?
    requires Agree(s, s', QuoteEnd(s, j, quote).value)
    ensures QuoteEnd(s', j, quote) == QuoteEnd(s, j, quote)
    decreases |s| - j
  {
    if s[j] == '\\' {
      QuoteStable(s, s', j + 2, quote);
    } else if s[j] != quote {
      QuoteStable(s, s', j + 1, quote);
    }
  }

  lemma {:induction false} SqlQuoteStable(s: string, s': string, j: nat, quote: char, e: nat)
    requires SqlQuoteEnd(s, j, quote) == Some(e)
    requires Agree(s, s', e)
    requires e < |s'| && e < |s| ==> (s'[e] == quote ==> s[e] == quote)
    requires e < |s'| && e == |s| ==> s'[e] != quote
    ensures SqlQuoteEnd(s', j, quote) == Some(e)
    decreases |s| - j
  {
    hide FindFrom;
    var k := FindFrom(s, j, [quote]).value;
    FindIsFirst(s, j, [quote]);
    assert StartsAt(s, k, [quote]) && s[k + 0] == [quote][0];
    if k + 1 < |s| && s[k + 1] == quote {
      FindStable(s, s', j, [quote], k);
      SqlQuoteStable(s, s', k + 2, quote, e);
    } else {
      FindStable(s, s', j, [quote], k);
    }
  }

  lemma {:induction false} NumberStable(sc: Scanner, s: string, s': string, j: nat, e: nat)
    requires 0 < j <= |s| && NumberEnd(sc, s, j) == e
    requires Agree(s, s', e)
    requires e == |s'| || !NumberGoesOn(sc, s', e)
    ensures NumberEnd(sc, s', j) == e
    decreases |s| - j
  {
    if j < |s| && NumberGoesOn(sc, s, j) {
      NumberStable(sc, s, s', j + 1, e);
      if s[j] == '\'' {
        assert j + 2 <= e;
      }
    }
  }

  lemma {:induction false} NumberStops(sc: Scanner, s: string, j: nat)
    requires 0 < j <= |s|
    ensures var e := NumberEnd(sc, s, j); e == |s| || !NumberGoesOn(sc, s, e)
    decreases |s| - j
  {
    if j < |s| && NumberGoesOn(sc, s, j) {
      NumberStops(sc, s, j + 1);
    }
  }

  lemma {:induction false} IdentStable(s: string, s': string, j: nat, e: nat)
    requires 0 < j <= |s| && IdentEnd(s, j) == e
    requires Agree(s, s', e)
    requires e == |s'| || !IdentChar(s'[e])
    ensures IdentEnd(s', j) == e
    decreases |s| - j
  {
    if j < |s| && IdentChar(s[j]) {
      IdentStable(s, s', j + 1, e);
    }
  }

  lemma {:induction false} IdentStops(s: string, j: nat)
    requires 0 < j <= |s|
    ensures var e := IdentEnd(s, j); e == |s| || !IdentChar(s[e])
    decreases |s| - j
  {
    if j < |s| && IdentChar(s[j]) {
      IdentStops(s, j + 1);
    }
  }

  lemma {:induction false} RawStable(s: string, s': string, q: nat)
    requires q < |s| && s[q] == '"' && RawEnd(s, q).Some?
    requires Agree(s, s', RawEnd(s, q).value)
    ensures q < |s'| && s'[q] == '"' && RawEnd(s', q) == RawEnd(s, q)
  {
    hide FindFrom;
    var open := FindFrom(s, q + 1, "(").value;
    FindStable(s, s', q + 1, "(", open);
    var delim := s[q + 1..open];
    assert s'[q + 1..open] == delim;
    var tail := ")" + delim + "\"";
    FindStable(s, s', open + 1, tail, FindFrom(s, open + 1, tail).value);
  }

  lemma {:induction false} LineEndStable(s: string, s': string, j: nat, e: nat)
    requires 0 < j <= |s| && LineEnd(s, j) == e
    requires Agree(s, s', e)
    requires e == |s| ==> e == |s'|
    requires e < |s| ==> e < |s'| && s[e] == s'[e]
    ensures LineEnd(s', j) == e
    decreases |s| - j
  {
    if !(j == |s| || (s[j] == '\n' && s[j - 1] != '\\')) {
      LineEndStable(s, s', j + 1, e);
    }
  }

  /** The comment part of `NextStable`. */
  lemma {:induction false} CommentStable(sc: Scanner, s: string, s': string, l: Lexeme)
    requires s != [] && Next(sc, s) == Some(l) && l.kind == Comment
    requires Agree(s, s', l.size) && CommentFollow(s, s', l.size)
    ensures Next(sc, s') == Some(l)
  {
    assert s'[0] == s[0] && s'[1] == s[1];
    if s[1] == '*' {
      FindStable(s, s', 2, "*/", FindFrom(s, 2, "*/").value);
    } else if sc.language == Sql {
      DashStable(s, s', l.size);
    } else {
      var e := LineEnd(s, 2);
      assert Agree(s, s', e);
      LineEndStable(s, s', 2, e);
    }
  }

  lemma {:induction false} DashStable(s: string, s': string, m: nat)
    requires |s| >= 2 && s[0] == '-' && s[1] == '-' && DashEnd(s) == m
    requires Agree(s, s', m) && CommentFollow(s, s', m)
    ensures |s'| >= 2 && DashEnd(s') == m
  {
    match FindFrom(s, 0, "\n")
    case Some(e) =>
      FindIsFirst(s, 0, "\n");
      assert s[e + 0] == "\n"[0];
      assert Agree(s, s', e + 1);
      FindStable(s, s', 0, "\n", e);
    case None =>
      assert Agree(s, s', |s|) && |s'| == |s|;
      assert s == s';
  }

  /** The word branch of `TokenStable`. */
  lemma {:induction false} WordStable(sc: Scanner, s: string, s': string, m: nat)
    requires s != [] && IdentStart(s[0]) && WordLexeme(sc, s) == Some(Lexeme(Token, m))
    requires 0 < m <= |s| && Agree(s, s', m) && TokenFollow(s, s', m)
    ensures WordLexeme(sc, s') == Some(Lexeme(Token, m))
  {
    var e := IdentEnd(s, 1);
    IdentStops(s, 1);
    assert e <= m;
    assert s[..e] == s'[..e];
    if !sc.Plain() && RawPrefix(s[..e]) && e < |s| && s[e] == '"' {
      IdentStable(s, s', 1, e);
      RawStable(s, s', e);
    } else {
      IdentStable(s, s', 1, e);
    }
  }

  /** The token part of `NextStable` for the C family. */
  lemma {:induction false} CTokenStable(sc: Scanner, s: string, s': string, m: nat)
    requires s != [] && CNext(sc, s) == Some(Lexeme(Token, m))
    requires 0 < m <= |s| && Agree(s, s', m) && TokenFollow(s, s', m)
    ensures CNext(sc, s') == Some(Lexeme(Token, m))
  {
    if s[0] == '"' || s[0] == '\'' {
      QuoteStable(s, s', 1, s[0]);
    } else if NumberStart(sc, s) {
      NumberStops(sc, s, 1);
      NumberStable(sc, s, s', 1, m);
    } else if IdentStart(s[0]) {
      WordStable(sc, s, s', m);
    } else {
      assert m == 1;
    }
  }

  /** Next depends on the lexeme's own text and on what `TokenFollow` and `CommentFollow` fix. */
  lemma {:induction false} NextStable(sc: Scanner, s: string, s': string, l: Lexeme)
    requires s != [] && Next(sc, s) == Some(l)
    requires Agree(s, s', l.size)
    requires l.kind == Token ==> TokenFollow(s, s', l.size)
    requires l.kind == Comment ==> CommentFollow(s, s', l.size)
    ensures s' != [] && Next(sc, s') == Some(l)
  {
    if l.kind == Comment {
      CommentStable(sc, s, s', l);
    } else if l.kind == Token && sc.language == Sql {
      if s[0] == '\'' || s[0] == '"' || s[0] == '`' {
        SqlQuoteEnds(s, 1, s[0], l.size);
        SqlQuoteStable(s, s', 1, s[0], l.size);
      }
    } else if l.kind == Token {
      CTokenStable(sc, s, s', l.size);
    }
  }

  lemma {:induction false} SqlQuoteEnds(s: string, j: nat, quote: char, e: nat)
    requires SqlQuoteEnd(s, j, quote) == Some(e)
    ensures e < |s| ==> s[e] != quote
    decreases |s| - j
  {
    hide FindFrom;
    var k := FindFrom(s, j, [quote]).value;
    FindIsFirst(s, j, [quote]);
    assert StartsAt(s, k, [quote]) && s[k + 0] == [quote][0];
    if k + 1 < |s| && s[k + 1] == quote {
      SqlQuoteEnds(s, k + 2, quote, e);
    }
  }
}
