/** What the scanner answers on literals and comments that are written out, whatever follows them. */
module ScanLaws {
  import opened Text
  import opened Lexer
  import opened Scan

  /** The prefix is one lexeme: no comment starts in it, and scanning goes on behind it. */
  lemma {:induction false} PassesToken(sc: Scanner, a: string, rest: string, off: nat)
    requires a != "" && Next(sc, a + rest) == Some(Lexeme(Token, |a|))
    ensures Spans(sc, a + rest, off) == Spans(sc, rest, off + |a|)
  {
    hide Next;
    var s := a + rest;
    assert s[|a|..] == rest;
    EmptyExtend(Spans(sc, rest, off + |a|));
  }

  lemma {:induction false} PassesComment(sc: Scanner, a: string, rest: string, off: nat)
    requires a != "" && Next(sc, a + rest) == Some(Lexeme(Comment, |a|))
    ensures Spans(sc, a + rest, off) == Extend([(off, off + |a|)], Spans(sc, rest, off + |a|))
  {
    hide Next;
    assert (a + rest)[|a|..] == rest;
  }

  // ----- words -----

  predicate LetterOrDigit(c: char) {
    'A' <= c <= 'Z' || 'a' <= c <= 'z' || '0' <= c <= '9' || c == '_'
  }

  predicate IsWord(w: string) {
    w != "" && !('0' <= w[0] <= '9') && forall k :: 0 <= k < |w| ==> LetterOrDigit(w[k])
  }

  lemma {:induction false} WordEnds(s: string, w: string, rest: string, j: nat)
    requires s == w + rest && IsWord(w) && 0 < j <= |w| && (rest == "" || !LetterOrDigit(rest[0]))
    ensures IdentEnd(s, j) == |w|
    decreases |w| - j
  {
    if j < |w| {
      assert s[j] == w[j];
      WordEnds(s, w, rest, j + 1);
    } else {
      assert rest != "" ==> s[j] == rest[0];
    }
  }

  lemma NoNumber(sc: Scanner, s: string)
    requires s != "" && (LetterOrDigit(s[0]) && !('0' <= s[0] <= '9'))
    ensures !NumberStart(sc, s) && IdentStart(s[0]) && s[0] != '/' && s[0] != '"' && s[0] != '\''
  {
  }

  // ----- raw strings -----

  predicate IsRawPrefix(w: string) {
    w == "R" || w == "u8R" || w == "uR" || w == "UR" || w == "LR"
  }

  /** At most sixteen characters, none of them a blank, a backslash, a newline or a parenthesis. */
  predicate IsDelimiter(d: string) {
    |d| <= 16 && forall k :: 0 <= k < |d| ==> d[k] != ' ' && d[k] != '\\' && d[k] != '\n' && d[k] != ')' && d[k] != '('
  }

  /** The closing sequence does not occur in the body. */
  predicate Without(body: string, tail: string) {
    forall k: nat :: k <= |body| ==> !StartsAt(body, k, tail)
  }

  function RawLiteral(w: string, d: string, body: string): string {
    w + "\"" + d + "(" + body + ")" + d + "\""
  }

  lemma {:induction false} FindsAt(s: string, i: nat, pat: string, n: nat)
    requires i <= n && StartsAt(s, n, pat) && forall k: nat :: i <= k < n ==> !StartsAt(s, k, pat)
    ensures FindFrom(s, i, pat) == Some(n)
    decreases n - i
  {
    hide StartsAt;
    if i < n {
      assert n <= |s| by { StartsInside(s, n, pat); }
      FindsAt(s, i + 1, pat, n);
    }
  }

  lemma StartsInside(s: string, n: nat, pat: string)
    requires StartsAt(s, n, pat)
    ensures n + |pat| <= |s|
  {
  }

  lemma {:induction false} OneCharAt(s: string, k: nat, c: char)
    ensures StartsAt(s, k, [c]) <==> k < |s| && s[k] == c
  {
    assert k < |s| ==> s[k + 0] == s[k];
    assert [c][0] == c;
  }

  /** The first closing sequence is the one that was written. */
  lemma {:induction false} TailFound(head: string, body: string, d: string, rest: string)
    requires IsDelimiter(d) && Without(body, ")" + d + "\"")
    ensures
      var tail := ")" + d + "\"";
      FindFrom(head + body + tail + rest, |head|, tail) == Some(|head| + |body|)
  {
    var tail := ")" + d + "\"";
    var s, n := head + body + tail + rest, |head| + |body|;
    assert forall t :: 0 <= t < |tail| ==> s[n + t] == tail[t];
    forall k: nat | |head| <= k < n
      ensures !StartsAt(s, k, tail)
    {
      if k + |tail| <= n {
        Inside(s, head, body, tail + rest, k, tail);
      } else {
        Straddles(s, k, n, d);
      }
    }
    FindsAt(s, |head|, tail, n);
  }

  lemma {:induction false} Inside(s: string, head: string, body: string, more: string, k: nat, pat: string)
    requires s == head + body + more && |head| <= k && k + |pat| <= |head| + |body|
    ensures StartsAt(s, k, pat) ==> StartsAt(body, k - |head|, pat)
  {
    if StartsAt(s, k, pat) {
      forall t | 0 <= t < |pat|
        ensures body[k - |head| + t] == pat[t]
      {
        assert s[k + t] == body[k - |head| + t];
      }
    }
  }

  /** No occurrence runs into the closing sequence: a delimiter holds no parenthesis. */
  lemma {:induction false} Straddles(s: string, k: nat, n: nat, d: string)
    requires IsDelimiter(d) && k < n < k + |d| + 2 && n < |s| && s[n] == ')'
    ensures !StartsAt(s, k, ")" + d + "\"")
  {
    var tail := ")" + d + "\"";
    assert tail[n - k] != ')';
    assert s[k + (n - k)] == s[n];
  }

  lemma {:induction false} RawPassed(sc: Scanner, w: string, d: string, body: string, rest: string)
    requires sc.language == Cpp && IsRawPrefix(w) && IsDelimiter(d) && Without(body, ")" + d + "\"")
    ensures Next(sc, RawLiteral(w, d, body) + rest) == Some(Lexeme(Token, |RawLiteral(w, d, body)|))
  {
    hide Next, RawEnd, IsDelimiter, Without, RawLiteral;
    var s := RawLiteral(w, d, body) + rest;
    RawEnds(s, w, d, body, rest);
    assert s[..|w|] == w by { RawStarts(w, d, body); }
    RawNext(sc, s, w, |RawLiteral(w, d, body)|);
  }

  lemma {:induction false} RawStarts(w: string, d: string, body: string)
    ensures |w| <= |RawLiteral(w, d, body)| && RawLiteral(w, d, body)[..|w|] == w
  {
  }

  lemma {:induction false} RawNext(sc: Scanner, s: string, w: string, n: nat)
    requires sc.language == Cpp && IsRawPrefix(w) && |w| < |s| && s[..|w|] == w && s[|w|] == '"' && RawEnd(s, |w|) == Some(n)
    ensures Next(sc, s) == Some(Lexeme(Token, n))
  {
    hide IdentEnd, RawEnd, LineEnd, BlockEnd, QuoteEnd, NumberEnd;
    RawIsWord(w);
    assert s == w + s[|w|..];
    WordEnds(s, w, s[|w|..], 1);
    assert s[0] == w[0];
    NoNumber(sc, s);
  }

  lemma RawIsWord(w: string)
    requires IsRawPrefix(w)
    ensures IsWord(w) && RawPrefix(w)
  {
  }

  lemma {:induction false} RawEnds(s: string, w: string, d: string, body: string, rest: string)
    requires s == RawLiteral(w, d, body) + rest && IsDelimiter(d) && Without(body, ")" + d + "\"")
    ensures |w| < |s| && s[|w|] == '"' && RawEnd(s, |w|) == Some(|RawLiteral(w, d, body)|)
  {
    hide FindFrom, Without;
    var head, tail, open := w + "\"" + d + "(", ")" + d + "\"", |w| + 1 + |d|;
    assert s == head + body + tail + rest;
    assert s == w + "\"" + d + "(" + (body + tail + rest);
    OpenFound(s, w, d, body + tail + rest);
    assert s[|w| + 1..open] == d;
    TailFound(head, body, d, rest);
    assert RawDelimiter(d);
  }

  lemma {:induction false} OpenFound(s: string, w: string, d: string, more: string)
    requires s == w + "\"" + d + "(" + more && IsDelimiter(d)
    ensures FindFrom(s, |w| + 1, "(") == Some(|w| + 1 + |d|)
  {
    var n := |w| + 1 + |d|;
    assert s[n] == '(' && forall k :: |w| + 1 <= k < n ==> s[k] == d[k - |w| - 1];
    assert "(" == ['('];
    OneCharAt(s, n, '(');
    forall k: nat | |w| + 1 <= k < n
      ensures !StartsAt(s, k, "(")
    {
      OneCharAt(s, k, '(');
    }
    FindsAt(s, |w| + 1, "(", n);
  }

  /** A raw string hides whatever looks like a comment or a quote in it. */
  lemma {:induction false} RawHides(sc: Scanner, w: string, d: string, body: string, rest: string, off: nat)
    requires sc.language == Cpp && IsRawPrefix(w) && IsDelimiter(d) && Without(body, ")" + d + "\"")
    ensures Spans(sc, RawLiteral(w, d, body) + rest, off) == Spans(sc, rest, off + |RawLiteral(w, d, body)|)
  {
    hide Next, Spans;
    RawPassed(sc, w, d, body, rest);
    PassesToken(sc, RawLiteral(w, d, body), rest, off);
  }

  /** Any other word before a quote, and in the other languages every word, leaves the quote an ordinary one. */
  lemma {:induction false} WordsPass(sc: Scanner, w: string, rest: string, off: nat)
    requires sc.language != Sql && IsWord(w) && (sc.language == Cpp ==> !IsRawPrefix(w))
    ensures Spans(sc, w + ("\"" + rest), off) == Spans(sc, "\"" + rest, off + |w|)
  {
    hide Spans, IdentEnd;
    var s := w + ("\"" + rest);
    WordEnds(s, w, "\"" + rest, 1);
    NoNumber(sc, s);
    assert s[..|w|] == w;
    assert RawPrefix(w) ==> IsRawPrefix(w) by { PrefixWords(w); }
    PassesToken(sc, w, "\"" + rest, off);
  }

  lemma PrefixWords(w: string)
    ensures RawPrefix(w) ==> IsRawPrefix(w)
  {
    assert |w| == 1 ==> w == [w[0]];
    assert |w| == 2 ==> w == [w[0], w[1]];
    assert |w| == 3 ==> w == [w[0], w[1], w[2]];
  }

  // ----- ordinary literals -----

  /** Every quote of this kind is behind a backslash, every backslash before a character, and no line ends. */
  predicate LiteralBody(s: string, quote: char) {
    s == "" || (if s[0] == '\\' then |s| > 1 && LiteralBody(s[2..], quote)
                else s[0] != quote && s[0] != '\n' && LiteralBody(s[1..], quote))
  }

  lemma {:induction false} LiteralEnds(s: string, j: nat, body: string, quote: char, rest: string)
    requires j <= |s| && s[j..] == body + [quote] + rest && LiteralBody(body, quote) && quote != '\\'
    ensures QuoteEnd(s, j, quote) == Some(j + |body| + 1)
    decreases |body|
  {
    var v := s[j..];
    assert s[j] == v[0];
    if body != "" {
      var n := if body[0] == '\\' then 2 else 1;
      assert v[0] == body[0];
      assert s[j + n..] == v[n..] == body[n..] + [quote] + rest;
      LiteralEnds(s, j + n, body[n..], quote, rest);
    }
  }

  /** An ordinary literal hides what looks like a comment in it. */
  lemma {:induction false} LiteralHides(sc: Scanner, quote: char, body: string, rest: string, off: nat)
    requires sc.language != Sql && (quote == '"' || quote == '\'') && LiteralBody(body, quote)
    ensures
      var lit := [quote] + body + [quote];
      Spans(sc, lit + rest, off) == Spans(sc, rest, off + |lit|)
  {
    hide Spans, QuoteEnd;
    var lit := [quote] + body + [quote];
    var s := lit + rest;
    assert s[1..] == body + [quote] + rest && s[0] == quote;
    LiteralEnds(s, 1, body, quote, rest);
    PassesToken(sc, lit, rest, off);
  }

  // ----- comments -----

  lemma {:induction false} LineRuns(s: string, j: nat, n: nat)
    requires 0 < j <= n <= |s| && (n == |s| || (s[n] == '\n' && s[n - 1] != '\\'))
    requires forall k :: j <= k < n ==> s[k] != '\n'
    ensures LineEnd(s, j) == n
    decreases n - j
  {
    if j < n {
      LineRuns(s, j + 1, n);
    }
  }

  /** A line comment goes to the end of its line. */
  lemma {:induction false} LineComment(sc: Scanner, body: string, rest: string, off: nat)
    requires sc.language != Sql && '\n' !in body && (body != "" ==> body[|body| - 1] != '\\' && body[|body| - 1] != '\r')
    requires rest == "" || rest[0] == '\n'
    ensures Spans(sc, "//" + body + rest, off) == Extend([(off, off + 2 + |body|)], Spans(sc, rest, off + 2 + |body|))
  {
    hide Spans, LineEnd;
    var a := "//" + body;
    var s, n := a + rest, |body| + 2;
    assert s[0] == '/' && s[1] == '/' && (rest != "" ==> s[n] == rest[0]) && s[n - 1] == a[n - 1];
    assert forall k :: 2 <= k < n ==> s[k] == body[k - 2];
    LineRuns(s, 2, n);
    PassesComment(sc, a, rest, off);
  }

  /** A block comment goes to the first closing pair. */
  lemma {:induction false} BlockComment(sc: Scanner, body: string, rest: string, off: nat)
    requires Without(body + "*", "*/")
    ensures
      var a := "/*" + body + "*/";
      Spans(sc, a + rest, off) == Extend([(off, off + |a|)], Spans(sc, rest, off + |a|))
  {
    hide Spans, FindFrom;
    var a := "/*" + body + "*/";
    var s, n, t := a + rest, |body| + 2, body + "*";
    assert s == "/*" + t + ("/" + rest);
    assert s[0] == '/' && s[1] == '*' && s[n] == '*' && s[n + 1] == '/';
    assert "*/" == ['*', '/'];
    forall k: nat | 2 <= k < n
      ensures !StartsAt(s, k, "*/")
    {
      Inside(s, "/*", t, "/" + rest, k, "*/");
    }
    assert StartsAt(s, n, "*/") by { assert forall i :: 0 <= i < 2 ==> s[n + i] == "*/"[i]; }
    FindsAt(s, 2, "*/", n);
    PassesComment(sc, a, rest, off);
  }
}
