/** How the lines of a template are cut and read. */
module BootLines {
  import opened Text
  import opened Boot
  import opened BootMask

  /** The line boundaries of `str.splitlines`. */
  const BREAKS := "\n\r\U{0B}\U{0C}\U{1C}\U{1D}\U{1E}\U{85}\U{2028}\U{2029}"

  /** Each of them ends a line, a carriage return together with a newline behind it. */
  lemma {:induction false} LineCut(l: string, c: char, rest: string)
    requires c in BREAKS && forall k :: 0 <= k < |l| ==> l[k] !in BREAKS
    ensures SplitLines(l + [c] + rest) == [l] + SplitLines(if c == '\r' && rest != "" && rest[0] == '\n' then rest[1..] else rest)
  {
    hide BreakIndex;
    var s := l + [c] + rest;
    assert forall k :: 0 <= k < |l| ==> s[k] == l[k];
    BreaksAre(c);
    forall k | 0 <= k < |l|
      ensures !IsBreak(l[k])
    {
      BreaksAre(l[k]);
    }
    var k := BreakIndex(s);
    assert s[|l|] == c;
    if |l| < k {
      NoBreakBefore(s, k, |l|);
    }
    assert s[..k] == l && s[k + 1..] == rest;
    assert rest != "" ==> s[k + 1] == rest[0] && s[k + 2..] == rest[1..];
  }

  lemma NoBreakBefore(s: string, k: nat, n: nat)
    requires n < k <= |s| && OneLine(s[..k])
    ensures !IsBreak(s[n])
  {
    assert s[..k][n] == s[n];
  }

  /** A text without any of them is one line. */
  lemma {:induction false} LineWhole(l: string)
    requires l != "" && forall k :: 0 <= k < |l| ==> l[k] !in BREAKS
    ensures SplitLines(l) == [l]
  {
    hide BreakIndex;
    forall k | 0 <= k < |l|
      ensures !IsBreak(l[k])
    {
      BreaksAre(l[k]);
    }
    assert l[..|l|] == l;
  }

  lemma BreaksAre(c: char)
    ensures c in BREAKS <==> IsBreak(c)
  {
  }

  predicate Spaces(s: string) {
    forall k :: 0 <= k < |s| ==> IsSpace(s[k])
  }

  /** An assignment is read as its four parts; blanks at the end are dropped. */
  lemma {:induction false} LineParsed(indent: string, key: string, left: string, right: string, value: string, end: string)
    requires Spaces(indent) && Spaces(left) && Spaces(right) && Spaces(end) && Firm(value)
    requires key != "" && forall k :: 0 <= k < |key| ==> KeyChar(key[k])
    ensures
      var eq := left + "=" + right;
      ParseLine(indent + key + eq + (value + end)) == Some(Line(indent, key, eq, value))
  {
    hide IsSpace, KeyChar, SpaceLen, KeyLen, RStrip, EqLen;
    var eq, r := left + "=" + right, value + end;
    EqParsed(left, right, r) by { assert r[0] == value[0]; }
    FourParts(indent, key, eq, r);
    TrimRight(value, end);
  }

  lemma {:induction false} EqParsed(left: string, right: string, r: string)
    requires Spaces(left) && Spaces(right) && r != "" && !IsSpace(r[0])
    ensures EqLen(left + "=" + right + r) == Some(|left + "=" + right|)
  {
    hide IsSpace, SpaceLen;
    var s := left + "=" + right + r;
    EqualIsNotSpace();
    assert s[|left|] == '=';
    SpaceLenIs(s, |left|);
    assert s[|left| + 1..] == right + r;
    SpaceLenIs(right + r, |right|);
  }

  /** A header is read as the name between its brackets, without the blanks around it. */
  lemma {:induction false} SectionParsed(front: string, left: string, name: string, right: string, end: string)
    requires Spaces(front) && Spaces(left) && Spaces(right) && Spaces(end) && Firm(name) && ']' !in name
    ensures ParseSection(front + "[" + (left + name + right) + "]" + end) == Some(name)
  {
    hide IsSpace, SpaceLen, NameLen, RStrip;
    var inner := left + name + right;
    var raw := front + "[" + inner + "]" + end;
    var a := |front|;
    BracketsVisible();
    assert raw[a] == '[';
    SpaceLenIs(raw, a);
    assert raw[a + 1..] == inner + "]" + end;
    assert ']' !in inner by { assert forall k :: 0 <= k < |inner| ==> inner[k] != ']'; }
    NameIs(inner, end);
    var n := |inner|;
    assert raw[a + 2 + n..] == end && raw[a + 1..a + 1 + n] == inner;
    SpaceLenIs(end, |end|);
    StripIs(left, name, right);
  }

  lemma BracketsVisible()
    ensures !IsSpace('[') && !IsSpace(']')
  {
  }

  lemma {:induction false} NameIs(inner: string, end: string)
    requires ']' !in inner
    ensures NameLen(inner + "]" + end) == |inner|
    decreases |inner|
  {
    var s := inner + "]" + end;
    if inner != "" {
      assert s[0] == inner[0] && s[1..] == inner[1..] + "]" + end;
      NameIs(inner[1..], end);
    }
  }

  lemma {:induction false} StripIs(left: string, name: string, right: string)
    requires Spaces(left) && Spaces(right) && Firm(name)
    ensures Strip(left + name + right) == name
  {
    hide IsSpace, SpaceLen;
    TrimRight(left + name, right);
    var t := left + name;
    assert t[|left|] == name[0];
    SpaceLenIs(t, |left|);
    assert t[|left|..] == name;
  }

  lemma {:induction false} TrimRight(value: string, end: string)
    requires value != "" && !IsSpace(value[|value| - 1]) && Spaces(end)
    ensures RStrip(value + end) == value
    decreases |end|
  {
    hide IsSpace;
    if end == "" {
      assert value + end == value;
    } else {
      var n, s := |end| - 1, value + end;
      assert s[|s| - 1] == end[n] && s[..|s| - 1] == value + end[..n];
      TrimRight(value, end[..n]);
    }
  }
}
