/** `str.split` and `str.join` with a separator of one character. */
module Splitting {

  /** `s.split(sep)`. */
  function SplitOn(s: string, sep: char): (parts: seq<string>)
    ensures parts != []
  {
    if s == "" then [""]
    else
      var rest := SplitOn(s[1..], sep);
      if s[0] == sep then [""] + rest else [[s[0]] + rest[0]] + rest[1..]
  }

  /** `sep.join(parts)`. */
  function JoinWith(parts: seq<string>, sep: char): string {
    if parts == [] then "" else if |parts| == 1 then parts[0] else parts[0] + [sep] + JoinWith(parts[1..], sep)
  }

  lemma {:induction false} SplitPrefix(p: string, s: string, sep: char)
    requires sep !in p
    ensures SplitOn(p + s, sep) == [p + SplitOn(s, sep)[0]] + SplitOn(s, sep)[1..]
    decreases |p|
  {
    var rest := SplitOn(s, sep);
    if p == "" {
      assert p + s == s;
      assert p + rest[0] == rest[0];
      assert rest == [rest[0]] + rest[1..];
    } else {
      assert (p + s)[1..] == p[1..] + s;
      SplitPrefix(p[1..], s, sep);
      assert [p[0]] + (p[1..] + rest[0]) == p + rest[0];
      assert ([p[1..] + rest[0]] + rest[1..])[1..] == rest[1..];
    }
  }

  /** Splitting what was joined gives the parts back when no part holds the separator. */
  lemma {:induction false} SplitJoined(parts: seq<string>, sep: char)
    requires parts != [] && forall i :: 0 <= i < |parts| ==> sep !in parts[i]
    ensures SplitOn(JoinWith(parts, sep), sep) == parts
    decreases |parts|
  {
    var p := parts[0];
    assert p + "" == p;
    if |parts| == 1 {
      SplitPrefix(p, "", sep);
      assert SplitOn("", sep) == [""];
      assert SplitOn(p, sep) == [p + ""] + [] == [p];
    } else {
      var rest := JoinWith(parts[1..], sep);
      SplitJoined(parts[1..], sep);
      SplitPrefix(p, [sep] + rest, sep);
      assert ([sep] + rest)[1..] == rest;
      assert SplitOn([sep] + rest, sep) == [""] + parts[1..];
      assert ([""] + parts[1..])[1..] == parts[1..];
      assert p + ([sep] + rest) == p + [sep] + rest;
      assert [p] + parts[1..] == parts;
    }
  }

  /** Joining what was split gives the text back. */
  lemma {:induction false} JoinSplit(s: string, sep: char)
    ensures JoinWith(SplitOn(s, sep), sep) == s
    decreases |s|
  {
    if s != "" {
      var rest := SplitOn(s[1..], sep);
      JoinSplit(s[1..], sep);
      assert s == [s[0]] + s[1..];
      if s[0] == sep {
        assert ([""] + rest)[1..] == rest;
        assert "" + [sep] + JoinWith(rest, sep) == s;
      } else {
        JoinGrows(s[0], rest, sep);
      }
    }
  }

  lemma {:induction false} JoinGrows(c: char, rest: seq<string>, sep: char)
    requires rest != []
    ensures JoinWith([[c] + rest[0]] + rest[1..], sep) == [c] + JoinWith(rest, sep)
  {
    var parts := [[c] + rest[0]] + rest[1..];
    if |rest| == 1 {
      assert parts == [[c] + rest[0]];
    } else {
      assert parts[1..] == rest[1..];
      var t := JoinWith(rest[1..], sep);
      assert [c] + (rest[0] + [sep] + t) == ([c] + rest[0]) + [sep] + t;
    }
  }
}
