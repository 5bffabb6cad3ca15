/** Character classes and the `str` operations the scanners rely on. */
module Text {

  datatype Option<+T> = None | Some(value: T)

  /** `str.isspace`, which is also the set that `str.strip` removes. */
  predicate IsSpace(c: char) {
    var n := c as int;
    || 9 <= n <= 13 || 28 <= n <= 32 || n == 0x85 || n == 0xA0 || n == 0x1680
    || 0x2000 <= n <= 0x200A || n == 0x2028 || n == 0x2029 || n == 0x202F
    || n == 0x205F || n == 0x3000
  }

  /** The two characters named by `strip(" \t")`. */
  predicate IsBlank(c: char) {
    c == ' ' || c == '\t'
  }

  predicate AllSpace(s: string) {
    forall i :: 0 <= i < |s| ==> IsSpace(s[i])
  }

  predicate IdentStart(c: char) {
    'A' <= c <= 'Z' || 'a' <= c <= 'z' || c == '_'
  }

  predicate IdentChar(c: char) {
    IdentStart(c) || '0' <= c <= '9'
  }

  /** `s.startswith(pat, j)`. */
  predicate StartsAt(s: string, j: nat, pat: string) {
    j + |pat| <= |s| && forall t :: 0 <= t < |pat| ==> s[j + t] == pat[t]
  }

  /** `s.find(pat, i)`. */
  function FindFrom(s: string, i: nat, pat: string): (r: Option<nat>)
    ensures r.Some? ==> i <= r.value && r.value + |pat| <= |s|
    decreases |s| - i
  {
    if StartsAt(s, i, pat) then Some(i)
    else if i >= |s| then None
    else FindFrom(s, i + 1, pat)
  }

  /** It is the first occurrence, or there is none. */
  lemma {:induction false} FindIsFirst(s: string, i: nat, pat: string)
    ensures FindFrom(s, i, pat).Some? ==> StartsAt(s, FindFrom(s, i, pat).value, pat)
    ensures FindFrom(s, i, pat).Some? ==>
      forall j: nat :: i <= j < FindFrom(s, i, pat).value ==> !StartsAt(s, j, pat)
    ensures FindFrom(s, i, pat).None? ==> forall j: nat :: i <= j ==> !StartsAt(s, j, pat)
    decreases |s| - i
  {
    if !StartsAt(s, i, pat) && i < |s| {
      FindIsFirst(s, i + 1, pat);
    }
  }

  /** `end_of_line(text, i)`. */
  function EndOfLine(text: string, i: nat): (j: nat)
    requires i <= |text|
    ensures i <= j <= |text|
  {
    var j := match FindFrom(text, i, "\n") case None => |text| case Some(e) => e;
    if j > i && text[j - 1] == '\r' then j - 1 else j
  }

  /** The first occurrence only depends on the text up to its end. */
  lemma {:induction false} FindStable(s: string, s': string, i: nat, pat: string, k: nat)
    requires FindFrom(s, i, pat) == Some(k)
    requires k + |pat| <= |s'| && Agree(s, s', k + |pat|)
    ensures FindFrom(s', i, pat) == Some(k)
    decreases k - i
  {
    assert StartsAt(s', i, pat) == (i + |pat| <= |s'| && StartsAt(s, i, pat));
    if !StartsAt(s, i, pat) {
      FindStable(s, s', i + 1, pat, k);
    }
  }

  /** The two texts share their first `n` characters. */
  predicate Agree(s: string, s': string, n: nat) {
    n <= |s| && n <= |s'| && forall t :: 0 <= t < n ==> s[t] == s'[t]
  }

  /** `s.rstrip(" \t")` as the number of characters that stay. */
  function BlankFreeLen(s: string): (n: nat)
    ensures n <= |s|
    ensures forall i :: n <= i < |s| ==> IsBlank(s[i])
    ensures n > 0 ==> !IsBlank(s[n - 1])
  {
    if s == [] || !IsBlank(s[|s| - 1]) then |s| else BlankFreeLen(s[..|s| - 1])
  }

  /** The number of leading blanks that `s.lstrip(" \t")` removes. */
  function LeadingBlanks(s: string): (n: nat)
    ensures n <= |s|
    ensures forall i :: 0 <= i < n ==> IsBlank(s[i])
    ensures n < |s| ==> !IsBlank(s[n])
  {
    if s == [] || !IsBlank(s[0]) then 0 else 1 + LeadingBlanks(s[1..])
  }

  /** `str.rstrip()`. */
  function RStrip(s: string): string {
    if s == "" || !IsSpace(s[|s| - 1]) then s else RStrip(s[..|s| - 1])
  }

  /** `s.startswith(prefix)`. */
  predicate StartsWith(s: string, prefix: string) {
    |prefix| <= |s| && s[..|prefix|] == prefix
  }

  lemma NotPrefix(s: string, prefix: string, k: nat)
    requires k < |s| && k < |prefix| && s[k] != prefix[k]
    ensures !StartsWith(s, prefix)
  {
    assert |prefix| <= |s| ==> s[..|prefix|][k] == s[k];
  }

  /** `s.endswith(suffix)`. */
  predicate EndsWith(s: string, suffix: string) {
    |suffix| <= |s| && s[|s| - |suffix|..] == suffix
  }

  /** Some element of the set: the order in which a set or dictionary is gone through is not fixed. */
  ghost function Pick<T>(s: set<T>): (x: T)
    requires s != {}
    ensures x in s
  {
    var x :| x in s;
    x
  }
}
