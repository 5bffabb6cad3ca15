/** When a masked configuration hides the secrets: options may hold line breaks, and lines are read again. */
module BootReread {
  import opened Text
  import opened Collections
  import opened Boot
  import opened BootMask
  import opened BootRun

  // ----- what is read of a rendered line -----

  /** The lines that one rendered line is read as. */
  function Reread(l: string): seq<string> {
    SplitLines(l + "\n")
  }

  function AllReread(lines: seq<string>): seq<string> {
    if lines == [] then [] else Reread(lines[0]) + AllReread(lines[1..])
  }

  lemma {:induction false} RereadOne(l: string)
    requires OneLine(l)
    ensures Reread(l) == [l]
  {
    hide SplitLines;
    SplitFirst(l, "");
    assert l + "\n" + "" == l + "\n";
    SplitNothing();
  }

  /** Where the line after the first break starts. */
  function NextStart(a: string): (n: nat)
    requires BreakIndex(a) < |a|
    ensures BreakIndex(a) < n <= |a|
  {
    var k := BreakIndex(a);
    if a[k] == '\r' && k + 1 < |a| && a[k + 1] == '\n' then k + 2 else k + 1
  }

  lemma {:induction false} SplitHead(a: string, r: string)
    requires BreakIndex(a) < |a| && (r != "" && r[0] == '\n' ==> a[|a| - 1] != '\r' || BreakIndex(a) + 1 < |a|)
    ensures SplitLines(a + r) == [a[..BreakIndex(a)]] + SplitLines(a[NextStart(a)..] + r)
  {
    hide BreakIndex, OneLine, IsBreak;
    var k, n, s := BreakIndex(a), NextStart(a), a + r;
    BreakFirst(a, r, k);
    assert s[..k] == a[..k] && s[k] == a[k] && s[n..] == a[n..] + r;
    assert k + 1 < |s| ==> s[k + 1] == if k + 1 < |a| then a[k + 1] else r[0];
  }

  /** A carriage return that ends the text is one break with the newline after it. */
  lemma {:induction false} SplitReturn(a: string, b: string)
    requires a != "" && BreakIndex(a) == |a| - 1 && a[|a| - 1] == '\r'
    ensures SplitLines(a + ("\n" + b)) == [a[..|a| - 1]] + SplitLines(b)
  {
    hide BreakIndex, OneLine, IsBreak;
    var k, s := |a| - 1, a + ("\n" + b);
    BreakFirst(a, "\n" + b, k);
    assert s[..k] == a[..k] && s[k] == '\r' && s[k + 1] == '\n' && s[k + 2..] == b;
  }

  /** A newline separates what is read, also after a carriage return. */
  lemma {:induction false} SplitAt(a: string, b: string)
    ensures SplitLines(a + "\n" + b) == Reread(a) + SplitLines(b)
    decreases |a|
  {
    hide OneLine, IsBreak, BreakIndex, SplitLines, NextStart;
    var k := BreakIndex(a);
    assert a + "\n" + b == a + ("\n" + b) && "\n" + "" == "\n";
    SplitNothing();
    if k == |a| {
      assert OneLine(a) by { assert a[..k] == a; }
      SplitFirst(a, b);
      RereadOne(a);
    } else if a[k] == '\r' && k + 1 == |a| {
      SplitReturn(a, b);
      SplitReturn(a, "");
      assert [a[..k]] + [] == [a[..k]];
    } else {
      var rest := a[NextStart(a)..];
      SplitHead(a, "\n" + b);
      SplitHead(a, "\n");
      SplitAt(rest, b);
      assert rest + "\n" + b == rest + ("\n" + b);
      assert [a[..k]] + (Reread(rest) + SplitLines(b)) == ([a[..k]] + Reread(rest)) + SplitLines(b);
    }
  }

  /** What follows a break does not move it. */
  lemma {:induction false} BreakFirst(a: string, b: string, k: nat)
    requires k == BreakIndex(a) < |a|
    ensures BreakIndex(a + b) == k
    decreases |a|
  {
    assert (a + b)[0] == a[0];
    if k > 0 {
      assert (a + b)[1..] == a[1..] + b;
      BreakFirst(a[1..], b, k - 1);
    }
  }

  lemma {:induction false} JoinedRead(lines: seq<string>)
    requires lines != []
    ensures SplitLines(JoinLines(lines)) == AllReread(lines)
    decreases |lines|
  {
    hide SplitLines;
    if |lines| == 1 {
      assert lines[1..] == [];
      assert AllReread(lines) == Reread(lines[0]) + [];
    } else {
      SplitAt(lines[0], JoinLines(lines[1..]));
      JoinedRead(lines[1..]);
    }
  }

  lemma {:induction false} MaskConcat(a: seq<string>, b: seq<string>, section: string, hidden: set<string>)
    ensures MaskLines(a + b, section, hidden)
         == MaskLines(a, section, hidden) + MaskLines(b, SectionAfter(a, section), hidden)
    decreases |a|
  {
    hide ParseSection, ParseLine, Qualified;
    if a == [] {
      assert a + b == b;
    } else {
      var all := a + b;
      assert all[0] == a[0] && all[1..] == a[1..] + b;
      MaskConcat(a[1..], b, SectionOf(a[0], section), hidden);
      MaskCons(all, section, hidden);
      MaskCons(a, section, hidden);
      Regroup([], ShownLine(a[0], section, hidden), MaskLines(a[1..], SectionOf(a[0], section), hidden));
    }
  }

  lemma {:induction false} MaskCons(lines: seq<string>, section: string, hidden: set<string>)
    requires lines != []
    ensures MaskLines(lines, section, hidden)
         == [ShownLine(lines[0], section, hidden)] + MaskLines(lines[1..], SectionOf(lines[0], section), hidden)
    ensures SectionAfter(lines, section) == SectionAfter(lines[1..], SectionOf(lines[0], section))
  {
    hide ParseSection, ParseLine, Qualified;
  }

  // ----- one line of a render -----

  function Took(rule: Option<Rule>): nat {
    if rule.Some? && TakesPort(rule.value) then 1 else 0
  }

  function Drew(rule: Option<Rule>): nat {
    if rule == Some(Secret) then 1 else 0
  }

  function FirstPort(rule: Option<Rule>, ports: seq<nat>): nat {
    if Took(rule) <= |ports| && Took(rule) == 1 then ports[0] else 0
  }

  function FirstSecret(rule: Option<Rule>, secrets: seq<string>): string {
    if Drew(rule) <= |secrets| && Drew(rule) == 1 then secrets[0] else ""
  }

  lemma {:induction false} RenderCons(o: Options, lines: seq<string>, section: string, closed: nat, ports: seq<nat>, secrets: seq<string>)
    requires lines != [] && Enough(o, lines, section, closed, ports, secrets)
    ensures
      var raw, rule := lines[0], NextRule(o, lines[0], section, closed);
      var p, q := Took(rule), Drew(rule);
      && p <= |ports| && q <= |secrets|
      && Enough(o, lines[1..], SectionOf(raw, section), closed, ports[p..], secrets[q..])
      && var rest := Render(o, lines[1..], SectionOf(raw, section), closed, ports[p..], secrets[q..]);
         Render(o, lines, section, closed, ports, secrets) == Rendered(
           [LineOut(raw, rule, FirstPort(rule, ports), FirstSecret(rule, secrets))] + rest.lines,
           NameOut(raw, section, rule) + rest.secrets)
  {
    hide ParseSection, ParseLine, RuleFor, Rewrite, Qualified;
    var rule := NextRule(o, lines[0], section, closed);
    assert ports[0..] == ports && secrets[0..] == secrets;
    assert rule.None? ==> forall n: seq<string> :: [] + n == n;
  }

  // ----- exposed secrets -----

  /**
    * Some secret line is read in a section under which its name is not hidden; `section` is the one
    * `render` is in, `reading` the one `masked` is in.
    */
  predicate Exposed(o: Options, lines: seq<string>, section: string, reading: string, closed: nat, ports: seq<nat>, hidden: set<string>)
    decreases |lines|
  {
    lines != [] &&
    var raw, rule := lines[0], NextRule(o, lines[0], section, closed);
    || (rule == Some(Secret) && Qualified(reading, ParseLine(raw).value.key) !in hidden)
    || Exposed(o, lines[1..], SectionOf(raw, section),
         SectionAfter(Reread(LineOut(raw, rule, FirstPort(rule, ports), "")), reading), closed,
         if Took(rule) <= |ports| then ports[Took(rule)..] else ports, hidden)
  }

  /** What `masked` shows of a render. */
  function Seen(o: Options, lines: seq<string>, section: string, reading: string, closed: nat, ports: seq<nat>,
                secrets: seq<string>, hidden: set<string>): seq<string>
    requires Enough(o, lines, section, closed, ports, secrets)
  {
    MaskLines(AllReread(Render(o, lines, section, closed, ports, secrets).lines), reading, hidden)
  }

  lemma {:induction false} SeenCons(o: Options, lines: seq<string>, section: string, reading: string, closed: nat, ports: seq<nat>,
                                    secrets: seq<string>, hidden: set<string>)
    requires lines != [] && Enough(o, lines, section, closed, ports, secrets)
    ensures
      var raw, rule := lines[0], NextRule(o, lines[0], section, closed);
      var p, q := Took(rule), Drew(rule);
      var first := Reread(LineOut(raw, rule, FirstPort(rule, ports), FirstSecret(rule, secrets)));
      && p <= |ports| && q <= |secrets|
      && Enough(o, lines[1..], SectionOf(raw, section), closed, ports[p..], secrets[q..])
      && Seen(o, lines, section, reading, closed, ports, secrets, hidden)
         == MaskLines(first, reading, hidden)
            + Seen(o, lines[1..], SectionOf(raw, section), SectionAfter(first, reading), closed, ports[p..], secrets[q..], hidden)
  {
    hide NextRule, LineOut, NameOut, Reread, MaskLines, SectionAfter, Render, Enough;
    RenderCons(o, lines, section, closed, ports, secrets);
    var r := Render(o, lines, section, closed, ports, secrets);
    assert r.lines[1..] == Render(o, lines[1..], SectionOf(lines[0], section), closed,
      ports[Took(NextRule(o, lines[0], section, closed))..], secrets[Drew(NextRule(o, lines[0], section, closed))..]).lines;
    MaskConcat(Reread(r.lines[0]), AllReread(r.lines[1..]), reading, hidden);
  }

  /** A secret line is one line, in the section it is read in, and shows the secret unless it is masked. */
  lemma {:induction false} SecretSeen(o: Options, raw: string, section: string, reading: string, closed: nat, port: nat,
                                      secret: string, hidden: set<string>)
    requires OneLine(raw) && OneLine(secret) && NextRule(o, raw, section, closed) == Some(Secret)
    ensures ParseLine(raw).Some?
    ensures
      var line, l := ParseLine(raw).value, LineOut(raw, Some(Secret), port, secret);
      var head := line.indent + line.key + line.eq;
      && l == head + Quote(secret) && SectionAfter(Reread(l), reading) == reading
      && MaskLines(Reread(l), reading, hidden)
         == [if Qualified(reading, line.key) in hidden then head + MASK else l]
  {
    hide ParseLine, ParseSection, Quote, IsBreak, Firm, RuleFor, Qualified;
    var line, l := ParseLine(raw).value, LineOut(raw, Some(Secret), port, secret);
    LineOneLine(raw, line);
    QuoteOneLine(secret);
    ConcatOneLine(line.indent + line.key + line.eq, Quote(secret));
    RereadOne(l);
    QuoteFirm(secret);
    ReadsBack(raw, line, Quote(secret));
    MaskCons([l], reading, hidden);
    assert [l][1..] == [];
  }

  lemma {:induction false} EscapeInjective(a: string, b: string)
    requires Escape(a) == Escape(b)
    ensures a == b
    decreases |a|
  {
    if a != "" && b != "" {
      var x, y := Escape(a), Escape(b);
      assert x[0] == y[0] && (a[0] in "\\\"" ==> x[1] == y[1]);
      assert a[0] == b[0];
      var n := if a[0] in "\\\"" then 2 else 1;
      assert x[n..] == Escape(a[1..]) && y[n..] == Escape(b[1..]);
      EscapeInjective(a[1..], b[1..]);
      assert a == [a[0]] + a[1..] && b == [b[0]] + b[1..];
    }
  }

  lemma {:induction false} QuoteInjective(head: string, a: string, b: string)
    requires head + Quote(a) == head + Quote(b)
    ensures a == b
  {
    hide Escape;
    var x, y := head + Quote(a), head + Quote(b);
    assert x[|head|..] == Quote(a) && y[|head|..] == Quote(b);
    assert Quote(a)[1..|Quote(a)| - 1] == Escape(a) && Quote(b)[1..|Quote(b)| - 1] == Escape(b);
    EscapeInjective(a, b);
  }

  ghost predicate Differ(s: seq<string>, t: seq<string>) {
    |s| == |t| && forall i :: 0 <= i < |s| ==> s[i] != t[i]
  }

  /** Without an exposed secret all renders look the same; with one, renders with other secrets look different. */
  lemma {:induction false} SeenIff(o: Options, lines: seq<string>, section: string, reading: string, closed: nat, ports: seq<nat>,
                                   s: seq<string>, t: seq<string>, hidden: set<string>)
    requires Enough(o, lines, section, closed, ports, s) && Enough(o, lines, section, closed, ports, t)
    requires AllOneLine(lines) && AllOneLine(s) && AllOneLine(t)
    ensures
      var exposed := Exposed(o, lines, section, reading, closed, ports, hidden);
      var a, b := Seen(o, lines, section, reading, closed, ports, s, hidden), Seen(o, lines, section, reading, closed, ports, t, hidden);
      (!exposed ==> a == b) && (exposed && Differ(s, t) ==> a != b)
    decreases |lines|
  {
    hide NextRule, LineOut, Reread, MaskLines, SectionAfter, Enough, Seen, OneLine, SectionOf, Qualified;
    if lines != [] {
      var raw, rule := lines[0], NextRule(o, lines[0], section, closed);
      var p, q := Took(rule), Drew(rule);
      SeenCons(o, lines, section, reading, closed, ports, s, hidden);
      SeenCons(o, lines, section, reading, closed, ports, t, hidden);
      var port := FirstPort(rule, ports);
      var l := LineOut(raw, rule, port, "");
      var reading' := SectionAfter(Reread(l), reading);
      assert AllOneLine(lines[1..]) && AllOneLine(s[q..]) && AllOneLine(t[q..]);
      SeenIff(o, lines[1..], SectionOf(raw, section), reading', closed, ports[p..], s[q..], t[q..], hidden);
      var a := Seen(o, lines[1..], SectionOf(raw, section), reading', closed, ports[p..], s[q..], hidden);
      var b := Seen(o, lines[1..], SectionOf(raw, section), reading', closed, ports[p..], t[q..], hidden);
      if q == 1 {
        EmptyOneLine();
        SecretSeen(o, raw, section, reading, closed, port, "", hidden);
        SecretSeen(o, raw, section, reading, closed, port, s[0], hidden);
        SecretSeen(o, raw, section, reading, closed, port, t[0], hidden);
        var line := ParseLine(raw).value;
        var head := line.indent + line.key + line.eq;
        if Qualified(reading, line.key) in hidden {
          SamePrefix([head + MASK], a, b);
        } else if s[0] != t[0] {
          FirstDiffers(head, s[0], t[0], a, b);
        }
      } else {
        assert s[q..] == s && t[q..] == t;
        SamePrefix(MaskLines(Reread(l), reading, hidden), a, b);
      }
    } else {
      NothingSeen(o, section, reading, closed, ports, s, hidden);
      NothingSeen(o, section, reading, closed, ports, t, hidden);
    }
  }

  lemma {:induction false} SamePrefix(c: seq<string>, a: seq<string>, b: seq<string>)
    ensures c + a == c + b <==> a == b
  {
    assert (c + a)[|c|..] == a && (c + b)[|c|..] == b;
  }

  lemma {:induction false} FirstDiffers(head: string, s: string, t: string, a: seq<string>, b: seq<string>)
    requires s != t
    ensures [head + Quote(s)] + a != [head + Quote(t)] + b
  {
    hide Quote;
    if [head + Quote(s)] + a == [head + Quote(t)] + b {
      assert ([head + Quote(s)] + a)[0] == ([head + Quote(t)] + b)[0];
      QuoteInjective(head, s, t);
    }
  }

  lemma NothingSeen(o: Options, section: string, reading: string, closed: nat, ports: seq<nat>, secrets: seq<string>, hidden: set<string>)
    ensures Enough(o, [], section, closed, ports, secrets) && Seen(o, [], section, reading, closed, ports, secrets, hidden) == []
  {
  }

  // ----- the theorem -----

  /** The names that `render` reports, which do not depend on what it draws. */
  function SecretNames(o: Options, lines: seq<string>, section: string, closed: nat): seq<string>
    decreases |lines|
  {
    if lines == [] then []
    else
      NameOut(lines[0], section, NextRule(o, lines[0], section, closed))
      + SecretNames(o, lines[1..], SectionOf(lines[0], section), closed)
  }

  lemma {:induction false} NamesReported(o: Options, lines: seq<string>, section: string, closed: nat, ports: seq<nat>, secrets: seq<string>)
    requires Enough(o, lines, section, closed, ports, secrets)
    ensures Render(o, lines, section, closed, ports, secrets).secrets == SecretNames(o, lines, section, closed)
    decreases |lines|
  {
    hide NextRule, NameOut, LineOut, Render, Enough, SectionOf;
    if lines == [] {
      NothingRendered(o, section, closed, ports, secrets);
    } else {
      RenderCons(o, lines, section, closed, ports, secrets);
      var rule := NextRule(o, lines[0], section, closed);
      NamesReported(o, lines[1..], SectionOf(lines[0], section), closed, ports[Took(rule)..], secrets[Drew(rule)..]);
    }
  }

  lemma NothingRendered(o: Options, section: string, closed: nat, ports: seq<nat>, secrets: seq<string>)
    requires Enough(o, [], section, closed, ports, secrets)
    ensures Render(o, [], section, closed, ports, secrets) == Rendered([], [])
  {
  }

  /** A secret of the render would be shown; this can be told from the template, the options and the ports. */
  predicate ExposesSecret(o: Options, template: string, closed: nat, ports: seq<nat>) {
    var lines := SplitLines(template);
    Exposed(o, lines, "", "", closed, ports, Elements(SecretNames(o, lines, "", closed)))
  }

  lemma {:induction false} MaskOneLine(lines: seq<string>, section: string, hidden: set<string>)
    requires AllOneLine(lines)
    ensures AllOneLine(MaskLines(lines, section, hidden)) && |MaskLines(lines, section, hidden)| == |lines|
    decreases |lines|
  {
    hide ParseSection, ParseLine, Qualified, OneLine;
    if lines != [] {
      MaskCons(lines, section, hidden);
      assert OneLine(lines[0]) && AllOneLine(lines[1..]);
      MaskOneLine(lines[1..], SectionOf(lines[0], section), hidden);
      if ParseLine(lines[0]).Some? {
        var line := ParseLine(lines[0]).value;
        LineOneLine(lines[0], line);
        MaskIsOneLine();
        ConcatOneLine(line.indent + line.key + line.eq, MASK);
      }
    }
  }

  lemma MaskIsOneLine()
    ensures OneLine(MASK)
  {
  }

  lemma {:induction false} RereadOneLine(lines: seq<string>)
    ensures AllOneLine(AllReread(lines)) && (lines != [] ==> AllReread(lines) != [])
    decreases |lines|
  {
    hide OneLine;
    if lines != [] {
      RereadOneLine(lines[1..]);
      assert Reread(lines[0]) != [] by { assert lines[0] + "\n" != ""; }
    }
  }

  /** The masked text is what is seen, line by line. */
  lemma {:induction false} MaskedIsSeen(o: Options, template: string, closed: nat, draws: Draws)
    requires SplitLines(template) != [] && Enough(o, SplitLines(template), "", closed, draws.ports, draws.secrets)
    ensures
      var lines, (config, names) := SplitLines(template), Config(o, template, closed, draws);
      var seen := Seen(o, lines, "", "", closed, draws.ports, draws.secrets, Elements(SecretNames(o, lines, "", closed)));
      seen != [] && AllOneLine(seen) && Masked(config, names) == JoinLines(seen)
  {
    hide SplitLines, Render, MaskLines, Enough, OneLine, SecretNames, AllReread, JoinLines;
    var lines := SplitLines(template);
    var r := Render(o, lines, "", closed, draws.ports, draws.secrets);
    NamesReported(o, lines, "", closed, draws.ports, draws.secrets);
    RenderLength(o, lines, "", closed, draws.ports, draws.secrets);
    JoinedRead(r.lines);
    RereadOneLine(r.lines);
    MaskOneLine(AllReread(r.lines), "", Elements(r.secrets));
  }

  /**
    * The masked text of a configuration is the same for all secrets exactly when none of them is
    * exposed: otherwise any two renders whose secrets differ have different masked texts.
    */
  lemma {:induction false} MaskStableIff(o: Options, template: string, closed: nat, one: Draws, two: Draws)
    requires Enough(o, SplitLines(template), "", closed, one.ports, one.secrets)
    requires Enough(o, SplitLines(template), "", closed, two.ports, two.secrets)
    requires AllOneLine(one.secrets) && AllOneLine(two.secrets) && one.ports == two.ports
    ensures
      var (config, names) := Config(o, template, closed, one);
      var (config', names') := Config(o, template, closed, two);
      && (!ExposesSecret(o, template, closed, one.ports) ==> Masked(config, names) == Masked(config', names'))
      && (ExposesSecret(o, template, closed, one.ports) && Differ(one.secrets, two.secrets) ==>
           Masked(config, names) != Masked(config', names'))
  {
    hide SplitLines, Config, Masked, Enough, Seen, Exposed, SecretNames, OneLine, JoinLines;
    var lines := SplitLines(template);
    var hidden := Elements(SecretNames(o, lines, "", closed));
    if lines == [] {
      NothingMaskedTwice(o, template, closed, one, two, hidden);
    } else {
      MaskedIsSeen(o, template, closed, one);
      MaskedIsSeen(o, template, closed, two);
      var a := Seen(o, lines, "", "", closed, one.ports, one.secrets, hidden);
      var b := Seen(o, lines, "", "", closed, two.ports, two.secrets, hidden);
      SeenIff(o, lines, "", "", closed, one.ports, one.secrets, two.secrets, hidden);
      SplitsBack(a);
      SplitsBack(b);
    }
  }

  lemma {:induction false} NothingMaskedTwice(o: Options, template: string, closed: nat, one: Draws, two: Draws, hidden: set<string>)
    requires SplitLines(template) == []
    ensures Enough(o, SplitLines(template), "", closed, one.ports, one.secrets)
    ensures Enough(o, SplitLines(template), "", closed, two.ports, two.secrets)
    ensures Config(o, template, closed, one) == Config(o, template, closed, two)
    ensures !Exposed(o, SplitLines(template), "", "", closed, one.ports, hidden)
  {
    hide SplitLines, JoinLines;
  }

  // ----- options on one line are safe -----

  /** A rendered line that is one line leaves `masked` in the section `render` is in. */
  lemma {:induction false} LineKeepsSection(o: Options, raw: string, section: string, closed: nat, port: nat)
    requires OneLine(raw) && OneLine(LineOut(raw, NextRule(o, raw, section, closed), port, ""))
    ensures SectionAfter(Reread(LineOut(raw, NextRule(o, raw, section, closed), port, "")), section) == SectionOf(raw, section)
  {
    hide ParseSection, ParseLine, RuleFor, Rewrite, OneLine, Reread;
    var rule := NextRule(o, raw, section, closed);
    var l := LineOut(raw, rule, port, "");
    RereadOne(l);
    if rule.Some? {
      MaskOne(o, section, raw, ParseLine(raw).value, closed, if TakesPort(rule.value) then port else 0, "");
    }
    assert [l][1..] == [];
  }

  /** If no rendered line holds a break, nothing is exposed. */
  lemma {:induction false} OneLineSafe(o: Options, lines: seq<string>, section: string, closed: nat, ports: seq<nat>,
                                       secrets: seq<string>, hidden: set<string>)
    requires Enough(o, lines, section, closed, ports, secrets) && AllOneLine(lines)
    requires AllOneLine(Render(o, lines, section, closed, ports, secrets).lines)
    requires Elements(SecretNames(o, lines, section, closed)) <= hidden
    ensures !Exposed(o, lines, section, section, closed, ports, hidden)
    decreases |lines|
  {
    hide ParseLine, LineOut, Reread, SectionAfter, Enough, OneLine, SectionOf, Qualified, Render, NextRule;
    if lines != [] {
      var raw, rule := lines[0], NextRule(o, lines[0], section, closed);
      var p, q, names := Took(rule), Drew(rule), SecretNames(o, lines, section, closed);
      RenderCons(o, lines, section, closed, ports, secrets);
      var r, port := Render(o, lines, section, closed, ports, secrets), FirstPort(rule, ports);
      var rest := Render(o, lines[1..], SectionOf(raw, section), closed, ports[p..], secrets[q..]);
      assert AllOneLine(rest.lines) by { assert forall i :: 0 <= i < |rest.lines| ==> rest.lines[i] == r.lines[i + 1]; }
      assert AllOneLine(lines[1..]) && OneLine(raw) && OneLine(r.lines[0]);
      NamesLater(o, lines, section, closed);
      if q == 1 {
        EmptyOneLine();
        SecretSeen(o, raw, section, section, closed, port, "", hidden);
        SecretSection(o, raw, section, closed);
        assert names[0] == Qualified(section, ParseLine(raw).value.key);
      } else {
        LineKeepsSection(o, raw, section, closed, port);
      }
      OneLineSafe(o, lines[1..], SectionOf(raw, section), closed, ports[p..], secrets[q..], hidden);
    }
  }

  lemma SecretSection(o: Options, raw: string, section: string, closed: nat)
    requires NextRule(o, raw, section, closed) == Some(Secret)
    ensures SectionOf(raw, section) == section
  {
    hide ParseSection, ParseLine, RuleFor;
  }

  lemma {:induction false} NamesLater(o: Options, lines: seq<string>, section: string, closed: nat)
    requires lines != []
    ensures Elements(SecretNames(o, lines[1..], SectionOf(lines[0], section), closed)) <= Elements(SecretNames(o, lines, section, closed))
  {
    hide NextRule, SectionOf, NameOut;
    var one := NameOut(lines[0], section, NextRule(o, lines[0], section, closed));
    var all, rest := SecretNames(o, lines, section, closed), SecretNames(o, lines[1..], SectionOf(lines[0], section), closed);
    assert forall i :: 0 <= i < |rest| ==> rest[i] == all[|one| + i];
  }

  /** Options and resolved paths without a line break expose nothing. */
  lemma {:induction false} PlainOptionsHide(o: Options, template: string, closed: nat, draws: Draws)
    requires Enough(o, SplitLines(template), "", closed, draws.ports, draws.secrets)
    requires OptionsOk(o) && AllOneLine(draws.secrets)
    ensures !ExposesSecret(o, template, closed, draws.ports)
  {
    hide SplitLines, Enough, Render, Exposed, SecretNames, OptionsOk, OneLine;
    var lines := SplitLines(template);
    RenderOneLine(o, lines, "", closed, draws.ports, draws.secrets);
    OneLineSafe(o, lines, "", closed, draws.ports, draws.secrets, Elements(SecretNames(o, lines, "", closed)));
  }

  // ----- a scratch directory with a line break in its name -----

  lemma {:induction false} HeaderIs(name: string)
    requires Firm(name) && ']' !in name
    ensures ParseSection("[" + name + "]") == Some(name)
  {
    var raw := "[" + name + "]";
    hide SpaceLen, NameLen, RStrip, Firm;
    SpaceLenIs(raw, 0) by { BracketIsNotSpace(); }
    assert raw[1..] == name + "]" && raw[1..1 + |name|] == name && raw[2 + |name|..] == "";
    NameEnds(name);
    FirmStays(name);
    SpaceLenIs(name, 0) by { assert Firm(name); FirmStarts(name); }
    SpaceLenIs("", 0);
    FirmStarts(name);
    assert name[0..] == name;
  }

  lemma BracketIsNotSpace()
    ensures !IsSpace('[')
  {
  }

  lemma FirmStarts(r: string)
    requires Firm(r)
    ensures r != "" && !IsSpace(r[0])
  {
  }

  lemma {:induction false} NameEnds(name: string)
    requires ']' !in name
    ensures NameLen(name + "]") == |name|
    decreases |name|
  {
    if name != "" {
      assert (name + "]")[1..] == name[1..] + "]";
      NameEnds(name[1..]);
    }
  }

  lemma {:induction false} AssignmentIs(key: string, v: string)
    requires key != "" && KeyOnly(key) && Firm(v)
    ensures ParseLine(key + " = " + v) == Some(Line("", key, " = ", v)) && ParseSection(key + " = " + v) == None
  {
    hide IsSpace, KeyChar, SpaceLen, KeyLen, RStrip, Firm, NameLen, EqLen;
    var raw, k := "" + key + " = " + v, |key|;
    assert raw == key + " = " + v;
    Pieces("", key, " = ", v);
    KeyNotSpace(key[0]);
    SpaceLenIs(raw, 0);
    SpacesAre();
    assert raw[0..] == raw;
    KeyLenIs(raw, k);
    EqualsIs(v);
    FirmStays(v);
  }

  lemma {:induction false} EqualsIs(v: string)
    requires Firm(v)
    ensures EqLen(" = " + v) == Some(3)
  {
    hide IsSpace, SpaceLen, Firm;
    var t := " = " + v;
    FirmStarts(v);
    SpacesAre();
    SpaceLenIs(t, 1);
    assert t == " =" + (" " + v) && t[2..] == " " + v;
    SpaceLenIs(" " + v, 1);
  }

  lemma SpacesAre()
    ensures IsSpace(' ') && !IsSpace('=') && !KeyChar(' ')
  {
  }

  const BROKEN := Options("argus", "", "", "", "\n[x]\n", v => v, {})
  const EXPOSING := ["[jwt]", "db = 1", "secret = 1"]

  lemma BrokenLines()
    ensures ParseSection(EXPOSING[0]) == Some("jwt")
    ensures ParseSection(EXPOSING[1]) == None && ParseLine(EXPOSING[1]) == Some(Line("", "db", " = ", "1"))
    ensures ParseSection(EXPOSING[2]) == None && ParseLine(EXPOSING[2]) == Some(Line("", "secret", " = ", "1"))
  {
    hide ParseSection, ParseLine;
    HeaderIs("jwt");
    assert "[" + "jwt" + "]" == EXPOSING[0];
    AssignmentIs("db", "1");
    assert "db" + " = " + "1" == EXPOSING[1];
    AssignmentIs("secret", "1");
    assert "secret" + " = " + "1" == EXPOSING[2];
  }

  lemma BrokenRules(closed: nat)
    ensures NamedRule(BROKEN, "jwt", "db") == None && NamedRule(BROKEN, "jwt", "secret") == Some(Secret)
    ensures ValueRule(BROKEN, "jwt", "db", "1", closed) == Text("\"\n[x]\n/data/1\"")
  {
    hide Quote, BaseName, JoinPath, Unquote, IsSecret, StartsWith, EndsWith;
    assert !IsSecret("jwt", "db") && IsSecret("jwt", "secret") && !StartsWith("jwt", "owners.") by { BrokenSecrets(); }
    BrokenPath();
  }

  lemma BrokenSecrets()
    ensures !IsSecret("jwt", "db") && IsSecret("jwt", "secret") && !StartsWith("jwt", "owners.")
  {
    assert forall p :: p in SECRET_KEYS ==> p.1 != "db";
    assert ("jwt", "secret") in SECRET_KEYS;
  }

  lemma BrokenPath()
    ensures Unquote("1") == "1" && BaseName("1") == "1"
    ensures Quote(JoinPath(JoinPath("\n[x]\n", "data"), "1")) == "\"\n[x]\n/data/1\""
  {
    hide JoinPath, Escape;
    assert "1"[..0] == "" && BaseName("") + "1" == "1";
    BrokenJoin();
    EscapePlain("\n[x]\n/data/1") by { BrokenPlain(); }
  }

  lemma BrokenJoin()
    ensures JoinPath(JoinPath("\n[x]\n", "data"), "1") == "\n[x]\n/data/1"
  {
    hide JoinPath;
    JoinSlash("\n[x]\n", "data");
    assert "\n[x]\n" + "/" + "data" == "\n[x]\n/data";
    JoinSlash("\n[x]\n/data", "1");
    assert "\n[x]\n/data" + "/" + "1" == "\n[x]\n/data/1";
  }

  lemma BrokenPlain()
    ensures '\\' !in "\n[x]\n/data/1" && '"' !in "\n[x]\n/data/1"
  {
  }

  lemma JoinSlash(a: string, b: string)
    requires a != "" && a[|a| - 1] != '/' && b != "" && b[0] != '/'
    ensures JoinPath(a, b) == a + "/" + b
  {
  }

  lemma {:induction false} EscapePlain(v: string)
    requires '\\' !in v && '"' !in v
    ensures Escape(v) == v
    decreases |v|
  {
    if v != "" {
      EscapePlain(v[1..]);
    }
  }

  /** The rendered path is read as three lines, and the second is a section header. */
  lemma {:induction false} BrokenReread()
    ensures SectionAfter(Reread("db = \"\n[x]\n/data/1\""), "jwt") == "x"
  {
    hide SplitLines, ParseSection, OneLine;
    var a, b, c := "db = \"", "[x]", "/data/1\"";
    assert OneLine(a) && OneLine(b) && OneLine(c) by { BrokenOneLine(); }
    SplitFirst(c, "");
    SplitFirst(b, c + "\n");
    SplitFirst(a, b + "\n" + (c + "\n"));
    SplitNothing();
    assert c + "\n" + "" == c + "\n";
    assert "db = \"\n[x]\n/data/1\"" + "\n" == a + "\n" + (b + "\n" + (c + "\n"));
    var lines := [a, b, c];
    assert [a] + ([b] + ([c] + [])) == lines;
    assert lines[1..] == [b, c] && lines[1..][1..] == [c] && lines[1..][1..][1..] == [];
    assert ParseSection(a) == None && ParseSection(c) == None by { NoHeaders(); }
    HeaderIs("x");
    assert "[" + "x" + "]" == b;
  }

  lemma BrokenOneLine()
    ensures OneLine("db = \"") && OneLine("[x]") && OneLine("/data/1\"")
    ensures AllOneLine(EXPOSING)
  {
  }

  lemma NoHeaders()
    ensures ParseSection("db = \"") == None && ParseSection("/data/1\"") == None
  {
    hide NameLen, SpaceLen;
    var a, c := "db = \"", "/data/1\"";
    assert !IsSpace(a[0]) && !IsSpace(c[0]);
    SpaceLenIs(a, 0);
    SpaceLenIs(c, 0);
  }

  lemma {:induction false} SecretExposed(closed: nat, hidden: set<string>)
    requires hidden == {Qualified("jwt", "secret")}
    ensures Exposed(BROKEN, [EXPOSING[2]], "jwt", "x", closed, [], hidden)
  {
    hide ParseSection, ParseLine, NamedRule, ValueRule, Reread, SectionAfter;
    BrokenLines();
    BrokenRules(closed);
    assert |Qualified("x", "secret")| != |Qualified("jwt", "secret")|;
  }

  lemma {:induction false} BrokenOut(closed: nat)
    ensures
      var raw, rule := EXPOSING[1], NextRule(BROKEN, EXPOSING[1], "jwt", closed);
      && SectionOf(raw, "jwt") == "jwt" && Took(rule) == 0
      && LineOut(raw, rule, 0, "") == "db = \"\n[x]\n/data/1\""
  {
    hide ParseSection, ParseLine, NamedRule, ValueRule;
    BrokenLines();
    BrokenRules(closed);
    var head, text := "" + "db" + " = ", "\"\n[x]\n/data/1\"";
    assert head == "db = " && head + text == "db = \"\n[x]\n/data/1\"";
  }

  /** A secret exposed further down. */
  lemma {:induction false} ExposedLater(o: Options, raw: string, rest: seq<string>, section: string, reading: string, closed: nat,
                                        ports: seq<nat>, hidden: set<string>)
    requires
      var rule := NextRule(o, raw, section, closed);
      && Took(rule) == 0
      && Exposed(o, rest, SectionOf(raw, section), SectionAfter(Reread(LineOut(raw, rule, 0, "")), reading), closed, ports, hidden)
    ensures Exposed(o, [raw] + rest, section, reading, closed, ports, hidden)
  {
    hide NextRule, LineOut, Reread, SectionAfter, SectionOf, Qualified, ParseLine;
    var lines := [raw] + rest;
    assert lines[0] == raw && lines[1..] == rest && ports[0..] == ports;
  }

  /** With such a directory the secret of the next line is shown. */
  lemma {:induction false} BrokenScratchExposes(closed: nat)
    ensures ExposesSecret(BROKEN, JoinLines(EXPOSING), closed, [])
  {
    hide ParseSection, ParseLine, RuleFor, Reread, SectionAfter, SplitLines, JoinLines, OneLine, SecretNames, Qualified, Exposed,
         LineOut;
    BrokenOneLine();
    SplitsBack(EXPOSING);
    BrokenNames(closed);
    ElementsOne(Qualified("jwt", "secret"));
    var hidden := {Qualified("jwt", "secret")};
    SecretExposed(closed, hidden);
    BrokenReread();
    BrokenOut(closed);
    ExposedLater(BROKEN, EXPOSING[1], [EXPOSING[2]], "jwt", "jwt", closed, [], hidden);
    HeaderPasses(closed);
    ExposedLater(BROKEN, EXPOSING[0], [EXPOSING[1]] + [EXPOSING[2]], "", "", closed, [], hidden);
    assert [EXPOSING[0]] + ([EXPOSING[1]] + [EXPOSING[2]]) == EXPOSING;
  }

  lemma {:induction false} HeaderPasses(closed: nat)
    ensures
      var raw, rule := EXPOSING[0], NextRule(BROKEN, EXPOSING[0], "", closed);
      Took(rule) == 0 && SectionOf(raw, "") == "jwt" && SectionAfter(Reread(LineOut(raw, rule, 0, "")), "") == "jwt"
  {
    hide ParseSection, ParseLine, Reread, OneLine;
    BrokenLines();
    BrokenOneLine();
    assert OneLine(EXPOSING[0]);
    RereadOne(EXPOSING[0]);
    HeaderSection(EXPOSING[0], "jwt");
  }

  lemma {:induction false} BrokenNames(closed: nat)
    ensures SecretNames(BROKEN, EXPOSING, "", closed) == [Qualified("jwt", "secret")]
  {
    hide ParseSection, ParseLine, NamedRule, ValueRule;
    BrokenLines();
    BrokenRules(closed);
    var l0, l1, l2 := EXPOSING[0], EXPOSING[1], EXPOSING[2];
    assert EXPOSING[1..] == [l1, l2] && EXPOSING[1..][1..] == [l2] && EXPOSING[1..][1..][1..] == [];
    assert SecretNames(BROKEN, [], "jwt", closed) == [];
    assert SecretNames(BROKEN, [l2], "jwt", closed) == [Qualified("jwt", "secret")] + [];
    assert SecretNames(BROKEN, [l1, l2], "jwt", closed) == [] + ([Qualified("jwt", "secret")] + []);
  }

  lemma HeaderSection(raw: string, name: string)
    requires ParseSection(raw) == Some(name)
    ensures SectionAfter([raw], "") == name
  {
    hide ParseSection;
    assert [raw][1..] == [];
  }

  lemma {:induction false} BrokenEnough(closed: nat, secret: string)
    ensures Enough(BROKEN, EXPOSING, "", closed, [], [secret])
  {
    hide ParseSection, ParseLine, NamedRule, ValueRule;
    BrokenLines();
    BrokenRules(closed);
    var l0, l1, l2 := EXPOSING[0], EXPOSING[1], EXPOSING[2];
    var none: seq<string>, ports: seq<nat>, drawn := [], [], [secret];
    assert EXPOSING[1..] == [l1, l2] && [l1, l2][1..] == [l2] && [l2][1..] == none;
    assert ports[0..] == ports && drawn[0..] == drawn && drawn[1..] == none;
    assert Enough(BROKEN, none, "jwt", closed, ports, none);
    assert Enough(BROKEN, [l2], "jwt", closed, ports, drawn);
    assert Enough(BROKEN, [l1, l2], "jwt", closed, ports, drawn);
  }

  /** So two renders of that template with different secrets have different masked texts. */
  lemma {:induction false} BrokenScratchShows(closed: nat, s: string, t: string)
    requires OneLine(s) && OneLine(t) && s != t
    ensures
      var template, one, two := JoinLines(EXPOSING), Draws([], [s]), Draws([], [t]);
      && Enough(BROKEN, SplitLines(template), "", closed, one.ports, one.secrets)
      && Enough(BROKEN, SplitLines(template), "", closed, two.ports, two.secrets)
      && var (config, names) := Config(BROKEN, template, closed, one);
         var (config', names') := Config(BROKEN, template, closed, two);
         Masked(config, names) != Masked(config', names')
  {
    hide Enough, Config, Masked, ExposesSecret, SplitLines, JoinLines, OneLine;
    BrokenOneLine();
    SplitsBack(EXPOSING);
    BrokenEnough(closed, s);
    BrokenEnough(closed, t);
    BrokenScratchExposes(closed);
    MaskStableIff(BROKEN, JoinLines(EXPOSING), closed, Draws([], [s]), Draws([], [t]));
  }
}
