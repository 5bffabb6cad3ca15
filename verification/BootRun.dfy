/** `Ports` and the loop of `render`, which draws ports as it goes. */
module BootRun {
  import opened Text
  import opened Collections
  import opened Boot
  import opened BootRules

  const PORT_LOW := 20000
  const PORT_HIGH := 60999

  /** What `random.randint` gives, and whether a socket could be bound to it. */
  type Port = p: nat | PORT_LOW <= p <= PORT_HIGH witness PORT_LOW

  datatype Draw = Draw(port: Port, free: bool)

  const ATTEMPTS := 10000

  /** The draw can be handed out. */
  predicate Takeable(d: Draw, taken: set<nat>) {
    d.free && d.port !in taken
  }

  /** The draw at `k` is the first that can be handed out, among ten thousand from `next` on. */
  ghost predicate FirstTakeable(tape: nat -> Draw, next: nat, taken: set<nat>, k: nat) {
    && next <= k < next + 10000 && Takeable(tape(k), taken)
    && forall j: nat :: next <= j < k ==> !Takeable(tape(j), taken)
  }

  /** From the draw at `next` on, `n` ports can be handed out one after another. */
  ghost predicate Lasts(tape: nat -> Draw, next: nat, taken: set<nat>, n: nat)
    decreases n
  {
    n == 0 || exists k: nat :: FirstTakeable(tape, next, taken, k) && Lasts(tape, k + 1, taken + {tape(k).port}, n - 1)
  }

  /** One port is handed out, and the rest must last. */
  lemma LastsOn(tape: nat -> Draw, next: nat, taken: set<nat>, k: nat, n: nat)
    requires n > 0 && FirstTakeable(tape, next, taken, k)
    ensures Lasts(tape, next, taken, n) <==> Lasts(tape, k + 1, taken + {tape(k).port}, n - 1)
  {
    hide Takeable;
    if Lasts(tape, next, taken, n) {
      var m: nat :| FirstTakeable(tape, next, taken, m) && Lasts(tape, m + 1, taken + {tape(m).port}, n - 1);
      assert m == k;
    }
  }

  lemma LastsNot(tape: nat -> Draw, next: nat, taken: set<nat>, n: nat)
    requires n > 0 && forall j: nat :: next <= j < next + 10000 ==> !Takeable(tape(j), taken)
    ensures !Lasts(tape, next, taken, n)
  {
  }

  class Ports {
    var taken: set<nat>
    var next: nat
    /** The draws to come. */
    const tape: nat -> Draw

    /** What one `fresh` makes of the ports that are still needed. */
    lemma FreshLasts(next: nat, taken: set<nat>, r: Option<nat>, next': nat, n: nat)
      requires n > 0 && next <= next' <= next + ATTEMPTS
      requires r.Some? ==>
        && next < next' && r.value == tape(next' - 1).port && Usable(next' - 1, taken)
        && forall k: nat :: next <= k < next' - 1 ==> !Usable(k, taken)
      requires r.None? ==> next' == next + ATTEMPTS && forall k: nat :: next <= k < next' ==> !Usable(k, taken)
      ensures Lasts(tape, next, taken, n) <==> r.Some? && Lasts(tape, next', taken + {r.value}, n - 1)
    {
      hide Lasts;
      assert forall k: nat :: Usable(k, taken) <==> Takeable(tape(k), taken);
      if r.Some? {
        LastsOn(tape, next, taken, next' - 1, n);
      } else {
        LastsNot(tape, next, taken, n);
      }
    }

    constructor (reserved: set<nat>, tape: nat -> Draw)
      ensures taken == reserved + {4222} && this.tape == tape
    {
      taken, next, this.tape := reserved + {4222}, 0, tape;
    }

    /** The draw at `k` can be handed out. */
    predicate Usable(k: nat, used: set<nat>) {
      tape(k).port !in used && tape(k).free
    }

    /** `fresh`: the first usable draw among ten thousand; `None` is the SystemExit. */
    method Fresh() returns (r: Option<nat>)
      modifies this
      ensures r.Some? ==>
        && 20000 <= r.value <= 60999 && r.value !in old(taken) && taken == old(taken) + {r.value}
        && old(next) < next <= old(next) + ATTEMPTS
        && r.value == tape(next - 1).port && Usable(next - 1, old(taken))
        && forall k: nat :: old(next) <= k < next - 1 ==> !Usable(k, old(taken))
      ensures r.None? ==>
        && taken == old(taken) && next == old(next) + ATTEMPTS
        && forall k: nat :: old(next) <= k < next ==> !Usable(k, old(taken))
    {
      var tries := 0;
      while tries < ATTEMPTS
        invariant 0 <= tries <= ATTEMPTS && next == old(next) + tries && taken == old(taken)
        invariant forall k: nat :: old(next) <= k < next ==> !Usable(k, old(taken))
      {
        var draw := tape(next);
        next, tries := next + 1, tries + 1;
        if draw.port in taken {
          continue;
        }
        if !draw.free {
          continue;
        }
        taken := taken + {draw.port};
        return Some(draw.port);
      }
      return None;
    }
  }

  /** Exactly these draws are used up by the lines. */
  predicate Spent(o: Options, lines: seq<string>, section: string, closed: nat, ports: seq<nat>, secrets: seq<string>)
    decreases |lines|
  {
    if lines == [] then ports == [] && secrets == []
    else match ParseSection(lines[0])
      case Some(name) => Spent(o, lines[1..], name, closed, ports, secrets)
      case None =>
        match ParseLine(lines[0])
        case None => Spent(o, lines[1..], section, closed, ports, secrets)
        case Some(line) =>
          var rule := RuleFor(o, section, line, closed);
          var p, q := if TakesPort(rule) then 1 else 0, if rule.Secret? then 1 else 0;
          p <= |ports| && q <= |secrets| && Spent(o, lines[1..], section, closed, ports[p..], secrets[q..])
  }

  lemma {:induction false} SpentEnough(o: Options, lines: seq<string>, section: string, closed: nat, ports: seq<nat>, secrets: seq<string>)
    requires Spent(o, lines, section, closed, ports, secrets)
    ensures Enough(o, lines, section, closed, ports, secrets)
    decreases |lines|
  {
    hide ParseSection, ParseLine, RuleFor;
    if lines != [] {
      if ParseSection(lines[0]).Some? {
        SpentEnough(o, lines[1..], ParseSection(lines[0]).value, closed, ports, secrets);
      } else if ParseLine(lines[0]).None? {
        SpentEnough(o, lines[1..], section, closed, ports, secrets);
      } else {
        var rule := RuleFor(o, section, ParseLine(lines[0]).value, closed);
        var p, q := if TakesPort(rule) then 1 else 0, if rule.Secret? then 1 else 0;
        SpentEnough(o, lines[1..], section, closed, ports[p..], secrets[q..]);
      }
    }
  }

  /** What the next line adds: its rule, or none when it is no assignment. */
  function NextRule(o: Options, raw: string, section: string, closed: nat): Option<Rule> {
    if ParseSection(raw).Some? || ParseLine(raw).None? then None
    else Some(RuleFor(o, section, ParseLine(raw).value, closed))
  }

  function PortsOf(rule: Option<Rule>, port: nat): seq<nat> {
    if rule.Some? && TakesPort(rule.value) then [port] else []
  }

  function SecretsOf(rule: Option<Rule>, secret: string): seq<string> {
    if rule.Some? && rule.value.Secret? then [secret] else []
  }

  function LineOut(raw: string, rule: Option<Rule>, port: nat, secret: string): string {
    if rule.None? || ParseLine(raw).None? then raw
    else Rewrite(ParseLine(raw).value, rule.value, raw,
      if TakesPort(rule.value) then port else 0, if rule.value.Secret? then secret else "")
  }

  function NameOut(raw: string, section: string, rule: Option<Rule>): seq<string> {
    if rule.Some? && rule.value.Secret? && ParseLine(raw).Some? then [Qualified(section, ParseLine(raw).value.key)] else []
  }

  /** One line more. */
  lemma {:induction false} RenderSnoc(o: Options, lines: seq<string>, section: string, closed: nat,
                                      ports: seq<nat>, secrets: seq<string>, raw: string, port: nat, secret: string)
    requires Spent(o, lines, section, closed, ports, secrets)
    ensures
      var rule := NextRule(o, raw, SectionAfter(lines, section), closed);
      var more, ports', secrets' := lines + [raw], ports + PortsOf(rule, port), secrets + SecretsOf(rule, secret);
      && Enough(o, lines, section, closed, ports, secrets) && Spent(o, more, section, closed, ports', secrets')
      && Enough(o, more, section, closed, ports', secrets')
      && var r := Render(o, lines, section, closed, ports, secrets);
      && Render(o, more, section, closed, ports', secrets') == Rendered(
           r.lines + [LineOut(raw, rule, port, secret)], r.secrets + NameOut(raw, SectionAfter(lines, section), rule))
    decreases |lines|
  {
    hide ParseSection, ParseLine, RuleFor, Rewrite, Qualified, NextRule, LineOut, NameOut, Render, Enough, Spent, SectionAfter,
         PortsOf, SecretsOf;
    SpentEnough(o, lines, section, closed, ports, secrets);
    var rule := NextRule(o, raw, SectionAfter(lines, section), closed);
    var more, ports', secrets' := lines + [raw], ports + PortsOf(rule, port), secrets + SecretsOf(rule, secret);
    if lines == [] {
      NothingSpent(o, section, closed, ports, secrets);
      RenderOne(o, raw, section, closed, port, secret);
      assert ports' == PortsOf(rule, port) && secrets' == SecretsOf(rule, secret) && more == [raw];
    } else {
      assert more[0] == lines[0] && more[1..] == lines[1..] + [raw];
      SectionCons(lines, section);
      RenderHead(o, lines, section, closed, ports, secrets);
      RenderHead(o, more, section, closed, ports', secrets');
      var first, here := NextRule(o, lines[0], section, closed), SectionAfter([lines[0]], section);
      var p, q := |PortsOf(first, 0)|, |SecretsOf(first, "")|;
      RenderSnoc(o, lines[1..], here, closed, ports[p..], secrets[q..], raw, port, secret);
      assert ports'[p..] == ports[p..] + PortsOf(rule, port) && (p > 0 ==> ports'[0] == ports[0]);
      assert secrets'[q..] == secrets[q..] + SecretsOf(rule, secret) && (q > 0 ==> secrets'[0] == secrets[0]);
    }
  }

  lemma NothingSpent(o: Options, section: string, closed: nat, ports: seq<nat>, secrets: seq<string>)
    ensures Spent(o, [], section, closed, ports, secrets) ==> ports == [] && secrets == []
    ensures Enough(o, [], section, closed, ports, secrets) && Render(o, [], section, closed, ports, secrets) == Rendered([], [])
    ensures SectionAfter([], section) == section
  {
  }

  /** The first line and the rest. */
  lemma {:induction false} RenderHead(o: Options, lines: seq<string>, section: string, closed: nat, ports: seq<nat>, secrets: seq<string>)
    requires lines != []
    ensures
      var raw, rest, here := lines[0], lines[1..], SectionAfter([lines[0]], section);
      var rule := NextRule(o, raw, section, closed);
      var p, q := |PortsOf(rule, 0)|, |SecretsOf(rule, "")|;
      && (Spent(o, lines, section, closed, ports, secrets) <==>
            p <= |ports| && q <= |secrets| && Spent(o, rest, here, closed, ports[p..], secrets[q..]))
      && (Enough(o, lines, section, closed, ports, secrets) <==>
            p <= |ports| && q <= |secrets| && Enough(o, rest, here, closed, ports[p..], secrets[q..]))
      && (Enough(o, lines, section, closed, ports, secrets) ==>
            var r := Render(o, rest, here, closed, ports[p..], secrets[q..]);
            Render(o, lines, section, closed, ports, secrets) == Rendered(
              [LineOut(raw, rule, if p > 0 then ports[0] else 0, if q > 0 then secrets[0] else "")] + r.lines,
              NameOut(raw, section, rule) + r.secrets))
  {
    hide ParseSection, ParseLine, RuleFor, Rewrite, Qualified, SectionAfter;
    SectionCons(lines, section);
    assert ports[0..] == ports && secrets[0..] == secrets;
    var none: seq<string> := [];
    forall r: seq<string>
      ensures none + r == r
    {
    }
  }

  lemma {:induction false} RenderOne(o: Options, raw: string, section: string, closed: nat, port: nat, secret: string)
    ensures
      var rule := NextRule(o, raw, section, closed);
      && Spent(o, [raw], section, closed, PortsOf(rule, port), SecretsOf(rule, secret))
      && Enough(o, [raw], section, closed, PortsOf(rule, port), SecretsOf(rule, secret))
      && Render(o, [raw], section, closed, PortsOf(rule, port), SecretsOf(rule, secret))
         == Rendered([LineOut(raw, rule, port, secret)], NameOut(raw, section, rule))
  {
    hide ParseSection, ParseLine, RuleFor, Rewrite, Qualified;
    assert [raw][1..] == [];
  }

  /** The first draws of `secrets.token_hex`. */
  function Tokens(tokens: nat -> string, n: nat): (r: seq<string>)
    ensures |r| == n && forall i :: 0 <= i < n ==> r[i] == tokens(i)
  {
    seq(n, i requires 0 <= i < n => tokens(i))
  }

  /** The rendered text with the ports and secrets its summary lists. */
  datatype Summary = Summary(config: string, closed: nat, listeners: seq<nat>, secrets: seq<string>)

  /** The ports drawn so far: apart from one another and from what was taken before. */
  ghost predicate Drawn(s: seq<nat>, before: set<nat>, now: set<nat>) {
    && Distinct(s) && now == before + Elements(s)
    && forall i :: 0 <= i < |s| ==> s[i] !in before && 20000 <= s[i] <= 60999
  }

  lemma {:induction false} DrawnMore(s: seq<nat>, before: set<nat>, now: set<nat>, p: nat)
    requires Drawn(s, before, now) && p !in now && 20000 <= p <= 60999
    ensures Drawn(s + [p], before, now + {p})
  {
    var t := s + [p];
    var all := Elements(t);
    var old_ := Elements(s);
    forall i | 0 <= i < |s|
      ensures s[i] in now && s[i] == t[i]
    {
      assert s[i] in old_;
    }
    assert all == old_ + {p} by {
      assert t[|s|] == p && p in all;
      forall x | x in old_
        ensures x in all
      {
        var i :| 0 <= i < |s| && s[i] == x;
        assert t[i] == x;
      }
    }
  }

  /** The loop has rendered these lines with these draws. */
  ghost predicate RenderedSoFar(o: Options, lines: seq<string>, closed: nat, listeners: seq<nat>,
                                drawn: seq<string>, out: seq<string>, names: seq<string>)
  {
    && Spent(o, lines, "", closed, listeners, drawn) && Enough(o, lines, "", closed, listeners, drawn)
    && Render(o, lines, "", closed, listeners, drawn) == Rendered(out, names) && |drawn| == |names|
  }

  lemma {:induction false} SoFarNext(o: Options, lines: seq<string>, closed: nat, listeners: seq<nat>,
                                     drawn: seq<string>, out: seq<string>, names: seq<string>,
                                     raw: string, port: nat, secret: string)
    requires RenderedSoFar(o, lines, closed, listeners, drawn, out, names)
    ensures
      var section := SectionAfter(lines, "");
      var rule := NextRule(o, raw, section, closed);
      RenderedSoFar(o, lines + [raw], closed, listeners + PortsOf(rule, port), drawn + SecretsOf(rule, secret),
        out + [LineOut(raw, rule, port, secret)], names + NameOut(raw, section, rule))
  {
    hide Render, Spent, Enough, LineOut, RuleFor, ParseSection, ParseLine;
    RenderSnoc(o, lines, "", closed, listeners, drawn, raw, port, secret);
  }

  lemma {:induction false} SectionSnoc(lines: seq<string>, section: string, raw: string)
    ensures SectionAfter(lines + [raw], section) ==
      (if ParseSection(raw).Some? then ParseSection(raw).value else SectionAfter(lines, section))
    decreases |lines|
  {
    hide ParseSection;
    var more := lines + [raw];
    if lines == [] {
      assert more[0] == raw && more[1..] == [];
    } else {
      assert more[0] == lines[0] && more[1..] == lines[1..] + [raw];
      SectionSnoc(lines[1..], if ParseSection(lines[0]).Some? then ParseSection(lines[0]).value else section, raw);
    }
  }

  /**
    * `render`: the text is the rendering of the template with the ports and secrets it drew, and all
    * ports of the run differ from one another and from every port taken before. It fails exactly when
    * the draws do not last for the closed port and one port for every line that takes one.
    */
  method RenderConfig(o: Options, template: string, ports: Ports, tokens: nat -> string) returns (r: Option<Summary>)
    modifies ports
    ensures r.Some? <==>
      Lasts(ports.tape, old(ports.next), old(ports.taken), 1 + PortCount(o, SplitLines(template), ""))
    ensures r.Some? ==>
      var s := r.value;
      && |s.listeners| == PortCount(o, SplitLines(template), "") &&
      var lines, drawn := SplitLines(template), Tokens(tokens, |s.secrets|);
      && Drawn([s.closed] + s.listeners, old(ports.taken), ports.taken)
      && Enough(o, lines, "", s.closed, s.listeners, drawn)
      && JoinLines(Render(o, lines, "", s.closed, s.listeners, drawn).lines) == s.config
      && Render(o, lines, "", s.closed, s.listeners, drawn).secrets == s.secrets
  {
    hide RuleFor, ParseSection, ParseLine, Drawn, RenderedSoFar, SplitLines, JoinLines, PortCount, Lasts, WantsPort,
         SectionAfter, NameOut, LineOut, Tokens;
    var lines := SplitLines(template);
    ghost var need := PortCount(o, lines, "");
    var first := ports.Fresh();
    ports.FreshLasts(old(ports.next), old(ports.taken), first, ports.next, 1 + need);
    if first.None? {
      return None;
    }
    var closed := first.value;
    NothingDrawn(old(ports.taken));
    DrawnMore([], old(ports.taken), old(ports.taken), closed);
    assert [] + [closed] == [closed] + [];
    var out: seq<string>, listeners: seq<nat>, names: seq<string>, section := [], [], [], "";
    NothingRendered(o, closed, tokens);
    assert lines[0..] == lines;
    NoSection("");
    var i := 0;
    while i < |lines|
      invariant 0 <= i <= |lines| && section == SectionAfter(lines[..i], "")
      invariant Drawn([closed] + listeners, old(ports.taken), ports.taken)
      invariant |listeners| + PortCount(o, lines[i..], section) == need
      invariant Lasts(ports.tape, ports.next, ports.taken, PortCount(o, lines[i..], section)) <==>
        Lasts(ports.tape, old(ports.next), old(ports.taken), 1 + need)
      invariant RenderedSoFar(o, lines[..i], closed, listeners, Tokens(tokens, |names|), out, names)
    {
      var raw := lines[i];
      var rule := NextRule(o, raw, section, closed);
      var port := 0;
      CountNext(o, lines, i, section, closed);
      if rule.Some? && TakesPort(rule.value) {
        ghost var before, next := ports.taken, ports.next;
        var another := ports.Fresh();
        ports.FreshLasts(next, before, another, ports.next, PortCount(o, lines[i..], section));
        if another.None? {
          return None;
        }
        port := another.value;
        DrawnMore([closed] + listeners, old(ports.taken), before, port);
      }
      assert [closed] + (listeners + PortsOf(rule, port)) == [closed] + listeners + PortsOf(rule, port);
      assert PortsOf(rule, port) == [] ==> [closed] + listeners + PortsOf(rule, port) == [closed] + listeners;
      NamesDrawn(o, raw, section, closed, tokens, names);
      SoFarNext(o, lines[..i], closed, listeners, Tokens(tokens, |names|), out, names, raw, port, tokens(|names|));
      SectionSnoc(lines[..i], "", raw);
      assert lines[..i + 1] == lines[..i] + [raw];
      listeners := listeners + PortsOf(rule, port);
      out := out + [LineOut(raw, rule, port, tokens(|names|))];
      names := names + NameOut(raw, section, rule);
      section := if ParseSection(raw).Some? then ParseSection(raw).value else section;
      i := i + 1;
    }
    assert lines[..i] == lines && lines[i..] == [];
    NothingNeeded(o, section, ports.tape, ports.next, ports.taken);
    RenderedIs(o, lines, closed, listeners, Tokens(tokens, |names|), out, names);
    return Some(Summary(JoinLines(out), closed, listeners, names));
  }

  /** The ports that the lines from the next one on take. */
  lemma {:induction false} CountNext(o: Options, lines: seq<string>, i: nat, section: string, closed: nat)
    requires i < |lines|
    ensures
      var raw := lines[i];
      var rule := NextRule(o, raw, section, closed);
      PortCount(o, lines[i..], section) ==
        (if rule.Some? && TakesPort(rule.value) then 1 else 0)
        + PortCount(o, lines[i + 1..], if ParseSection(raw).Some? then ParseSection(raw).value else section)
  {
    hide RuleFor, ParseSection, ParseLine, WantsPort, SectionAfter;
    var rest, raw := lines[i..], lines[i];
    assert rest[0] == raw && rest[1..] == lines[i + 1..];
    SectionCons(rest, section);
    WantsAssign(o, section, raw);
    if Assigns(raw) {
      Takes(o, section, raw, closed);
    }
  }

  /** A secret is named exactly when one is drawn. */
  lemma {:induction false} NamesDrawn(o: Options, raw: string, section: string, closed: nat, tokens: nat -> string, names: seq<string>)
    ensures
      var rule := NextRule(o, raw, section, closed);
      Tokens(tokens, |names + NameOut(raw, section, rule)|) == Tokens(tokens, |names|) + SecretsOf(rule, tokens(|names|))
  {
    hide RuleFor, ParseSection, ParseLine;
  }

  lemma NothingNeeded(o: Options, section: string, tape: nat -> Draw, next: nat, taken: set<nat>)
    ensures PortCount(o, [], section) == 0 && Lasts(tape, next, taken, 0)
  {
  }

  lemma NothingDrawn(before: set<nat>)
    ensures Drawn([], before, before)
  {
  }

  lemma NothingRendered(o: Options, closed: nat, tokens: nat -> string)
    ensures RenderedSoFar(o, [], closed, [], Tokens(tokens, 0), [], [])
  {
  }

  lemma RenderedIs(o: Options, lines: seq<string>, closed: nat, listeners: seq<nat>,
                   drawn: seq<string>, out: seq<string>, names: seq<string>)
    requires RenderedSoFar(o, lines, closed, listeners, drawn, out, names)
    ensures Enough(o, lines, "", closed, listeners, drawn)
    ensures Render(o, lines, "", closed, listeners, drawn) == Rendered(out, names)
  {
  }
}
