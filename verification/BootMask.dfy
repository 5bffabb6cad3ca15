/** Masking a rendered configuration hides the secrets, and nothing but the secrets. */
module BootMask {
  import opened Text
  import opened Collections
  import opened Boot

  // ----- a rewritten line is read back -----

  lemma {:induction false} SpaceLenIs(s: string, n: nat)
    requires n <= |s| && (forall i :: 0 <= i < n ==> IsSpace(s[i])) && (n < |s| ==> !IsSpace(s[n]))
    ensures SpaceLen(s) == n
  {
    hide IsSpace;
  }

  lemma {:induction false} KeyLenIs(s: string, n: nat)
    requires n <= |s| && (forall i :: 0 <= i < n ==> KeyChar(s[i])) && (n < |s| ==> !KeyChar(s[n]))
    ensures KeyLen(s) == n
  {
    hide KeyChar;
  }

  lemma KeyNotSpace(c: char)
    requires KeyChar(c)
    ensures !IsSpace(c) && c != '[' && c != '.'
  {
  }

  /** A text that starts and ends visibly. */
  predicate Firm(r: string) {
    r != "" && !IsSpace(r[0]) && !IsSpace(r[|r| - 1])
  }

  lemma {:induction false} EqLenFirm(eq: string, v: string, r: string)
    requires EqLen(eq + v) == Some(|eq|) && Firm(r)
    ensures EqLen(eq + r) == Some(|eq|)
  {
    hide IsSpace;
    var s, t := eq + v, eq + r;
    var a := SpaceLen(s);
    assert forall i :: 0 <= i < |eq| ==> s[i] == eq[i] && t[i] == eq[i];
    SpaceLenIs(t, a) by { EqualIsNotSpace(); }
    var rest := t[a + 1..];
    var m := |eq| - a - 1;
    assert SpaceLen(s[a + 1..]) == m;
    forall i | 0 <= i < m
      ensures IsSpace(rest[i])
    {
      assert rest[i] == t[a + 1 + i] == s[a + 1 + i] == s[a + 1..][i];
    }
    assert rest[m] == r[0];
    SpaceLenIs(rest, m);
  }

  lemma EqualIsNotSpace()
    ensures !IsSpace('=')
  {
  }

  /** The parts of a parsed line. */
  lemma {:induction false} Parts(raw: string, line: Line)
    requires ParseLine(raw) == Some(line)
    ensures
      var b := |line.indent| + |line.key|;
      && b <= |raw| && line.key != "" && raw[..b] == line.indent + line.key
      && (forall i :: 0 <= i < |line.indent| ==> IsSpace(line.indent[i]))
      && (forall i :: 0 <= i < |line.key| ==> KeyChar(line.key[i]))
      && line.eq <= raw[b..] && EqLen(raw[b..]) == Some(|line.eq|)
  {
    hide IsSpace, KeyChar, SpaceLen, KeyLen, EqLen, RStrip;
    var a := SpaceLen(raw);
    var k := KeyLen(raw[a..]);
    var key := raw[a..a + k];
    assert forall i :: 0 <= i < k ==> key[i] == raw[a..][i];
    assert raw[..a + k] == raw[..a] + key;
    var n := EqLen(raw[a + k..]).value;
    assert raw[a + k..a + k + n] == raw[a + k..][..n];
  }

  /** A line rewritten with a firm value has the same indent, key and separator, and is no section. */
  lemma {:induction false} ReadsBack(raw: string, line: Line, r: string)
    requires ParseLine(raw) == Some(line) && Firm(r)
    ensures
      var s := line.indent + line.key + line.eq + r;
      ParseSection(s) == None && ParseLine(s) == Some(line.(value := r))
  {
    hide IsSpace, KeyChar, EqLen, SpaceLen, KeyLen, RStrip, NameLen, SpaceOnly, Strip;
    Parts(raw, line);
    var b := |line.indent| + |line.key|;
    EqLenFirm(line.eq, raw[b..][|line.eq|..], r) by {
      assert raw[b..] == line.eq + raw[b..][|line.eq|..];
    }
    assert RStrip(r) == r by { FirmStays(r); }
    FourParts(line.indent, line.key, line.eq, r);
  }

  /** An indent, a key, a separator and a value are read as that. */
  lemma {:induction false} FourParts(indent: string, key: string, eq: string, r: string)
    requires (forall i :: 0 <= i < |indent| ==> IsSpace(indent[i])) && r != ""
    requires key != "" && (forall i :: 0 <= i < |key| ==> KeyChar(key[i])) && EqLen(eq + r) == Some(|eq|)
    ensures
      var s := indent + key + eq + r;
      ParseSection(s) == None && ParseLine(s) == Some(Line(indent, key, eq, RStrip(r)))
  {
    hide IsSpace, KeyChar, EqLen, SpaceLen, KeyLen, RStrip, NameLen, SpaceOnly, Strip;
    var s, a := indent + key + eq + r, |indent|;
    KeyNotSpace(key[0]);
    Pieces(indent, key, eq, r);
    SpaceLenIs(s, a);
    FirmEq(eq, r);
    KeyLenIs(s[a..], |key|);
  }

  lemma FirmStays(r: string)
    requires Firm(r)
    ensures RStrip(r) == r
  {
  }

  /** Where the pieces of a line are. */
  lemma {:induction false} Pieces(indent: string, key: string, eq: string, r: string)
    requires key != "" && eq + r != ""
    ensures
      var s, a, b := indent + key + eq + r, |indent|, |indent| + |key|;
      && s[..a] == indent && s[a..b] == key && s[b..b + |eq|] == eq && s[b + |eq|..] == r
      && s[a] == key[0] && (forall i :: 0 <= i < a ==> s[i] == indent[i])
      && s[b..] == eq + r
      && (forall i :: 0 <= i < |key| ==> s[a..][i] == key[i]) && s[a..][|key|] == (eq + r)[0]
  {
    var s, a := indent + key + eq + r, |indent|;
    assert s == indent + (key + (eq + r));
    assert s[a..] == key + (eq + r);
  }

  /** A separator starts with a blank or an equals sign. */
  lemma {:induction false} FirmEq(eq: string, r: string)
    requires EqLen(eq + r) == Some(|eq|)
    ensures !KeyChar((eq + r)[0])
  {
    var s := eq + r;
    if SpaceLen(s) > 0 {
      assert IsSpace(s[0]);
      if KeyChar(s[0]) {
        KeyNotSpace(s[0]);
      }
    }
  }

  // ----- which names are hidden -----

  predicate KeyOnly(k: string) {
    forall i :: 0 <= i < |k| ==> KeyChar(k[i])
  }

  /** A qualified name has one reading, because a key has no dot. */
  lemma {:induction false} QualifiedOnce(s: string, k: string, s': string, k': string)
    requires KeyOnly(k) && KeyOnly(k') && Qualified(s, k) == Qualified(s', k')
    ensures s == s' && k == k'
  {
    var q := Qualified(s, k);
    LastDot(s, k, |s'|);
    LastDot(s', k', |s|);
    assert s == q[..|s|] == s';
    assert k == q[|s| + 1..] == k';
  }

  lemma {:induction false} LastDot(s: string, k: string, i: nat)
    requires KeyOnly(k) && i < |Qualified(s, k)| && Qualified(s, k)[i] == '.'
    ensures i <= |s|
  {
  }

  /** The names of secrets, as the rules give them. */
  ghost predicate SecretName(o: Options, name: string) {
    exists s, k :: KeyOnly(k) && NamedRule(o, s, k) == Some(Secret) && name == Qualified(s, k)
  }

  ghost predicate OnlySecrets(o: Options, hidden: set<string>) {
    forall name :: name in hidden ==> SecretName(o, name)
  }

  lemma {:induction false} HiddenIsSecret(o: Options, hidden: set<string>, section: string, key: string)
    requires OnlySecrets(o, hidden) && KeyOnly(key) && Qualified(section, key) in hidden
    ensures NamedRule(o, section, key) == Some(Secret)
  {
    hide NamedRule, Qualified;
    assert SecretName(o, Qualified(section, key));
    var s, k :| KeyOnly(k) && NamedRule(o, s, k) == Some(Secret) && Qualified(section, key) == Qualified(s, k);
    QualifiedOnce(section, key, s, k);
  }

  // ----- the masked configuration -----

  /** What the masked text is, from the template and the ports alone: the secrets are not an input. */
  function Censored(o: Options, lines: seq<string>, section: string, closed: nat, ports: seq<nat>): seq<string>
    decreases |lines|
  {
    if lines == [] then []
    else
      var raw := lines[0];
      match ParseSection(raw)
      case Some(name) => [raw] + Censored(o, lines[1..], name, closed, ports)
      case None =>
        match ParseLine(raw)
        case None => [raw] + Censored(o, lines[1..], section, closed, ports)
        case Some(line) =>
          var rule := RuleFor(o, section, line, closed);
          var head := line.indent + line.key + line.eq;
          if rule.Secret? then [head + "\"<masked>\""] + Censored(o, lines[1..], section, closed, ports)
          else if TakesPort(rule) && ports != [] then
            [Rewrite(line, rule, raw, ports[0], "")] + Censored(o, lines[1..], section, closed, ports[1..])
          else [Rewrite(line, rule, raw, 0, "")] + Censored(o, lines[1..], section, closed, ports)
  }

  lemma {:induction false} QuoteFirm(v: string)
    ensures Firm(Quote(v))
  {
  }

  lemma {:induction false} DecimalFirm(n: nat)
    ensures Firm(Decimal(n))
  {
    var s := Decimal(n);
    assert '0' <= s[0] <= '9' && '0' <= s[|s| - 1] <= '9';
  }

  /** Whatever a rule writes is firm. */
  lemma {:induction false} RuleFirm(o: Options, section: string, line: Line, closed: nat)
    ensures RuleFor(o, section, line, closed).Text? ==> Firm(RuleFor(o, section, line, closed).text)
  {
    hide Quote, IsSpace, BaseName, ParsePeer, JoinPath, Decimal;
    var rule := RuleFor(o, section, line, closed);
    if rule.Text? {
      if rule.text == "0" || rule.text == "false" {
        PlainFirm();
      } else {
        var v :| rule.text == Quote(v);
        QuoteFirm(v);
      }
    }
  }

  lemma PlainFirm()
    ensures Firm("0") && Firm("false")
  {
  }

  /** The text a rule writes instead of the value. */
  function Written(rule: Rule, port: nat, secret: string): string
    requires !rule.Keep?
  {
    match rule
    case Listener => Decimal(port)
    case Address => Quote("127.0.0.1:" + Decimal(port))
    case Text(text) => text
    case Secret => Quote(secret)
  }

  /** Masking one rewritten line. */
  lemma {:induction false} MaskOne(o: Options, section: string, raw: string, line: Line, closed: nat, port: nat, secret: string)
    requires ParseSection(raw) == None && ParseLine(raw) == Some(line)
    ensures
      var rule := RuleFor(o, section, line, closed);
      var s := Rewrite(line, rule, raw, port, secret);
      && ParseSection(s) == None && ParseLine(s).Some?
      && ParseLine(s).value.indent == line.indent && ParseLine(s).value.key == line.key && ParseLine(s).value.eq == line.eq
  {
    hide ParseLine, ParseSection, RuleFor, Quote, Decimal, Firm;
    var rule := RuleFor(o, section, line, closed);
    if !rule.Keep? {
      var r := Written(rule, port, secret);
      assert Firm(r) by {
        RuleFirm(o, section, line, closed);
        QuoteFirm(secret);
        DecimalFirm(port);
        QuoteFirm("127.0.0.1:" + Decimal(port));
      }
      ReadsBack(raw, line, r);
    }
  }

  lemma {:induction false} SecretRule(o: Options, section: string, line: Line, closed: nat)
    ensures RuleFor(o, section, line, closed).Secret? <==> NamedRule(o, section, line.key) == Some(Secret)
  {
    hide NamedRule;
  }

  lemma {:induction false} KeysOnly(raw: string, line: Line)
    requires ParseLine(raw) == Some(line)
    ensures KeyOnly(line.key)
  {
    Parts(raw, line);
  }

  /** Masking what was rendered gives the censored lines, whatever the secrets were. */
  lemma {:induction false} MaskRendered(
      o: Options, lines: seq<string>, section: string, closed: nat, ports: seq<nat>, secrets: seq<string>, hidden: set<string>)
    requires Enough(o, lines, section, closed, ports, secrets) && OnlySecrets(o, hidden)
    requires forall i :: 0 <= i < |Render(o, lines, section, closed, ports, secrets).secrets| ==>
      Render(o, lines, section, closed, ports, secrets).secrets[i] in hidden
    ensures MaskLines(Render(o, lines, section, closed, ports, secrets).lines, section, hidden)
         == Censored(o, lines, section, closed, ports)
    decreases |lines|
  {
    hide ParseSection, ParseLine, RuleFor, Rewrite, OnlySecrets, Qualified;
    if lines != [] {
      var r := Render(o, lines, section, closed, ports, secrets);
      var raw := lines[0];
      if ParseSection(raw).Some? {
        MaskRendered(o, lines[1..], ParseSection(raw).value, closed, ports, secrets, hidden);
        assert r.lines[1..] == Render(o, lines[1..], ParseSection(raw).value, closed, ports, secrets).lines;
      } else if ParseLine(raw).None? {
        MaskRendered(o, lines[1..], section, closed, ports, secrets, hidden);
        assert r.lines[1..] == Render(o, lines[1..], section, closed, ports, secrets).lines;
      } else {
        MaskRenderedLine(o, lines, section, closed, ports, secrets, hidden);
      }
    }
  }

  lemma {:induction false} MaskRenderedLine(
      o: Options, lines: seq<string>, section: string, closed: nat, ports: seq<nat>, secrets: seq<string>, hidden: set<string>)
    requires Enough(o, lines, section, closed, ports, secrets) && OnlySecrets(o, hidden)
    requires forall i :: 0 <= i < |Render(o, lines, section, closed, ports, secrets).secrets| ==>
      Render(o, lines, section, closed, ports, secrets).secrets[i] in hidden
    requires lines != [] && ParseSection(lines[0]).None? && ParseLine(lines[0]).Some?
    ensures MaskLines(Render(o, lines, section, closed, ports, secrets).lines, section, hidden)
         == Censored(o, lines, section, closed, ports)
    decreases |lines|, 0
  {
    hide ParseSection, ParseLine, RuleFor, OnlySecrets, Qualified, Quote, Decimal;
    var r, raw := Render(o, lines, section, closed, ports, secrets), lines[0];
    var line := ParseLine(raw).value;
    var rule := RuleFor(o, section, line, closed);
    var p, q := if TakesPort(rule) then 1 else 0, if rule.Secret? then 1 else 0;
    var rest := Render(o, lines[1..], section, closed, ports[p..], secrets[q..]);
    var port, secret := if p == 1 then ports[0] else 0, if q == 1 then secrets[0] else "";
    assert r.lines[0] == Rewrite(line, rule, raw, port, secret) && r.lines[1..] == rest.lines;
    forall i | 0 <= i < |rest.secrets|
      ensures rest.secrets[i] in hidden
    {
      assert rest.secrets[i] == r.secrets[q + i];
    }
    MaskRendered(o, lines[1..], section, closed, ports[p..], secrets[q..], hidden);
    MaskOne(o, section, raw, line, closed, port, secret);
    SecretRule(o, section, line, closed);
    KeysOnly(raw, line);
    if q == 1 {
      assert r.secrets[0] == Qualified(section, line.key);
    } else {
      assert Qualified(section, line.key) !in hidden by {
        if Qualified(section, line.key) in hidden {
          HiddenIsSecret(o, hidden, section, line.key);
        }
      }
      assert Rewrite(line, rule, raw, port, secret) == Rewrite(line, rule, raw, port, "");
    }
    assert ports[0..] == ports;
  }

  // ----- every rendered line is one line -----

  lemma {:induction false} EscapeOneLine(v: string)
    requires OneLine(v)
    ensures OneLine(Escape(v))
    decreases |v|
  {
    if v != "" {
      assert OneLine(v[1..]);
      EscapeOneLine(v[1..]);
    }
  }

  lemma {:induction false} QuoteOneLine(v: string)
    requires OneLine(v)
    ensures OneLine(Quote(v))
  {
    EscapeOneLine(v);
  }

  lemma {:induction false} BaseNameOneLine(path: string)
    requires OneLine(path)
    ensures OneLine(BaseName(path))
    decreases |path|
  {
    if path != "" {
      BaseNameOneLine(path[..|path| - 1]);
    }
  }

  lemma {:induction false} DecimalOneLine(n: nat)
    ensures OneLine(Decimal(n))
  {
    var s := Decimal(n);
    forall i | 0 <= i < |s|
      ensures !IsBreak(s[i])
    {
      assert '0' <= s[i] <= '9';
    }
  }

  lemma {:induction false} PeerOneLine(v: string, digits: set<char>)
    requires OneLine(v) && ParsePeer(v, digits).Some?
    ensures OneLine(ParsePeer(v, digits).value.scheme) && OneLine(ParsePeer(v, digits).value.rest)
  {
    hide HostLen, DigitLen, LowerLen;
  }

  /** Options that fit on a line. */
  ghost predicate OptionsOk(o: Options) {
    && OneLine(o.service) && OneLine(o.pki) && OneLine(o.cert) && OneLine(o.key) && OneLine(o.scratch)
    && forall v :: OneLine(v) ==> OneLine(o.resolve(v))
  }

  lemma {:induction false} NamedOneLine(o: Options, section: string, key: string)
    requires OptionsOk(o)
    ensures NamedRule(o, section, key).Some? && NamedRule(o, section, key).value.Text? ==>
      OneLine(NamedRule(o, section, key).value.text)
  {
    hide Quote, IsBreak, IsSecret, StartsWith;
    QuoteOneLine(o.pki);
    QuoteOneLine(o.cert);
    QuoteOneLine(o.key);
    QuoteOneLine("");
    LiteralsOneLine();
  }

  lemma LiteralsOneLine()
    ensures OneLine("0") && OneLine("false") && OneLine(Quote("127.0.0.1"))
  {
    hide Quote;
    QuoteOneLine("127.0.0.1") by { LoopbackOneLine(); }
  }

  lemma LoopbackOneLine()
    ensures OneLine("127.0.0.1")
  {
  }

  lemma {:induction false} ConcatOneLine(a: string, b: string)
    requires OneLine(a) && OneLine(b)
    ensures OneLine(a + b)
  {
  }

  lemma {:induction false} DatabaseOneLine(o: Options, value: string)
    requires OptionsOk(o) && OneLine(value)
    ensures OneLine(JoinPath(JoinPath(o.scratch, "data"), if value != "" then BaseName(value) else o.service + ".db"))
  {
    hide BaseName, JoinPath, IsBreak;
    BaseNameOneLine(value);
    PathPieces();
    ConcatOneLine(o.service, ".db");
    JoinOneLine(o.scratch, "data");
    JoinOneLine(JoinPath(o.scratch, "data"), if value != "" then BaseName(value) else o.service + ".db");
  }

  lemma PathPieces()
    ensures OneLine("data") && OneLine(".db") && OneLine("/")
  {
  }

  lemma {:induction false} JoinOneLine(a: string, b: string)
    requires OneLine(a) && OneLine(b)
    ensures OneLine(JoinPath(a, b))
  {
    hide IsBreak, StartsWith, EndsWith;
    PathPieces();
    ConcatOneLine(a, b);
    ConcatOneLine(a, "/");
    ConcatOneLine(a + "/", b);
  }

  lemma {:induction false} PeerTextOneLine(o: Options, value: string, closed: nat)
    requires OneLine(value) && ParsePeer(value, o.digits).Some?
    ensures
      var peer := ParsePeer(value, o.digits).value;
      OneLine(peer.scheme + "127.0.0.1:" + Decimal(closed) + peer.rest)
  {
    hide Decimal, ParsePeer, IsBreak;
    var peer := ParsePeer(value, o.digits).value;
    PeerOneLine(value, o.digits);
    DecimalOneLine(closed);
    AddressOneLine();
    ConcatOneLine(peer.scheme, "127.0.0.1:");
    ConcatOneLine(peer.scheme + "127.0.0.1:", Decimal(closed));
    ConcatOneLine(peer.scheme + "127.0.0.1:" + Decimal(closed), peer.rest);
  }

  lemma AddressOneLine()
    ensures OneLine("127.0.0.1:")
  {
  }

  lemma {:induction false} ValueOneLine(o: Options, section: string, key: string, quoted: string, closed: nat)
    requires OptionsOk(o) && OneLine(quoted)
    ensures ValueRule(o, section, key, quoted, closed).Text? ==> OneLine(ValueRule(o, section, key, quoted, closed).text)
  {
    hide Quote, BaseName, ParsePeer, JoinPath, Decimal, StartsWith, EndsWith, IsBreak;
    var value := Unquote(quoted);
    assert OneLine(value);
    DatabaseOneLine(o, value);
    QuoteOneLine(JoinPath(JoinPath(o.scratch, "data"), if value != "" then BaseName(value) else o.service + ".db"));
    QuoteOneLine(ResolvePath(o, value));
    if ParsePeer(value, o.digits).Some? {
      var peer := ParsePeer(value, o.digits).value;
      PeerTextOneLine(o, value, closed);
      QuoteOneLine(peer.scheme + "127.0.0.1:" + Decimal(closed) + peer.rest);
    }
  }

  lemma {:induction false} RStripOneLine(s: string)
    requires OneLine(s)
    ensures OneLine(RStrip(s))
    decreases |s|
  {
    if s != "" {
      RStripOneLine(s[..|s| - 1]);
    }
  }

  lemma {:induction false} LineOneLine(raw: string, line: Line)
    requires OneLine(raw) && ParseLine(raw) == Some(line)
    ensures OneLine(line.indent + line.key + line.eq) && OneLine(line.value)
  {
    hide IsSpace, KeyChar, SpaceLen, KeyLen, EqLen, RStrip, IsBreak;
    var a := SpaceLen(raw);
    var b := a + KeyLen(raw[a..]);
    var n := EqLen(raw[b..]).value;
    assert line.indent + line.key + line.eq == raw[..b + n];
    RStripOneLine(raw[b + n..]);
  }

  lemma {:induction false} RewriteOneLine(o: Options, section: string, raw: string, line: Line, closed: nat, port: nat, secret: string)
    requires OptionsOk(o) && OneLine(raw) && OneLine(secret) && ParseLine(raw) == Some(line)
    ensures OneLine(Rewrite(line, RuleFor(o, section, line, closed), raw, port, secret))
  {
    hide ParseLine, NamedRule, ValueRule, Quote, Decimal, IsBreak;
    var rule, head := RuleFor(o, section, line, closed), line.indent + line.key + line.eq;
    LineOneLine(raw, line);
    if !rule.Keep? {
      NamedOneLine(o, section, line.key);
      ValueOneLine(o, section, line.key, line.value, closed);
      DecimalOneLine(port);
      AddressOneLine();
      ConcatOneLine("127.0.0.1:", Decimal(port));
      QuoteOneLine("127.0.0.1:" + Decimal(port));
      QuoteOneLine(secret);
      ConcatOneLine(head, Written(rule, port, secret));
    }
  }

  lemma {:induction false} RenderOneLine(
      o: Options, lines: seq<string>, section: string, closed: nat, ports: seq<nat>, secrets: seq<string>)
    requires Enough(o, lines, section, closed, ports, secrets) && OptionsOk(o) && AllOneLine(lines) && AllOneLine(secrets)
    ensures AllOneLine(Render(o, lines, section, closed, ports, secrets).lines)
    decreases |lines|
  {
    hide ParseSection, ParseLine, RuleFor, Rewrite, OneLine, Qualified, OptionsOk;
    if lines != [] {
      var raw := lines[0];
      assert AllOneLine(lines[1..]);
      if ParseSection(raw).Some? {
        RenderOneLine(o, lines[1..], ParseSection(raw).value, closed, ports, secrets);
      } else if ParseLine(raw).None? {
        RenderOneLine(o, lines[1..], section, closed, ports, secrets);
      } else {
        var line := ParseLine(raw).value;
        var rule := RuleFor(o, section, line, closed);
        var p, q := if TakesPort(rule) then 1 else 0, if rule.Secret? then 1 else 0;
        assert AllOneLine(secrets[q..]);
        RenderOneLine(o, lines[1..], section, closed, ports[p..], secrets[q..]);
        EmptyOneLine();
        RewriteOneLine(o, section, raw, line, closed, if p == 1 then ports[0] else 0, if q == 1 then secrets[0] else "");
      }
    }
  }

  lemma EmptyOneLine()
    ensures OneLine("")
  {
  }

  /** Every name reported as a secret is one by the rules. */
  lemma {:induction false} SecretsNamed(
      o: Options, lines: seq<string>, section: string, closed: nat, ports: seq<nat>, secrets: seq<string>)
    requires Enough(o, lines, section, closed, ports, secrets)
    ensures forall i :: 0 <= i < |Render(o, lines, section, closed, ports, secrets).secrets| ==>
      SecretName(o, Render(o, lines, section, closed, ports, secrets).secrets[i])
    decreases |lines|
  {
    hide ParseSection, ParseLine, RuleFor, Rewrite, Qualified, SecretName;
    if lines != [] {
      var raw := lines[0];
      if ParseSection(raw).Some? {
        SecretsNamed(o, lines[1..], ParseSection(raw).value, closed, ports, secrets);
      } else if ParseLine(raw).None? {
        SecretsNamed(o, lines[1..], section, closed, ports, secrets);
      } else {
        var line := ParseLine(raw).value;
        var rule := RuleFor(o, section, line, closed);
        var p, q := if TakesPort(rule) then 1 else 0, if rule.Secret? then 1 else 0;
        SecretsNamed(o, lines[1..], section, closed, ports[p..], secrets[q..]);
        if q == 1 {
          SecretRule(o, section, line, closed);
          KeysOnly(raw, line);
          NamesOne(o, section, line.key);
        }
      }
    }
  }

  lemma NamesOne(o: Options, section: string, key: string)
    requires KeyOnly(key) && NamedRule(o, section, key) == Some(Secret)
    ensures SecretName(o, Qualified(section, key))
  {
    hide NamedRule;
  }

  // ----- the theorem -----

  /** `render` of a whole template: the configuration text and the names of the secrets. */
  function Config(o: Options, template: string, closed: nat, draws: Draws): (string, seq<string>)
    requires Enough(o, SplitLines(template), "", closed, draws.ports, draws.secrets)
  {
    var r := Render(o, SplitLines(template), "", closed, draws.ports, draws.secrets);
    (JoinLines(r.lines), r.secrets)
  }

  /**
    * When no rendered line holds a break, the masked text is the censored template, in which the
    * secrets have no part: every secret line is masked and every other line is as it was rendered.
    */
  lemma {:induction false} MaskHidesSecrets(o: Options, template: string, closed: nat, draws: Draws)
    requires Enough(o, SplitLines(template), "", closed, draws.ports, draws.secrets)
    requires AllOneLine(Render(o, SplitLines(template), "", closed, draws.ports, draws.secrets).lines)
    ensures
      var (config, names) := Config(o, template, closed, draws);
      Masked(config, names) == JoinLines(Censored(o, SplitLines(template), "", closed, draws.ports))
  {
    hide Render, Censored, MaskLines, SecretName, SplitLines, JoinLines, Enough, OneLine;
    var lines := SplitLines(template);
    var r := Render(o, lines, "", closed, draws.ports, draws.secrets);
    var hidden := Elements(r.secrets);
    SecretsNamed(o, lines, "", closed, draws.ports, draws.secrets);
    RenderLength(o, lines, "", closed, draws.ports, draws.secrets);
    MaskRendered(o, lines, "", closed, draws.ports, draws.secrets, hidden);
    if lines == [] {
      EmptyConfig(o, closed, draws.ports, hidden);
    } else {
      SplitsBack(r.lines);
    }
  }

  lemma {:induction false} EmptyConfig(o: Options, closed: nat, ports: seq<nat>, hidden: set<string>)
    ensures JoinLines(MaskLines(SplitLines(JoinLines([])), "", hidden)) == "\n" == JoinLines(Censored(o, [], "", closed, ports))
  {
    assert JoinLines([]) == "\n";
    var s := "\n";
    assert s[..0] == "" && s[1..] == "";
    assert SplitLines(s) == [""] + SplitLines("") == [""];
    assert MaskLines([""], "", hidden) == [""] + MaskLines([], "", hidden) == [""];
    assert JoinLines([""]) == "" + "\n" == "\n";
  }
}
