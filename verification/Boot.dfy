/** The configuration that boot_proof.py renders: its lines, its rules and its ports. */
module Boot {
  import opened Text
  import opened Collections

  // ----- lines -----

  /** The characters at which `str.splitlines` cuts. */
  predicate IsBreak(c: char) {
    var n := c as int;
    10 <= n <= 13 || 28 <= n <= 30 || n == 0x85 || n == 0x2028 || n == 0x2029
  }

  predicate OneLine(s: string) {
    forall i :: 0 <= i < |s| ==> !IsBreak(s[i])
  }

  /** The first break, or the length. */
  function BreakIndex(s: string): (k: nat)
    ensures k <= |s| && OneLine(s[..k]) && (k < |s| ==> IsBreak(s[k]))
  {
    if s == "" || IsBreak(s[0]) then 0
    else
      var k := BreakIndex(s[1..]) + 1;
      assert s[..k] == [s[0]] + s[1..][..k - 1];
      k
  }

  /** `str.splitlines`: a carriage return and the newline after it are one break. */
  function SplitLines(s: string): (lines: seq<string>)
    ensures forall i :: 0 <= i < |lines| ==> OneLine(lines[i])
    decreases |s|
  {
    if s == "" then []
    else
      var k := BreakIndex(s);
      if k == |s| then [s[..k]]
      else if s[k] == '\r' && k + 1 < |s| && s[k + 1] == '\n' then [s[..k]] + SplitLines(s[k + 2..])
      else [s[..k]] + SplitLines(s[k + 1..])
  }

  /** `"\n".join(lines) + "\n"`. */
  function JoinLines(lines: seq<string>): string {
    if lines == [] then "\n" else if |lines| == 1 then lines[0] + "\n" else lines[0] + "\n" + JoinLines(lines[1..])
  }

  predicate AllOneLine(lines: seq<string>) {
    forall i :: 0 <= i < |lines| ==> OneLine(lines[i])
  }

  lemma {:induction false} BreakAfter(l: string, rest: string)
    requires OneLine(l)
    ensures BreakIndex(l + "\n" + rest) == |l|
    decreases |l|
  {
    var s := l + "\n" + rest;
    if l == "" {
      assert s[0] == '\n';
    } else {
      assert s[0] == l[0] && s[1..] == l[1..] + "\n" + rest;
      BreakAfter(l[1..], rest);
    }
  }

  lemma {:induction false} SplitFirst(l: string, rest: string)
    requires OneLine(l)
    ensures SplitLines(l + "\n" + rest) == [l] + SplitLines(rest)
  {
    hide BreakIndex;
    var s := l + "\n" + rest;
    BreakAfter(l, rest);
    assert s[..|l|] == l && s[|l|] == '\n' && s[|l| + 1..] == rest;
  }

  /** Lines without a break are read back as they were written. */
  lemma {:induction false} SplitsBack(lines: seq<string>)
    requires lines != [] && AllOneLine(lines)
    ensures SplitLines(JoinLines(lines)) == lines
    decreases |lines|
  {
    hide SplitLines, OneLine;
    var l := lines[0];
    if |lines| == 1 {
      SplitFirst(l, "");
      assert l + "\n" + "" == l + "\n";
      assert SplitLines("") == [] by { SplitNothing(); }
      assert [l] + [] == lines;
    } else {
      SplitFirst(l, JoinLines(lines[1..]));
      SplitsBack(lines[1..]);
      assert [l] + lines[1..] == lines;
    }
  }

  lemma SplitNothing()
    ensures SplitLines("") == []
  {
  }

  // ----- the two line patterns -----

  function SpaceLen(s: string): (n: nat)
    ensures n <= |s| && (n < |s| ==> !IsSpace(s[n]))
    ensures forall i :: 0 <= i < n ==> IsSpace(s[i])
  {
    if s == "" || !IsSpace(s[0]) then 0 else 1 + SpaceLen(s[1..])
  }

  predicate KeyChar(c: char) {
    'A' <= c <= 'Z' || 'a' <= c <= 'z' || '0' <= c <= '9' || c == '_'
  }

  function KeyLen(s: string): (n: nat)
    ensures n <= |s| && (n < |s| ==> !KeyChar(s[n]))
    ensures forall i :: 0 <= i < n ==> KeyChar(s[i])
  {
    if s == "" || !KeyChar(s[0]) then 0 else 1 + KeyLen(s[1..])
  }

  /** The groups of `LINE`. */
  datatype Line = Line(indent: string, key: string, eq: string, value: string)

  /** The length of `\s*=\s*` at the front. */
  function EqLen(s: string): (r: Option<nat>)
    ensures r.Some? ==> 0 < r.value <= |s|
  {
    var a := SpaceLen(s);
    if a < |s| && s[a] == '=' then Some(a + 1 + SpaceLen(s[a + 1..])) else None
  }

  /** `LINE.match(raw)`. */
  function ParseLine(raw: string): (r: Option<Line>)
  {
    var a := SpaceLen(raw);
    var b := a + KeyLen(raw[a..]);
    if b == a then None
    else
      match EqLen(raw[b..])
      case None => None
      case Some(n) => Some(Line(raw[..a], raw[a..b], raw[b..b + n], RStrip(raw[b + n..])))
  }

  /** The length of the run before the first closing bracket. */
  function NameLen(s: string): (n: nat)
    ensures n <= |s| && (n < |s| ==> s[n] == ']')
  {
    if s == "" || s[0] == ']' then 0 else 1 + NameLen(s[1..])
  }

  predicate SpaceOnly(s: string) {
    SpaceLen(s) == |s|
  }

  function Strip(s: string): string {
    var t := RStrip(s);
    t[SpaceLen(t)..]
  }

  /** `SECTION.match(raw)`: the name of the section, stripped. */
  function ParseSection(raw: string): Option<string> {
    var a := SpaceLen(raw);
    if a == |raw| || raw[a] != '[' then None
    else
      var n := NameLen(raw[a + 1..]);
      if n == 0 || a + 1 + n == |raw| || !SpaceOnly(raw[a + 2 + n..]) then None
      else Some(Strip(raw[a + 1..a + 1 + n]))
  }

  // ----- values -----

  function Unquote(v: string): string {
    if |v| >= 2 && v[0] == '"' && v[|v| - 1] == '"' then v[1..|v| - 1] else v
  }

  function Escape(v: string): string {
    if v == "" then ""
    else (if v[0] == '\\' then "\\\\" else if v[0] == '"' then "\\\"" else [v[0]]) + Escape(v[1..])
  }

  function Quote(v: string): string {
    "\"" + Escape(v) + "\""
  }

  function Decimal(n: nat): (s: string)
    ensures s != "" && forall i :: 0 <= i < |s| ==> '0' <= s[i] <= '9'
    decreases n
  {
    var d := ['0' + (n % 10) as char];
    if n < 10 then d else Decimal(n / 10) + d
  }

  /** `os.path.basename`. */
  function BaseName(path: string): string {
    if path == "" then "" else if path[|path| - 1] == '/' then "" else BaseName(path[..|path| - 1]) + [path[|path| - 1]]
  }

  /** `os.path.join` of two parts. */
  function JoinPath(a: string, b: string): string {
    if StartsWith(b, "/") then b else if a == "" || EndsWith(a, "/") then a + b else a + "/" + b
  }

  // ----- addresses of peers -----

  /** The `scheme` and `rest` groups of `PEER`, empty when absent. */
  datatype Peer = Peer(scheme: string, rest: string)

  function LowerLen(s: string): (n: nat)
    ensures n <= |s|
  {
    if s == "" || !('a' <= s[0] <= 'z') then 0 else 1 + LowerLen(s[1..])
  }

  function HostTailLen(s: string): (n: nat)
    ensures n <= |s|
  {
    if s == "" || !('a' <= s[0] <= 'z' || '0' <= s[0] <= '9' || s[0] == '-') then 0 else 1 + HostTailLen(s[1..])
  }

  /** The length of the `host` group; 0 is no match. */
  function HostLen(s: string): (n: nat)
    ensures n <= |s|
  {
    if StartsWith(s, "127.0.0.1") then 9
    else if StartsWith(s, "localhost") then 9
    else if StartsWith(s, "0.0.0.0") then 7
    else if StartsWith(s, "[::1]") then 5
    else if StartsWith(s, "argus-") && HostTailLen(s[6..]) > 0 then 6 + HostTailLen(s[6..])
    else 0
  }

  function DigitLen(s: string, digits: set<char>): (n: nat)
    ensures n <= |s|
  {
    if s == "" || !('0' <= s[0] <= '9' || s[0] in digits) then 0 else 1 + DigitLen(s[1..], digits)
  }

  /** `host:port` and what follows it, from the front. */
  function AfterHost(s: string, digits: set<char>): Option<string> {
    var h := HostLen(s);
    if h == 0 || h == |s| || s[h] != ':' then None
    else
      var d := DigitLen(s[h + 1..], digits);
      var rest := s[h + 1 + d..];
      if d == 0 || !(rest == "" || rest[0] == '/') then None else Some(rest)
  }

  /** `PEER.match(value)`; `digits` stands for the non-ASCII part of `\d`. */
  function ParsePeer(v: string, digits: set<char>): Option<Peer> {
    var n := LowerLen(v);
    var scheme := if n > 0 && StartsWith(v[n..], "://") then v[..n + 3] else "";
    match AfterHost(v[|scheme|..], digits)
    case None => None
    case Some(rest) => Some(Peer(scheme, rest))
  }

  // ----- rules -----

  /** The options of a run; `resolve` stands for what `resolve_path` finds on disk. */
  datatype Options = Options(
    service: string, pki: string, cert: string, key: string, scratch: string,
    resolve: string -> string, digits: set<char>)

  const LISTENER_KEYS := {"port", "grpc_port", "health_port", "device_port", "home_port"}

  const SECRET_KEYS := {
    ("jwt", "secret"), ("jwt", "refresh_secret"), ("device", "fingerprint_secret"), ("identity", "rpc_secret"),
    ("auth", "rpc_secret"), ("sync", "control_secret"), ("tunnel", "secret"), ("rtc", "api_key"), ("rtc", "api_secret")}

  /** What is written in place of a value. */
  datatype Rule = Listener | Address | Text(text: string) | Secret | Keep

  function ResolvePath(o: Options, value: string): string {
    if value == "" || value[0] == '/' then value else o.resolve(value)
  }

  predicate IsSecret(section: string, key: string) {
    || (section, key) in SECRET_KEYS || section == "rpc.callers"
    || (section == "grpc" && StartsWith(key, "caller_"))
  }

  /** The branches before the secrets; they look at the section and the key alone. */
  function NamedRule(o: Options, section: string, key: string): Option<Rule> {
    if (section == "server" && key in LISTENER_KEYS) || (section == o.service && key == "port") then Some(Listener)
    else if (section == "rpc" || section == "internal_tls") && key == "address" then Some(Address)
    else if section == "remote" && key == "tunnel_port" then Some(Text("0"))
    else if section == "remote" && key == "enabled" then Some(Text("false"))
    else if key == "host" && (section == "server" || section == o.service) then Some(Text(Quote("127.0.0.1")))
    else if section == "internal_tls" && key == "dir" then Some(Text(Quote(o.pki)))
    else if section == "cert" && key == "server_cert" then Some(Text(Quote(o.cert)))
    else if section == "cert" && key == "server_key" then Some(Text(Quote(o.key)))
    else if section == "nats" && key == "url" then Some(Text(Quote("")))
    else if section == "mdns" && key == "enabled" then Some(Text("false"))
    else if section == "settings" && key == "first_run" then Some(Text("false"))
    else if StartsWith(section, "owners.") && key == "target" then Some(Text(Quote("")))
    else if IsSecret(section, key) then Some(Secret)
    else None
  }

  /** The branches after the secrets. */
  function ValueRule(o: Options, section: string, key: string, quoted: string, closed: nat): Rule {
    var value := Unquote(quoted);
    if key == "db" || key == "db_path" || (section == "database" && key in {"file", "path", "db"}) then
      var name := if value != "" then BaseName(value) else o.service + ".db";
      Text(Quote(JoinPath(JoinPath(o.scratch, "data"), name)))
    else if key == "schema" || EndsWith(key, "_dir") || EndsWith(key, "_path") || StartsWith(value, "models/") then
      Text(Quote(ResolvePath(o, value)))
    else if StartsWith(quoted, "\"") && ParsePeer(value, o.digits).Some? then
      var peer := ParsePeer(value, o.digits).value;
      Text(Quote(peer.scheme + "127.0.0.1:" + Decimal(closed) + peer.rest))
    else Keep
  }

  function RuleFor(o: Options, section: string, line: Line, closed: nat): Rule {
    match NamedRule(o, section, line.key)
    case Some(rule) => rule
    case None => ValueRule(o, section, line.key, line.value, closed)
  }

  // ----- render -----

  /** The draws of a render: ports in the order they are taken, and secrets. */
  datatype Draws = Draws(ports: seq<nat>, secrets: seq<string>)

  /** What a line becomes. */
  function Rewrite(line: Line, rule: Rule, raw: string, port: nat, secret: string): string {
    var head := line.indent + line.key + line.eq;
    match rule
    case Listener => head + Decimal(port)
    case Address => head + Quote("127.0.0.1:" + Decimal(port))
    case Text(text) => head + text
    case Secret => head + Quote(secret)
    case Keep => raw
  }

  /** The lines of a render and the names of its secrets. */
  datatype Rendered = Rendered(lines: seq<string>, secrets: seq<string>)

  /** `f"{section}.{key}"`. */
  function Qualified(section: string, key: string): string {
    section + "." + key
  }

  predicate TakesPort(rule: Rule) {
    rule.Listener? || rule.Address?
  }

  /** The loop of `render`, from one line on. */
  function Render(o: Options, lines: seq<string>, section: string, closed: nat, ports: seq<nat>, secrets: seq<string>): Rendered
    requires Enough(o, lines, section, closed, ports, secrets)
    decreases |lines|
  {
    if lines == [] then Rendered([], [])
    else
      var raw := lines[0];
      match ParseSection(raw)
      case Some(name) =>
        var rest := Render(o, lines[1..], name, closed, ports, secrets);
        Rendered([raw] + rest.lines, rest.secrets)
      case None =>
        match ParseLine(raw)
        case None =>
          var rest := Render(o, lines[1..], section, closed, ports, secrets);
          Rendered([raw] + rest.lines, rest.secrets)
        case Some(line) =>
          var rule := RuleFor(o, section, line, closed);
          var p, q := if TakesPort(rule) then 1 else 0, if rule.Secret? then 1 else 0;
          var rest := Render(o, lines[1..], section, closed, ports[p..], secrets[q..]);
          Rendered(
            [Rewrite(line, rule, raw, if p == 1 then ports[0] else 0, if q == 1 then secrets[0] else "")] + rest.lines,
            (if q == 1 then [Qualified(section, line.key)] else []) + rest.secrets)
  }

  /** The draws last for the lines. */
  predicate Enough(o: Options, lines: seq<string>, section: string, closed: nat, ports: seq<nat>, secrets: seq<string>)
    decreases |lines|
  {
    lines == [] ||
    match ParseSection(lines[0])
    case Some(name) => Enough(o, lines[1..], name, closed, ports, secrets)
    case None =>
      match ParseLine(lines[0])
      case None => Enough(o, lines[1..], section, closed, ports, secrets)
      case Some(line) =>
        var rule := RuleFor(o, section, line, closed);
        var p, q := if TakesPort(rule) then 1 else 0, if rule.Secret? then 1 else 0;
        p <= |ports| && q <= |secrets| && Enough(o, lines[1..], section, closed, ports[p..], secrets[q..])
  }

  lemma {:induction false} RenderLength(
      o: Options, lines: seq<string>, section: string, closed: nat, ports: seq<nat>, secrets: seq<string>)
    requires Enough(o, lines, section, closed, ports, secrets)
    ensures |Render(o, lines, section, closed, ports, secrets).lines| == |lines|
    decreases |lines|
  {
    hide ParseSection, ParseLine, RuleFor, Rewrite, Qualified;
    if lines != [] {
      var raw := lines[0];
      if ParseSection(raw).Some? {
        RenderLength(o, lines[1..], ParseSection(raw).value, closed, ports, secrets);
      } else if ParseLine(raw).None? {
        RenderLength(o, lines[1..], section, closed, ports, secrets);
      } else {
        var rule := RuleFor(o, section, ParseLine(raw).value, closed);
        var p, q := if TakesPort(rule) then 1 else 0, if rule.Secret? then 1 else 0;
        RenderLength(o, lines[1..], section, closed, ports[p..], secrets[q..]);
      }
    }
  }

  /** The section in force after some lines. */
  function SectionAfter(lines: seq<string>, section: string): string
    decreases |lines|
  {
    if lines == [] then section
    else match ParseSection(lines[0])
      case Some(name) => SectionAfter(lines[1..], name)
      case None => SectionAfter(lines[1..], section)
  }

  // ----- masked -----

  const MASK := "\"<masked>\""

  /** The loop of `masked`, from one line on. */
  function MaskLines(lines: seq<string>, section: string, hidden: set<string>): seq<string>
    decreases |lines|
  {
    if lines == [] then []
    else
      var raw := lines[0];
      match ParseSection(raw)
      case Some(name) => [raw] + MaskLines(lines[1..], name, hidden)
      case None =>
        match ParseLine(raw)
        case Some(line) =>
          [if Qualified(section, line.key) in hidden then line.indent + line.key + line.eq + MASK else raw]
          + MaskLines(lines[1..], section, hidden)
        case None => [raw] + MaskLines(lines[1..], section, hidden)
  }

  /** `masked(config, summary)`. */
  function Masked(config: string, secrets: seq<string>): string {
    JoinLines(MaskLines(SplitLines(config), "", Elements(secrets)))
  }

  function SectionOf(raw: string, section: string): string {
    if ParseSection(raw).Some? then ParseSection(raw).value else section
  }

  function ShownLine(raw: string, section: string, hidden: set<string>): string {
    if ParseSection(raw).None? && ParseLine(raw).Some? && Qualified(section, ParseLine(raw).value.key) in hidden
    then var line := ParseLine(raw).value; line.indent + line.key + line.eq + MASK
    else raw
  }

  lemma {:induction false} MaskStep(out: seq<string>, lines: seq<string>, i: nat, section: string, hidden: set<string>)
    requires i < |lines|
    ensures out + MaskLines(lines[i..], section, hidden)
         == (out + [ShownLine(lines[i], section, hidden)]) + MaskLines(lines[i + 1..], SectionOf(lines[i], section), hidden)
  {
    hide ParseSection, ParseLine, Qualified;
    var rest := lines[i..];
    assert rest[0] == lines[i] && rest[1..] == lines[i + 1..];
    Regroup(out, ShownLine(lines[i], section, hidden), MaskLines(lines[i + 1..], SectionOf(lines[i], section), hidden));
  }

  lemma Regroup(a: seq<string>, b: string, c: seq<string>)
    ensures a + ([b] + c) == (a + [b]) + c
  {
  }

  /** `masked` as it runs. */
  method MaskConfig(config: string, secrets: seq<string>) returns (r: string)
    ensures r == Masked(config, secrets)
  {
    hide SplitLines, ParseSection, ParseLine, JoinLines, Qualified, MaskLines;
    var hidden := Elements(secrets);
    var lines := SplitLines(config);
    var out: seq<string>, section := [], "";
    var i := 0;
    assert lines[0..] == lines && [] + MaskLines(lines, "", hidden) == MaskLines(lines, "", hidden);
    while i < |lines|
      invariant 0 <= i <= |lines|
      invariant out + MaskLines(lines[i..], section, hidden) == MaskLines(lines, "", hidden)
    {
      var raw := lines[i];
      MaskStep(out, lines, i, section, hidden);
      var header := ParseSection(raw);
      if header.Some? {
        section := header.value;
        out := out + [raw];
      } else {
        var line := ParseLine(raw);
        if line.Some? && Qualified(section, line.value.key) in hidden {
          out := out + [line.value.indent + line.value.key + line.value.eq + MASK];
        } else {
          out := out + [raw];
        }
      }
      i := i + 1;
    }
    assert lines[i..] == [] && MaskLines([], section, hidden) == [] by { NothingMasked(section, hidden); }
    assert out + [] == out;
    return JoinLines(out);
  }

  lemma NothingMasked(section: string, hidden: set<string>)
    ensures MaskLines([], section, hidden) == []
  {
  }
}
