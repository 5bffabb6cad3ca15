/** What `render` writes for each line of a template, section by section and key by key. */
module BootRules {
  import opened Text
  import opened Boot

  // ----- how values are written -----

  /** The number that a run of decimal digits stands for. */
  function ValueOf(s: string): int {
    if s == "" then 0 else 10 * ValueOf(s[..|s| - 1]) + (s[|s| - 1] as int - '0' as int)
  }

  /** A number is written in decimal, without leading zeros. */
  lemma {:induction false} DecimalValue(n: nat)
    ensures ValueOf(Decimal(n)) == n && (n > 0 ==> Decimal(n)[0] != '0')
    decreases n
  {
    var d := ['0' + (n % 10) as char];
    if n < 10 {
      assert d[..0] == "";
    } else {
      DecimalValue(n / 10);
      var s := Decimal(n / 10);
      assert (s + d)[..|s + d| - 1] == s;
    }
  }

  /** What is left of an escaped text: behind a backslash the next character stands for itself. */
  function Unescape(s: string): string
    decreases |s|
  {
    if s == "" then "" else if s[0] == '\\' && |s| > 1 then [s[1]] + Unescape(s[2..]) else [s[0]] + Unescape(s[1..])
  }

  /** A quoted value reads back, and ends at its last character and not before. */
  lemma {:induction false} QuoteReadsBack(v: string)
    ensures Quote(v) == "\"" + Escape(v) + "\"" && Unescape(Escape(v)) == v && QuoteEndsAt(Escape(v) + "\"", |Escape(v)|)
  {
    hide Escape, Unescape, QuoteEndsAt;
    UnescapesBack(v);
    EndsOnce(v);
  }

  lemma {:induction false} UnescapesBack(v: string)
    ensures Unescape(Escape(v)) == v
    decreases |v|
  {
    if v != "" {
      UnescapesBack(v[1..]);
      var s, e := Escape(v), Escape(v[1..]);
      if v[0] == '\\' || v[0] == '"' {
        assert s == ['\\', v[0]] + e && s[2..] == e;
      } else {
        assert s == [v[0]] + e && s[1..] == e;
      }
      assert [v[0]] + v[1..] == v;
    }
  }

  lemma {:induction false} EndsOnce(v: string)
    ensures QuoteEndsAt(Escape(v) + "\"", |Escape(v)|)
    decreases |v|
  {
    if v == "" {
      assert Escape(v) + "\"" == "\"";
    } else {
      EndsOnce(v[1..]);
      var s, e := Escape(v), Escape(v[1..]);
      if v[0] == '\\' || v[0] == '"' {
        assert s == ['\\', v[0]] + e && (s + "\"")[2..] == e + "\"";
      } else {
        assert s == [v[0]] + e && (s + "\"")[1..] == e + "\"";
      }
    }
  }

  /** The first quote that no backslash escapes is at `k`. */
  predicate QuoteEndsAt(s: string, k: nat)
    decreases |s|
  {
    if s == "" then false
    else if s[0] == '"' then k == 0
    else if s[0] == '\\' then k >= 2 && |s| >= 2 && QuoteEndsAt(s[2..], k - 2)
    else k >= 1 && QuoteEndsAt(s[1..], k - 1)
  }

  /** A text without quotes and backslashes is quoted as it is. */
  lemma {:induction false} QuotePlain(v: string)
    requires forall k :: 0 <= k < |v| ==> v[k] != '"' && v[k] != '\\'
    ensures Quote(v) == "\"" + v + "\""
  {
    EscapePlain(v);
  }

  lemma {:induction false} EscapePlain(v: string)
    requires forall k :: 0 <= k < |v| ==> v[k] != '"' && v[k] != '\\'
    ensures Escape(v) == v
    decreases |v|
  {
    if v != "" {
      EscapePlain(v[1..]);
      assert [v[0]] + v[1..] == v;
    }
  }

  // ----- ports and secrets -----

  /** The keys that get a port of their own. */
  predicate PortKey(o: Options, section: string, key: string) {
    || (section == "server" && (key == "port" || key == "grpc_port" || key == "health_port" || key == "device_port" || key == "home_port"))
    || (section == o.service && key == "port")
    || ((section == "rpc" || section == "internal_tls") && key == "address")
  }

  /** The keys whose value is a secret. */
  predicate SecretKey(section: string, key: string) {
    || (section == "jwt" && (key == "secret" || key == "refresh_secret"))
    || (section == "device" && key == "fingerprint_secret")
    || (section == "identity" && key == "rpc_secret")
    || (section == "auth" && key == "rpc_secret")
    || (section == "sync" && key == "control_secret")
    || (section == "tunnel" && key == "secret")
    || (section == "rtc" && (key == "api_key" || key == "api_secret"))
    || section == "rpc.callers"
    || (section == "grpc" && |key| >= 7 && key[..7] == "caller_")
  }

  lemma PortIff(o: Options, section: string, line: Line, closed: nat)
    ensures TakesPort(RuleFor(o, section, line, closed)) <==> PortKey(o, section, line.key)
  {
    hide StartsWith, IsSecret, ValueRule;
    ValueFixed(o, section, line.key, line.value, closed);
  }

  lemma ValueFixed(o: Options, section: string, key: string, quoted: string, closed: nat)
    ensures ValueRule(o, section, key, quoted, closed).Text? || ValueRule(o, section, key, quoted, closed).Keep?
  {
    hide StartsWith, EndsWith, Quote, ParsePeer, BaseName, JoinPath, ResolvePath;
  }

  lemma SecretIff(o: Options, section: string, line: Line, closed: nat)
    ensures RuleFor(o, section, line, closed).Secret? <==>
      SecretKey(section, line.key) && !(section == o.service && (line.key == "port" || line.key == "host"))
  {
    hide ValueRule;
    ValueFixed(o, section, line.key, line.value, closed);
    assert StartsWith(section, "owners.") ==> section[0] == section[..7][0];
  }

  // ----- what is written -----

  /** The line that `render` writes for a line of the template. */
  function Wrote(o: Options, section: string, line: Line, raw: string, closed: nat, port: nat, secret: string): string {
    Rewrite(line, RuleFor(o, section, line, closed), raw, port, secret)
  }

  function Front(line: Line): string {
    line.indent + line.key + line.eq
  }

  /** Ports as numbers or loopback addresses, and secrets in quotes. */
  lemma {:induction false} DrawnWritten(o: Options, section: string, line: Line, raw: string, closed: nat, port: nat, secret: string)
    ensures
      var w := Wrote(o, section, line, raw, closed, port, secret);
      && (PortKey(o, section, line.key) && line.key != "address" ==> w == Front(line) + Decimal(port))
      && (PortKey(o, section, line.key) && line.key == "address" ==>
            w == Front(line) + "\"" + "127.0.0.1:" + Decimal(port) + "\"")
      && (SecretKey(section, line.key) && section != o.service ==> w == Front(line) + Quote(secret))
  {
    hide ValueRule, Quote, Decimal;
    SecretIff(o, section, line, closed);
    var a := "127.0.0.1:" + Decimal(port);
    QuotePlain(a);
    assert Front(line) + ("\"" + a + "\"") == Front(line) + "\"" + "127.0.0.1:" + Decimal(port) + "\"";
  }

  /** The fixed values, by name. */
  lemma {:induction false} FixedWritten(o: Options, section: string, line: Line, raw: string, closed: nat, port: nat, secret: string)
    ensures
      var w, key := Wrote(o, section, line, raw, closed, port, secret), line.key;
      && (section == "remote" && key == "tunnel_port" ==> w == Front(line) + "0")
      && (section == "remote" && key == "enabled" ==> w == Front(line) + "false")
      && (section == "mdns" && key == "enabled" ==> w == Front(line) + "false")
      && (section == "settings" && key == "first_run" ==> w == Front(line) + "false")
      && ((section == "server" || section == o.service) && key == "host" ==> w == Front(line) + "\"127.0.0.1\"")
      && (section == "nats" && key == "url" ==> w == Front(line) + "\"\"")
      && (|section| >= 7 && section[..7] == "owners." && key == "target" ==> w == Front(line) + "\"\"")
      && (section == "internal_tls" && key == "dir" ==> w == Front(line) + Quote(o.pki))
      && (section == "cert" && key == "server_cert" ==> w == Front(line) + Quote(o.cert))
      && (section == "cert" && key == "server_key" ==> w == Front(line) + Quote(o.key))
  {
    hide ValueRule, Quote, Decimal, IsSecret;
    QuotePlain("127.0.0.1");
    QuotePlain("");
    assert "\"" + "127.0.0.1" + "\"" == "\"127.0.0.1\"" && "\"" + "" + "\"" == "\"\"";
  }

  // ----- files and peers -----

  /** The keys with a fixed value. */
  predicate FixedKey(o: Options, section: string, key: string) {
    || (section == "remote" && (key == "tunnel_port" || key == "enabled"))
    || (section == "mdns" && key == "enabled")
    || (section == "settings" && key == "first_run")
    || ((section == "server" || section == o.service) && key == "host")
    || (section == "nats" && key == "url")
    || (|section| >= 7 && section[..7] == "owners." && key == "target")
    || (section == "internal_tls" && key == "dir")
    || (section == "cert" && (key == "server_cert" || key == "server_key"))
  }

  /** All other keys are decided by their value. */
  lemma Unnamed(o: Options, section: string, key: string)
    ensures NamedRule(o, section, key).None? <==>
      !PortKey(o, section, key) && !SecretKey(section, key) && !FixedKey(o, section, key)
  {
    hide Quote;
  }

  lemma {:induction false} Quoted(v: string)
    ensures Unquote("\"" + v + "\"") == v && StartsWith("\"" + v + "\"", "\"")
  {
    var q := "\"" + v + "\"";
    assert q[1..|q| - 1] == v && q[..1] == "\"";
  }

  /** A database goes under the scratch directory, by the last part of its path or the name of the service. */
  lemma {:induction false} DatabaseWritten(o: Options, section: string, line: Line, raw: string, closed: nat, port: nat, secret: string,
                                           dir: string, name: string)
    requires line.key == "db" || line.key == "db_path" || (section == "database" && (line.key == "file" || line.key == "path"))
    requires section != "rpc.callers" && (dir != "" ==> dir[|dir| - 1] == '/') && '/' !in name
    requires line.value == "\"" + (dir + name) + "\"" && o.scratch != "" && o.scratch[|o.scratch| - 1] != '/'
    requires '/' !in o.service
    ensures
      Wrote(o, section, line, raw, closed, port, secret) ==
        Front(line) + Quote(o.scratch + "/data/" + (if dir + name == "" then o.service + ".db" else name))
  {
    hide Quote, ValueRule, NamedRule, BaseName, JoinPath, Unquote;
    var last := if dir + name == "" then o.service + ".db" else name;
    DatabaseUnnamed(o, section, line.key);
    assert '/' !in last;
    DatabaseRule(o, section, line.key, line.value, closed);
    Quoted(dir + name);
    BaseIs(dir, name);
    PathIs(o.scratch, last);
  }

  lemma DatabaseUnnamed(o: Options, section: string, key: string)
    requires key == "db" || key == "db_path" || (section == "database" && (key == "file" || key == "path"))
    requires section != "rpc.callers"
    ensures NamedRule(o, section, key).None?
  {
    hide NamedRule;
    Unnamed(o, section, key);
    assert |key| >= 7 ==> key[..7][0] == key[0];
  }

  lemma DatabaseRule(o: Options, section: string, key: string, quoted: string, closed: nat)
    requires key == "db" || key == "db_path" || (section == "database" && (key == "file" || key == "path"))
    ensures
      var value := Unquote(quoted);
      ValueRule(o, section, key, quoted, closed) ==
        Boot.Text(Quote(JoinPath(JoinPath(o.scratch, "data"), if value != "" then BaseName(value) else o.service + ".db")))
  {
    hide Quote, JoinPath, BaseName, ParsePeer, Unquote;
  }

  lemma {:induction false} BaseIs(dir: string, name: string)
    requires (dir != "" ==> dir[|dir| - 1] == '/') && '/' !in name
    ensures BaseName(dir + name) == name
    decreases |name|
  {
    hide BaseName;
    if name == "" {
      assert dir + name == dir;
      BaseOf(dir);
    } else {
      var n := |name| - 1;
      var init, c := name[..n], name[n];
      assert name == init + [c];
      assert dir + name == dir + init + [c];
      BaseIs(dir, init);
      BaseSnoc(dir + init, c);
    }
  }

  lemma BaseOf(dir: string)
    requires dir != "" ==> dir[|dir| - 1] == '/'
    ensures BaseName(dir) == ""
  {
  }

  lemma {:induction false} BaseSnoc(path: string, c: char)
    requires c != '/'
    ensures BaseName(path + [c]) == BaseName(path) + [c]
  {
    assert (path + [c])[..|path|] == path;
  }

  lemma {:induction false} PathIs(scratch: string, last: string)
    requires scratch != "" && scratch[|scratch| - 1] != '/' && '/' !in last
    ensures JoinPath(JoinPath(scratch, "data"), last) == scratch + "/data/" + last
  {
    var data := scratch + "/" + "data";
    Relative("data");
    Relative(last);
    Unended(scratch);
    Unended(data);
    assert data + "/" + last == scratch + "/data/" + last;
  }

  lemma Relative(s: string)
    requires '/' !in s
    ensures !StartsWith(s, "/")
  {
    assert |s| >= 1 ==> s[..1][0] == s[0];
  }

  lemma Unended(s: string)
    requires s != "" && s[|s| - 1] != '/'
    ensures !EndsWith(s, "/")
  {
    assert s[|s| - 1..][0] == s[|s| - 1];
  }

  /** Other paths are looked up, unless they are absolute or empty. */
  lemma {:induction false} PathWritten(o: Options, section: string, line: Line, raw: string, closed: nat, port: nat, secret: string,
                                       stem: string, value: string)
    requires line.key == "schema" || line.key == stem + "_dir" || (line.key == stem + "_path" && stem != "db")
    requires !SecretKey(section, line.key) && line.value == "\"" + value + "\""
    ensures
      Wrote(o, section, line, raw, closed, port, secret) ==
        Front(line) + Quote(if value == "" || value[0] == '/' then value else o.resolve(value))
  {
    hide Quote, ValueRule, NamedRule, Unquote, SecretKey, PathKey;
    Quoted(value);
    LooksUp(line.key, stem);
    PathUnnamed(o, section, line.key);
    PathRule(o, section, line.key, line.value, closed);
  }

  lemma PathUnnamed(o: Options, section: string, key: string)
    requires PathKey(key) && !SecretKey(section, key)
    ensures NamedRule(o, section, key).None?
  {
    hide NamedRule, PathKey, SecretKey;
    Unnamed(o, section, key);
    PathApart(key);
  }

  lemma PathApart(key: string)
    requires PathKey(key)
    ensures key != "port" && key != "grpc_port" && key != "health_port" && key != "device_port" && key != "home_port"
    ensures key != "address" && key != "tunnel_port" && key != "enabled" && key != "first_run" && key != "host"
    ensures key != "url" && key != "target" && key != "dir" && key != "server_cert" && key != "server_key"
  {
    hide PathKey;
    PathEnds(key);
  }

  lemma PathEnds(key: string)
    requires PathKey(key)
    ensures |key| > 3 && (key[|key| - 1] == 'a' || key[|key| - 1] == 'h' || key[|key| - 1] == 'r')
  {
    assert EndsWith(key, "_dir") ==> key[|key| - 1] == key[|key| - 4..][3];
    assert EndsWith(key, "_path") ==> key[|key| - 1] == key[|key| - 5..][4];
  }

  predicate PathKey(key: string) {
    && (key == "schema" || EndsWith(key, "_dir") || EndsWith(key, "_path"))
    && key !in {"db", "db_path", "file", "path"}
  }

  lemma PathRule(o: Options, section: string, key: string, quoted: string, closed: nat)
    requires PathKey(key)
    ensures ValueRule(o, section, key, quoted, closed) == Boot.Text(Quote(ResolvePath(o, Unquote(quoted))))
  {
    hide Quote, JoinPath, BaseName, ParsePeer, Unquote, ResolvePath;
  }

  lemma {:induction false} LooksUp(key: string, stem: string)
    requires key == "schema" || key == stem + "_dir" || (key == stem + "_path" && stem != "db")
    ensures PathKey(key)
  {
    assert (stem + "_dir")[|stem|..] == "_dir" && (stem + "_path")[|stem|..] == "_path";
    assert "db_path"[..2] == "db" && (stem + "_path")[..|stem|] == stem;
    assert key == stem + "_dir" ==> key[|key| - 1] == 'r' && key[|key| - 4] == '_';
    assert key == stem + "_path" ==> key[|key| - 1] == 'h' && key[|key| - 5] == '_';
  }

  /** So are the paths of models, under any key that is decided by its value. */
  lemma {:induction false} ModelsWritten(o: Options, section: string, line: Line, raw: string, closed: nat, port: nat, secret: string,
                                         name: string)
    requires PeerKey(o, section, line.key) && line.value == "\"" + ("models/" + name) + "\""
    ensures Wrote(o, section, line, raw, closed, port, secret) == Front(line) + Quote(o.resolve("models/" + name))
  {
    hide Quote, NamedRule, Unquote, PortKey, SecretKey, FixedKey, BaseName, JoinPath, ParsePeer;
    var value := "models/" + name;
    Quoted(value);
    Unnamed(o, section, line.key);
    assert value[..7] == "models/" && value[0] == 'm';
  }

  /** Anything else stays as it is: a value without quotes, or without a colon. */
  lemma {:induction false} KeptWritten(o: Options, section: string, line: Line, raw: string, closed: nat, port: nat, secret: string)
    requires PeerKey(o, section, line.key) && !StartsWith(Unquote(line.value), "models/")
    requires (line.value == "" || line.value[0] != '"') || ':' !in line.value
    ensures Wrote(o, section, line, raw, closed, port, secret) == raw
  {
    hide Quote, NamedRule, Unquote, PortKey, SecretKey, FixedKey, ParsePeer, ValueRule, PeerKey;
    assert NamedRule(o, section, line.key).None? by {
      Unnamed(o, section, line.key);
      assert PeerKey(o, section, line.key);
      PeerKeyParts(o, section, line.key);
    }
    assert StartsWith(line.value, "\"") ==> line.value[0] == line.value[..1][0];
    if ':' !in line.value {
      NoColon(line.value, o.digits);
    }
    KeepRule(o, section, line.key, line.value, closed);
  }

  lemma PeerKeyParts(o: Options, section: string, key: string)
    requires PeerKey(o, section, key)
    ensures !PortKey(o, section, key) && !SecretKey(section, key) && !FixedKey(o, section, key)
  {
    hide PortKey, SecretKey, FixedKey;
  }

  lemma KeepRule(o: Options, section: string, key: string, quoted: string, closed: nat)
    requires PeerKey(o, section, key) && !StartsWith(Unquote(quoted), "models/")
    requires !StartsWith(quoted, "\"") || ParsePeer(Unquote(quoted), o.digits).None?
    ensures ValueRule(o, section, key, quoted, closed) == Keep
  {
    hide Quote, JoinPath, BaseName, ParsePeer, Unquote, ResolvePath, Decimal, PeerKey, StartsWith, EndsWith;
    PeerNoPath(o, section, key);
  }

  lemma {:induction false} NoColon(quoted: string, digits: set<char>)
    requires ':' !in quoted
    ensures ParsePeer(Unquote(quoted), digits).None?
  {
    hide LowerLen, HostLen, DigitLen;
    var v := Unquote(quoted);
    assert forall k :: 0 <= k < |v| ==> v[k] in quoted;
  }

  /** The hosts that stand for a peer. */
  predicate PeerHost(host: string) {
    || host == "127.0.0.1" || host == "localhost" || host == "0.0.0.0" || host == "[::1]"
    || (|host| > 6 && host[..6] == "argus-" && forall k :: 6 <= k < |host| ==> HostChar(host[k]))
  }

  predicate HostChar(c: char) {
    'a' <= c <= 'z' || '0' <= c <= '9' || c == '-'
  }

  predicate Scheme(scheme: string) {
    || scheme == ""
    || (|scheme| > 3 && scheme[|scheme| - 3..] == "://" && forall k :: 0 <= k < |scheme| - 3 ==> 'a' <= scheme[k] <= 'z')
  }

  predicate Digits(s: string) {
    s != "" && forall k :: 0 <= k < |s| ==> '0' <= s[k] <= '9'
  }

  /** The keys whose value is only looked at for the address of a peer. */
  predicate PeerKey(o: Options, section: string, key: string) {
    && !PortKey(o, section, key) && !SecretKey(section, key) && !FixedKey(o, section, key)
    && key !in {"db", "db_path", "schema"} && !(section == "database" && key in {"file", "path"})
    && !(|key| >= 4 && key[|key| - 4..] == "_dir") && !(|key| >= 5 && key[|key| - 5..] == "_path")
  }

  /** The quoted address of a peer keeps its scheme and its path, and leads to the closed port. */
  lemma {:induction false} PeerWritten(o: Options, section: string, line: Line, raw: string, closed: nat, port: nat, secret: string,
                                       scheme: string, host: string, number: string, rest: string)
    requires PeerKey(o, section, line.key) && '/' !in o.digits
    requires Scheme(scheme) && PeerHost(host) && Digits(number) && (rest != "" ==> rest[0] == '/')
    requires line.value == "\"" + (scheme + host + ":" + number + rest) + "\""
    ensures
      Wrote(o, section, line, raw, closed, port, secret) ==
        Front(line) + Quote(scheme + "127.0.0.1:" + Decimal(closed) + rest)
  {
    hide Quote, ValueRule, NamedRule, Decimal, ParsePeer, Scheme, PeerHost, Digits;
    var v := scheme + host + ":" + number + rest;
    Quoted(v);
    assert NamedRule(o, section, line.key).None? by { Unnamed(o, section, line.key); }
    PeerParsed(scheme, host, number, rest, o.digits);
    NotModels(scheme, host, ":" + number + rest);
    assert v == scheme + host + (":" + number + rest);
    PeerRule(o, section, line.key, line.value, closed);
  }

  lemma PeerRule(o: Options, section: string, key: string, quoted: string, closed: nat)
    requires PeerKey(o, section, key) && StartsWith(quoted, "\"")
    requires ParsePeer(Unquote(quoted), o.digits).Some? && !StartsWith(Unquote(quoted), "models/")
    ensures
      var peer := ParsePeer(Unquote(quoted), o.digits).value;
      ValueRule(o, section, key, quoted, closed) == Boot.Text(Quote(peer.scheme + "127.0.0.1:" + Decimal(closed) + peer.rest))
  {
    hide Quote, JoinPath, BaseName, ParsePeer, Unquote, ResolvePath, Decimal, PeerKey, StartsWith, EndsWith;
    PeerNoPath(o, section, key);
  }

  lemma PeerNoPath(o: Options, section: string, key: string)
    requires PeerKey(o, section, key)
    ensures !EndsWith(key, "_dir") && !EndsWith(key, "_path") && key != "db" && key != "db_path" && key != "schema"
    ensures !(section == "database" && (key == "file" || key == "path" || key == "db"))
  {
    hide PortKey, SecretKey, FixedKey;
  }

  lemma {:induction false} NotModels(scheme: string, host: string, more: string)
    requires Scheme(scheme) && PeerHost(host) && more != "" && more[0] == ':'
    ensures !StartsWith(scheme + host + more, "models/")
  {
    hide StartsWith;
    var v := scheme + host + more;
    if scheme == "" {
      assert |host| > 6 && host[..6] == "argus-" ==> host[0] == host[..6][0];
      assert v[0] == host[0];
      NotPrefix(v, "models/", 0);
    } else {
      var n := |scheme| - 3;
      assert scheme[n] == scheme[n..][0] == ':';
      assert forall k :: 0 <= k <= n ==> v[k] == scheme[k];
      NotPrefix(v, "models/", if n <= 6 then n else 6);
    }
  }

  lemma {:induction false} PeerParsed(scheme: string, host: string, number: string, rest: string, digits: set<char>)
    requires Scheme(scheme) && PeerHost(host) && Digits(number) && (rest != "" ==> rest[0] == '/') && '/' !in digits
    ensures ParsePeer(scheme + host + ":" + number + rest, digits) == Some(Peer(scheme, rest))
  {
    hide AfterHost, LowerLen, PeerHost, Digits;
    var v, tail := scheme + host + ":" + number + rest, host + ":" + number + rest;
    assert v == scheme + tail;
    assert v[|scheme|..] == tail;
    HostParsed(host, number, rest, digits);
    if scheme == "" {
      assert v == tail;
      NoScheme(host, number, rest);
    } else {
      var n := |scheme| - 3;
      assert scheme[n..][0] == scheme[n];
      LowerIs(v, n);
      assert v[n..][..3] == scheme[n..];
      assert v[..n + 3] == scheme;
    }
  }

  lemma {:induction false} LowerIs(s: string, n: nat)
    requires n <= |s| && (forall k :: 0 <= k < n ==> 'a' <= s[k] <= 'z') && (n < |s| ==> !('a' <= s[n] <= 'z'))
    ensures LowerLen(s) == n
    decreases n
  {
    if n > 0 {
      LowerIs(s[1..], n - 1);
    }
  }

  lemma {:induction false} NoScheme(host: string, number: string, rest: string)
    requires PeerHost(host) && Digits(number)
    ensures
      var v := host + ":" + number + rest;
      !(LowerLen(v) > 0 && StartsWith(v[LowerLen(v)..], "://"))
  {
    hide LowerLen, StartsWith;
    var v := host + ":" + number + rest;
    assert forall k :: 0 <= k < |host| ==> v[k] == host[k];
    assert v[|host|] == ':' && v[|host| + 1] == number[0];
    if host == "localhost" {
      LowerIs(v, 9);
      assert v[9..][1] == number[0];
      NotPrefix(v[9..], "://", 1);
    } else if |host| > 6 && host[..6] == "argus-" {
      assert host[..6][0] == host[0] && host[..6][1] == host[1] && host[..6][2] == host[2];
      assert host[..6][3] == host[3] && host[..6][4] == host[4] && host[..6][5] == host[5];
      LowerIs(v, 5);
      assert v[5..][0] == '-';
      NotPrefix(v[5..], "://", 0);
    } else {
      LowerIs(v, 0);
    }
  }

  lemma {:induction false} HostParsed(host: string, number: string, rest: string, digits: set<char>)
    requires PeerHost(host) && Digits(number) && (rest != "" ==> rest[0] == '/') && '/' !in digits
    ensures AfterHost(host + ":" + number + rest, digits) == Some(rest)
  {
    hide HostLen, DigitLen, PeerHost;
    var s := host + ":" + number + rest;
    assert s == host + (":" + number + rest);
    HostIs(host, ":" + number + rest);
    var h := |host|;
    assert s[h] == ':' && s[h + 1..] == number + rest;
    DigitIs(number, rest, digits);
    assert s[h + 1 + |number|..] == rest;
  }

  lemma {:induction false} DigitIs(number: string, rest: string, digits: set<char>)
    requires (forall k :: 0 <= k < |number| ==> '0' <= number[k] <= '9') && (rest != "" ==> rest[0] == '/') && '/' !in digits
    ensures DigitLen(number + rest, digits) == |number|
    decreases |number|
  {
    if number == "" {
      assert number + rest == rest;
    } else {
      assert (number + rest)[0] == number[0] && (number + rest)[1..] == number[1..] + rest;
      DigitIs(number[1..], rest, digits);
    }
  }

  lemma {:induction false} HostIs(host: string, more: string)
    requires PeerHost(host) && more != "" && more[0] == ':'
    ensures HostLen(host + more) == |host| > 0
  {
    hide HostTailLen;
    var s := host + more;
    assert s[..|host|] == host;
    FirstOf(s);
    assert s[0] == host[0];
    if |host| > 6 && host[..6] == "argus-" {
      assert host[..6][0] == host[0];
      assert s[..6] == host[..6];
      assert s[6..] == host[6..] + more;
      TailIs(host[6..], more);
    }
  }

  lemma FirstOf(s: string)
    requires s != ""
    ensures StartsWith(s, "127.0.0.1") ==> s[0] == '1'
    ensures StartsWith(s, "localhost") ==> s[0] == 'l'
    ensures StartsWith(s, "0.0.0.0") ==> s[0] == '0'
    ensures StartsWith(s, "[::1]") ==> s[0] == '['
  {
    assert |s| >= 9 ==> s[..9][0] == s[0];
    assert |s| >= 7 ==> s[..7][0] == s[0];
    assert |s| >= 5 ==> s[..5][0] == s[0];
  }

  lemma {:induction false} TailIs(tail: string, more: string)
    requires (forall k :: 0 <= k < |tail| ==> HostChar(tail[k])) && more != "" && more[0] == ':'
    ensures HostTailLen(tail + more) == |tail|
    decreases |tail|
  {
    if tail == "" {
      assert tail + more == more;
    } else {
      assert (tail + more)[0] == tail[0] && (tail + more)[1..] == tail[1..] + more;
      TailIs(tail[1..], more);
    }
  }

  // ----- a whole template -----

  /** Whether the line is an assignment. */
  predicate Assigns(raw: string) {
    ParseSection(raw).None? && ParseLine(raw).Some?
  }

  predicate WantsPort(o: Options, section: string, raw: string) {
    Assigns(raw) && PortKey(o, section, ParseLine(raw).value.key)
  }

  predicate WantsSecret(o: Options, section: string, raw: string) {
    && Assigns(raw) && SecretKey(section, ParseLine(raw).value.key)
    && !(section == o.service && ParseLine(raw).value.key in {"port", "host"})
  }

  /** How many of the lines take a port. */
  function PortCount(o: Options, lines: seq<string>, section: string): nat
    decreases |lines|
  {
    if lines == [] then 0
    else (if WantsPort(o, section, lines[0]) then 1 else 0) + PortCount(o, lines[1..], SectionAfter([lines[0]], section))
  }

  function SecretCount(o: Options, lines: seq<string>, section: string): nat
    decreases |lines|
  {
    if lines == [] then 0
    else (if WantsSecret(o, section, lines[0]) then 1 else 0) + SecretCount(o, lines[1..], SectionAfter([lines[0]], section))
  }

  lemma SectionCons(lines: seq<string>, section: string)
    requires lines != []
    ensures SectionAfter([lines[0]], section) == if ParseSection(lines[0]).Some? then ParseSection(lines[0]).value else section
    ensures SectionAfter(lines, section) == SectionAfter(lines[1..], SectionAfter([lines[0]], section))
  {
    hide ParseSection;
    assert [lines[0]][1..] == [];
  }

  /** What a line takes, by its section and key. */
  lemma {:induction false} Takes(o: Options, section: string, raw: string, closed: nat)
    requires Assigns(raw)
    ensures
      var rule := RuleFor(o, section, ParseLine(raw).value, closed);
      (TakesPort(rule) <==> WantsPort(o, section, raw)) && (rule.Secret? <==> WantsSecret(o, section, raw))
  {
    hide RuleFor, PortKey, SecretKey, ParseLine;
    PortIff(o, section, ParseLine(raw).value, closed);
    SecretIff(o, section, ParseLine(raw).value, closed);
  }

  /**
    * Every line of the output: headers and other lines as they are, an assignment as its rule says, with
    * the port or the secret that comes after those of the lines before it.
    */
  lemma {:induction false} RenderAt(o: Options, lines: seq<string>, section: string, closed: nat,
                                    ports: seq<nat>, secrets: seq<string>, i: nat)
    requires Enough(o, lines, section, closed, ports, secrets) && i < |lines|
    ensures
      var out, raw, here := Render(o, lines, section, closed, ports, secrets).lines, lines[i], SectionAfter(lines[..i], section);
      var n, m := PortCount(o, lines[..i], section), SecretCount(o, lines[..i], section);
      && |out| == |lines| && (WantsPort(o, here, raw) ==> n < |ports|) && (WantsSecret(o, here, raw) ==> m < |secrets|)
      && out[i] ==
         if Assigns(raw) then
           Wrote(o, here, ParseLine(raw).value, raw, closed,
             if WantsPort(o, here, raw) then ports[n] else 0, if WantsSecret(o, here, raw) then secrets[m] else "")
         else raw
    decreases |lines|
  {
    hide ParseSection, ParseLine, RuleFor, WantsPort, WantsSecret, Wrote, SectionAfter, Render, Enough, PortCount, SecretCount,
         Assigns;
    var raw := lines[0];
    var here := SectionAfter([raw], section);
    SectionCons(lines, section);
    var rest := lines[1..];
    var p, q := if WantsPort(o, section, raw) then 1 else 0, if WantsSecret(o, section, raw) then 1 else 0;
    assert !Assigns(raw) ==> p == 0 && q == 0 by { WantsAssign(o, section, raw); }
    assert ports[0..] == ports && secrets[0..] == secrets;
    RenderCons(o, lines, section, closed, ports, secrets, p, q);
    if i == 0 {
      assert lines[..0] == [];
      NoSection(section);
      NoCount(o, section);
      RenderLength(o, rest, here, closed, ports[p..], secrets[q..]);
    } else {
      RenderAt(o, rest, here, closed, ports[p..], secrets[q..], i - 1);
      var before := lines[..i];
      assert before[0] == raw && before[1..] == rest[..i - 1];
      SectionCons(before, section);
      CountCons(o, before, section);
    }
  }

  lemma NoCount(o: Options, section: string)
    ensures PortCount(o, [], section) == 0 && SecretCount(o, [], section) == 0
  {
  }

  lemma CountCons(o: Options, lines: seq<string>, section: string)
    requires lines != []
    ensures
      var here, raw := SectionAfter([lines[0]], section), lines[0];
      && PortCount(o, lines, section) == (if WantsPort(o, section, raw) then 1 else 0) + PortCount(o, lines[1..], here)
      && SecretCount(o, lines, section) == (if WantsSecret(o, section, raw) then 1 else 0) + SecretCount(o, lines[1..], here)
  {
    hide WantsPort, WantsSecret, SectionAfter;
  }

  lemma NoSection(section: string)
    ensures SectionAfter([], section) == section
  {
  }

  lemma WantsAssign(o: Options, section: string, raw: string)
    ensures WantsPort(o, section, raw) || WantsSecret(o, section, raw) ==> Assigns(raw)
  {
  }

  /** The first line and the rest. */
  lemma {:induction false} RenderCons(o: Options, lines: seq<string>, section: string, closed: nat,
                                      ports: seq<nat>, secrets: seq<string>, p: nat, q: nat)
    requires lines != [] && Enough(o, lines, section, closed, ports, secrets)
    requires p == (if WantsPort(o, section, lines[0]) then 1 else 0) && q == if WantsSecret(o, section, lines[0]) then 1 else 0
    ensures p <= |ports| && q <= |secrets|
    ensures
      var here, raw := SectionAfter([lines[0]], section), lines[0];
      && Enough(o, lines[1..], here, closed, ports[p..], secrets[q..])
      && Render(o, lines, section, closed, ports, secrets).lines
         == [if Assigns(raw) then
               Wrote(o, section, ParseLine(raw).value, raw, closed, if p == 1 then ports[0] else 0, if q == 1 then secrets[0] else "")
             else raw] + Render(o, lines[1..], here, closed, ports[p..], secrets[q..]).lines
  {
    hide ParseSection, ParseLine, RuleFor, WantsPort, WantsSecret, Rewrite, SectionAfter, Qualified;
    var raw := lines[0];
    SectionCons(lines, section);
    WantsAssign(o, section, raw);
    assert ports[0..] == ports && secrets[0..] == secrets;
    if Assigns(raw) {
      Takes(o, section, raw, closed);
    }
  }
}
