/** The DNS names of discovery-drill.py (sections 3.1 and 4.1.4 of RFC 1035). */
module DnsName {
  import opened Text
  import opened ByteStrings
  import opened Splitting

  datatype Name = Ok(labels: seq<Bytes>, end: nat) | PastEnd | PointerPastEnd | PointsAtItself

  const MaxJumps := 16

  predicate IsPointer(length: Byte) {
    length >= 0xC0
  }

  /** Where a pointer at `offset` leads. */
  function Target(packet: Bytes, offset: nat): nat
    requires offset + 1 < |packet| && IsPointer(packet[offset])
  {
    var high: int, low: int := packet[offset], packet[offset + 1];
    (high - 0xC0) * 256 + low
  }

  /** `packet[offset + 1:offset + 1 + length]`: a slice stops at the end of the packet. */
  function LabelAt(packet: Bytes, offset: nat): Bytes
    requires offset < |packet|
  {
    var stop := offset + 1 + packet[offset];
    if stop <= |packet| then packet[offset + 1..stop] else packet[offset + 1..]
  }

  function Front(one: Bytes, n: Name): Name {
    if n.Ok? then Ok([one] + n.labels, n.end) else n
  }

  function WithEnd(end: nat, n: Name): Name {
    if n.Ok? then Ok(n.labels, end) else n
  }

  /** What the loop of `read_name` answers from `offset` after `jumps` pointers; it always stops. */
  function ReadFrom(packet: Bytes, offset: nat, jumps: nat): Name
    requires jumps <= MaxJumps
    decreases MaxJumps - jumps, |packet| - offset
  {
    if offset >= |packet| then PastEnd
    else
      var length := packet[offset];
      if length == 0 then Ok([], offset + 1)
      else if IsPointer(length) then
        if offset + 1 >= |packet| then PointerPastEnd
        else if jumps == MaxJumps then PointsAtItself
        else WithEnd(offset + 2, ReadFrom(packet, Target(packet, offset), jumps + 1))
      else Front(LabelAt(packet, offset), ReadFrom(packet, offset + 1 + length, jumps))
  }

  /** `read_name`, with its loop variables. */
  method ReadName(packet: Bytes, start: nat) returns (r: Name)
    ensures r == ReadFrom(packet, start, 0)
  {
    hide ReadFrom, Target, LabelAt, Finish;
    var labels: seq<Bytes>, jumps: nat, end: Option<nat>, offset: nat := [], 0, None, start;
    FinishNothing(ReadFrom(packet, start, 0));
    while true
      invariant jumps <= MaxJumps
      invariant Finish(labels, end, ReadFrom(packet, offset, jumps)) == ReadFrom(packet, start, 0)
      decreases MaxJumps - jumps, |packet| - offset
    {
      ReadStep(packet, offset, jumps);
      FinishLast(labels, end, ReadFrom(packet, offset, jumps));
      if offset >= |packet| {
        return PastEnd;
      }
      var length := packet[offset];
      if length == 0 {
        offset := offset + 1;
        return Ok(labels, if end.Some? then end.value else offset);
      }
      if IsPointer(length) {
        if offset + 1 >= |packet| {
          return PointerPastEnd;
        }
        if jumps < MaxJumps {
          FinishEnd(labels, end, offset + 2, ReadFrom(packet, Target(packet, offset), jumps + 1));
        }
        if end.None? {
          end := Some(offset + 2);
        }
        offset := Target(packet, offset);
        jumps := jumps + 1;
        if jumps > MaxJumps {
          return PointsAtItself;
        }
        continue;
      }
      FinishFront(labels, end, LabelAt(packet, offset), ReadFrom(packet, offset + 1 + length, jumps));
      labels := labels + [LabelAt(packet, offset)];
      offset := offset + 1 + length;
    }
  }

  /** One round of the loop. */
  lemma {:induction false} ReadStep(packet: Bytes, offset: nat, jumps: nat)
    requires jumps <= MaxJumps
    ensures ReadFrom(packet, offset, jumps) ==
      if offset >= |packet| then PastEnd
      else if packet[offset] == 0 then Ok([], offset + 1)
      else if !IsPointer(packet[offset]) then
        Front(LabelAt(packet, offset), ReadFrom(packet, offset + 1 + packet[offset], jumps))
      else if offset + 1 >= |packet| then PointerPastEnd
      else if jumps == MaxJumps then PointsAtItself
      else WithEnd(offset + 2, ReadFrom(packet, Target(packet, offset), jumps + 1))
  {
    hide Target, LabelAt;
  }

  lemma FinishNothing(n: Name)
    ensures Finish([], None, n) == n
  {
    assert n.Ok? ==> [] + n.labels == n.labels;
  }

  lemma FinishLast(labels: seq<Bytes>, end: Option<nat>, n: Name)
    ensures !n.Ok? ==> Finish(labels, end, n) == n
    ensures n.Ok? && n.labels == [] ==> Finish(labels, end, n) == Ok(labels, if end.Some? then end.value else n.end)
  {
    assert n.Ok? && n.labels == [] ==> labels + n.labels == labels;
  }

  /** The labels gathered so far and the end already fixed, put in front of the rest. */
  function Finish(labels: seq<Bytes>, end: Option<nat>, n: Name): Name {
    if n.Ok? then Ok(labels + n.labels, if end.Some? then end.value else n.end) else n
  }

  lemma {:induction false} FinishFront(labels: seq<Bytes>, end: Option<nat>, one: Bytes, n: Name)
    ensures Finish(labels, end, Front(one, n)) == Finish(labels + [one], end, n)
  {
    if n.Ok? {
      assert labels + ([one] + n.labels) == (labels + [one]) + n.labels;
    }
  }

  lemma {:induction false} FinishEnd(labels: seq<Bytes>, end: Option<nat>, here: nat, n: Name)
    ensures Finish(labels, end, WithEnd(here, n)) == Finish(labels, if end.None? then Some(here) else end, n)
  {
  }

  // ----- the grammar of a compressed name -----

  /** How a name is laid out: labels, pointers to another place, a terminator. */
  datatype Layout = End | Label(text: Bytes, next: Layout) | Pointer(target: nat, next: Layout)

  /** Two bytes, the more significant one first. */
  function Word(high: int, low: int): int {
    high * 0x100 + low
  }

  /** The layout stands at `offset` of the packet; a pointer is its target with the two highest bits set. */
  predicate StandsAt(packet: Bytes, offset: nat, l: Layout)
    decreases l
  {
    && offset < |packet|
    && match l
       case End => packet[offset] == 0
       case Label(text, next) =>
         && 0 < |text| < 0xC0 && packet[offset] == |text| && offset + 1 + |text| <= |packet|
         && packet[offset + 1..offset + 1 + |text|] == text
         && StandsAt(packet, offset + 1 + |text|, next)
       case Pointer(target, next) =>
         && offset + 1 < |packet| && Word(packet[offset], packet[offset + 1]) == 0xC000 + target
         && StandsAt(packet, target, next)
  }

  function Spells(l: Layout): seq<Bytes> {
    match l
    case End => []
    case Label(text, next) => [text] + Spells(next)
    case Pointer(_, next) => Spells(next)
  }

  function Pointers(l: Layout): nat {
    match l
    case End => 0
    case Label(_, next) => Pointers(next)
    case Pointer(_, next) => 1 + Pointers(next)
  }

  /** Just past the first pointer, or past the terminator if there is none. */
  function EndsAt(offset: nat, l: Layout): nat
    decreases l
  {
    match l
    case End => offset + 1
    case Label(text, next) => EndsAt(offset + 1 + |text|, next)
    case Pointer(_, _) => offset + 2
  }

  /** A name laid out with few enough pointers is read back, with the right end. */
  lemma {:induction false} ReadsLayout(packet: Bytes, offset: nat, l: Layout, jumps: nat)
    requires StandsAt(packet, offset, l) && jumps + Pointers(l) <= 16
    ensures ReadFrom(packet, offset, jumps) == Ok(Spells(l), EndsAt(offset, l))
    decreases l
  {
    hide ReadFrom;
    ReadStep(packet, offset, jumps);
    match l
    case End =>
    case Label(text, next) => ReadsLayout(packet, offset + 1 + |text|, next, jumps);
    case Pointer(target, next) => ReadsLayout(packet, target, next, jumps + 1);
  }

  /** Whatever is read stands in the packet as such a layout. */
  lemma {:induction false} ReadHasLayout(packet: Bytes, offset: nat, jumps: nat) returns (l: Layout)
    requires jumps <= 16 && ReadFrom(packet, offset, jumps).Ok?
    ensures StandsAt(packet, offset, l) && jumps + Pointers(l) <= 16
    ensures ReadFrom(packet, offset, jumps) == Ok(Spells(l), EndsAt(offset, l))
    decreases MaxJumps - jumps, |packet| - offset
  {
    var length := packet[offset];
    if length == 0 {
      l := End;
    } else if IsPointer(length) {
      var next := ReadHasLayout(packet, Target(packet, offset), jumps + 1);
      l := Pointer(Target(packet, offset), next);
    } else {
      var next := ReadHasLayout(packet, offset + 1 + length, jumps);
      l := Label(LabelAt(packet, offset), next);
    }
  }

  /** More pointers than `read_name` follows is an error, however the name ends. */
  lemma {:induction false} TooManyPointers(packet: Bytes, offset: nat, l: Layout, jumps: nat)
    requires StandsAt(packet, offset, l) && jumps <= 16 < jumps + Pointers(l)
    ensures ReadFrom(packet, offset, jumps) == PointsAtItself
    decreases l
  {
    hide ReadFrom, LabelAt;
    ReadStep(packet, offset, jumps);
    match l
    case End =>
    case Label(text, next) => TooManyPointers(packet, offset + 1 + |text|, next, jumps);
    case Pointer(target, next) =>
      if jumps < MaxJumps {
        TooManyPointers(packet, target, next, jumps + 1);
      }
  }

  /** A pointer that leads back to itself is reported, not followed forever. */
  lemma {:induction false} SelfPointer(packet: Bytes, offset: nat, jumps: nat)
    requires offset + 1 < |packet| && Word(packet[offset], packet[offset + 1]) == 0xC000 + offset
    requires jumps <= 16
    ensures ReadFrom(packet, offset, jumps) == PointsAtItself
    decreases MaxJumps - jumps
  {
    if jumps < MaxJumps {
      SelfPointer(packet, offset, jumps + 1);
    }
  }

  // ----- writing -----

  predicate Fits(labels: seq<Bytes>) {
    forall i :: 0 <= i < |labels| ==> |labels[i]| < 256
  }

  function EncodeLabels(labels: seq<Bytes>): Bytes
    requires Fits(labels)
  {
    if labels == [] then [0] else [|labels[0]|] + labels[0] + EncodeLabels(labels[1..])
  }

  function LayoutOf(labels: seq<Bytes>): Layout {
    if labels == [] then End else Label(labels[0], LayoutOf(labels[1..]))
  }

  lemma {:induction false} LayoutSpells(labels: seq<Bytes>)
    ensures Spells(LayoutOf(labels)) == labels && Pointers(LayoutOf(labels)) == 0
    decreases |labels|
  {
    if labels != [] {
      LayoutSpells(labels[1..]);
    }
  }

  /** The labels a name can carry without being taken for a terminator or a pointer. */
  predicate Readable(labels: seq<Bytes>) {
    forall i :: 0 <= i < |labels| ==> 0 < |labels[i]| < 0xC0
  }

  lemma {:induction false} EncodedStands(before: Bytes, labels: seq<Bytes>, after: Bytes)
    requires Readable(labels)
    ensures StandsAt(before + EncodeLabels(labels) + after, |before|, LayoutOf(labels))
    ensures EndsAt(|before|, LayoutOf(labels)) == |before| + |EncodeLabels(labels)|
    decreases |labels|
  {
    var packet := before + EncodeLabels(labels) + after;
    if labels != [] {
      var l, rest := labels[0], labels[1..];
      var head := before + ([|l|] + l);
      EncodedStands(head, rest, after);
      assert packet == head + EncodeLabels(rest) + after by {
        Assoc(before, [|l|] + l, EncodeLabels(rest));
      }
      assert packet[|before|] == |l| && packet[|before| + 1..|before| + 1 + |l|] == l;
    }
  }

  lemma {:induction false} SpellsReadable(packet: Bytes, offset: nat, l: Layout)
    requires StandsAt(packet, offset, l)
    ensures Readable(Spells(l))
    decreases l
  {
    match l
    case End =>
    case Label(text, next) => SpellsReadable(packet, offset + 1 + |text|, next);
    case Pointer(target, next) => SpellsReadable(packet, target, next);
  }

  /**
    * An encoded name, wherever it stands, is read back with its own end exactly when every label
    * has 1 to 191 bytes; that covers all the labels of RFC 1035, which have at most 63.
    */
  lemma EncodedRoundTripIff(before: Bytes, labels: seq<Bytes>, after: Bytes)
    requires Fits(labels)
    ensures
      var r := ReadFrom(before + EncodeLabels(labels) + after, |before|, 0);
      r == Ok(labels, |before| + |EncodeLabels(labels)|) <==> Readable(labels)
  {
    var packet := before + EncodeLabels(labels) + after;
    if Readable(labels) {
      EncodedStands(before, labels, after);
      LayoutSpells(labels);
      ReadsLayout(packet, |before|, LayoutOf(labels), 0);
    }
    if ReadFrom(packet, |before|, 0).Ok? {
      var l := ReadHasLayout(packet, |before|, 0);
      SpellsReadable(packet, |before|, l);
    }
  }

  // ----- names as text -----

  /** `name.rstrip(".")`. */
  function StripDots(name: string): (r: string)
    ensures r <= name && (r != "" ==> r[|r| - 1] != '.')
  {
    if name == "" || name[|name| - 1] != '.' then name else StripDots(name[..|name| - 1])
  }

  predicate IsAscii(s: string) {
    forall i :: 0 <= i < |s| ==> s[i] as int < 128
  }

  /** The UTF-8 bytes of one character (section 3 of RFC 3629). */
  function CharBytes(c: char): (b: Bytes)
    ensures 1 <= |b| <= 4 && (|b| == 1 <==> c as int < 128)
  {
    var n := c as int;
    if n < 0x80 then [n]
    else if n < 0x800 then [0xC0 + n / 0x40, 0x80 + n % 0x40]
    else if n < 0x10000 then [0xE0 + n / 0x1000, 0x80 + n / 0x40 % 0x40, 0x80 + n % 0x40]
    else [0xF0 + n / 0x40000, 0x80 + n / 0x1000 % 0x40, 0x80 + n / 0x40 % 0x40, 0x80 + n % 0x40]
  }

  /** The code point that a UTF-8 sequence stands for, by its first byte (section 3 of RFC 3629). */
  function CodePoint(b: Bytes): int
    requires b != []
  {
    var first: int := b[0];
    if |b| == 1 then first
    else if |b| == 2 then (first - 0xC0) * 0x40 + Continued(b, 1)
    else if |b| == 3 then (first - 0xE0) * 0x1000 + Continued(b, 1) * 0x40 + Continued(b, 2)
    else if |b| == 4 then (first - 0xF0) * 0x40000 + Continued(b, 1) * 0x1000 + Continued(b, 2) * 0x40 + Continued(b, 3)
    else -1
  }

  function Continued(b: Bytes, k: nat): int
    requires k < |b|
  {
    var next: int := b[k];
    next - 0x80
  }

  /** A character is written as the shortest sequence of its code point. */
  lemma CharDecodes(c: char)
    ensures
      var b, n := CharBytes(c), c as int;
      && CodePoint(b) == n
      && |b| == (if n < 0x80 then 1 else if n < 0x800 then 2 else if n < 0x10000 then 3 else 4)
      && forall k :: 0 < k < |b| ==> 0x80 <= b[k] < 0xC0
  {
    Digits64(c as int);
  }

  /** The digits of a number to base 64. */
  lemma Digits64(n: nat)
    ensures n == n / 0x40 * 0x40 + n % 0x40
    ensures n / 0x40 == n / 0x1000 * 0x40 + n / 0x40 % 0x40
    ensures n / 0x1000 == n / 0x40000 * 0x40 + n / 0x1000 % 0x40
  {
  }

  /** `label.encode("utf-8")`. */
  function Utf8(s: string): (b: Bytes) {
    if s == "" then [] else CharBytes(s[0]) + Utf8(s[1..])
  }

  /** Only an ASCII text has as many bytes as characters. */
  lemma {:induction false} Utf8Size(s: string)
    ensures |Utf8(s)| >= |s| && (|Utf8(s)| == |s| <==> IsAscii(s))
    decreases |s|
  {
    hide CharBytes;
    if s != "" {
      Utf8Size(s[1..]);
      assert s == [s[0]] + s[1..];
    }
  }

  /** `decode("utf-8")` of ASCII bytes. */
  function ToText(b: Bytes): (s: string)
    requires forall i :: 0 <= i < |b| ==> b[i] < 128
    ensures |s| == |b|
  {
    seq(|b|, i requires 0 <= i < |b| => b[i] as char)
  }

  lemma {:induction false} AsciiBack(s: string)
    requires IsAscii(s)
    ensures (forall i :: 0 <= i < |Utf8(s)| ==> Utf8(s)[i] < 128) && ToText(Utf8(s)) == s
    decreases |s|
  {
    if s != "" {
      AsciiBack(s[1..]);
      var b := Utf8(s);
      assert b == [s[0] as int] + Utf8(s[1..]);
      assert ToText(b)[1..] == ToText(Utf8(s[1..])) == s[1..];
      assert ToText(b) == [s[0]] + s[1..];
    }
  }

  function AllBytes(parts: seq<string>): (r: seq<Bytes>)
    ensures |r| == |parts|
  {
    seq(|parts|, i requires 0 <= i < |parts| => Utf8(parts[i]))
  }

  /** Every label has a length that fits in a byte. */
  predicate Countable(parts: seq<string>) {
    forall i :: 0 <= i < |parts| ==> |parts[i]| < 256
  }

  /** The length written before a label counts its characters, not its bytes. */
  function EncodeParts(parts: seq<string>): (r: Bytes)
    requires Countable(parts)
    ensures r != []
  {
    if parts == [] then [0] else [|parts[0]|] + Utf8(parts[0]) + EncodeParts(parts[1..])
  }

  /** `encode_name`; `None` is the ValueError of a length above 255. */
  method EncodeName(name: string) returns (r: Option<Bytes>)
    ensures
      var parts := SplitOn(StripDots(name), '.');
      r == if Countable(parts) then Some(EncodeParts(parts)) else None
  {
    hide EncodeParts, SplitOn, StripDots, Utf8;
    var parts := SplitOn(StripDots(name), '.');
    var out: Bytes, i := [], 0;
    assert parts[0..] == parts;
    while i < |parts|
      invariant 0 <= i <= |parts|
      invariant forall k :: 0 <= k < i ==> |parts[k]| < 256
      invariant Countable(parts) ==> out + EncodeParts(parts[i..]) == EncodeParts(parts)
    {
      var part := parts[i];
      if |part| > 255 {
        return None;
      }
      if Countable(parts) {
        EncodeStep(parts, i, out);
      }
      out := out + ([|part|] + Utf8(part));
      i := i + 1;
    }
    assert parts[i..] == [];
    EncodeNothing();
    return Some(out + [0]);
  }

  lemma EncodeNothing()
    ensures EncodeParts([]) == [0]
  {
  }

  lemma {:induction false} EncodeStep(parts: seq<string>, i: nat, out: Bytes)
    requires Countable(parts) && i < |parts|
    ensures out + EncodeParts(parts[i..]) == (out + ([|parts[i]|] + Utf8(parts[i]))) + EncodeParts(parts[i + 1..])
  {
    hide Utf8;
    assert parts[i..][0] == parts[i] && parts[i..][1..] == parts[i + 1..];
    var h, t := [|parts[i]|] + Utf8(parts[i]), EncodeParts(parts[i + 1..]);
    assert EncodeParts(parts[i..]) == h + t;
    Assoc(out, h, t);
  }

  /** The name of these labels, with any number of dots behind it, is taken apart into them. */
  lemma {:induction false} NameSplits(parts: seq<string>, dots: string)
    requires parts != [] && parts[|parts| - 1] != "" && forall i :: 0 <= i < |parts| ==> '.' !in parts[i]
    requires forall k :: 0 <= k < |dots| ==> dots[k] == '.'
    ensures SplitOn(StripDots(JoinWith(parts, '.') + dots), '.') == parts
  {
    hide SplitOn, StripDots, JoinWith;
    JoinedEnd(parts);
    DotsOff(JoinWith(parts, '.'), dots);
    SplitJoined(parts, '.');
  }

  lemma {:induction false} DotsOff(name: string, dots: string)
    requires name != "" && name[|name| - 1] != '.' && forall k :: 0 <= k < |dots| ==> dots[k] == '.'
    ensures StripDots(name + dots) == name
    decreases |dots|
  {
    if dots == "" {
      assert name + dots == name;
    } else {
      var n, s := |dots| - 1, name + dots;
      assert s[..|s| - 1] == name + dots[..n] && s[|s| - 1] == dots[n];
      DotsOff(name, dots[..n]);
    }
  }

  lemma {:induction false} JoinedEnd(parts: seq<string>)
    requires parts != [] && parts[|parts| - 1] != "" && forall i :: 0 <= i < |parts| ==> '.' !in parts[i]
    ensures JoinWith(parts, '.') != "" && JoinWith(parts, '.')[|JoinWith(parts, '.')| - 1] != '.'
    decreases |parts|
  {
    if |parts| > 1 {
      JoinedEnd(parts[1..]);
    }
  }

  // ----- which names come back -----

  /** Every label has 1 to 191 characters, all of them ASCII. */
  predicate Faithful(parts: seq<string>) {
    forall i :: 0 <= i < |parts| ==> IsAscii(parts[i]) && 0 < |parts[i]| < 0xC0
  }

  lemma {:induction false} AsciiParts(parts: seq<string>)
    requires Countable(parts) && forall i :: 0 <= i < |parts| ==> IsAscii(parts[i])
    ensures Fits(AllBytes(parts)) && EncodeParts(parts) == EncodeLabels(AllBytes(parts))
    ensures Faithful(parts) <==> Readable(AllBytes(parts))
    decreases |parts|
  {
    hide Utf8, IsAscii;
    forall i | 0 <= i < |parts|
      ensures |AllBytes(parts)[i]| == |parts[i]|
    {
      Utf8Size(parts[i]);
    }
    if parts != [] {
      assert AllBytes(parts)[1..] == AllBytes(parts[1..]);
      AsciiParts(parts[1..]);
    }
  }

  /** A name that comes back, byte for byte and with its own end, has only such labels. */
  lemma {:induction false} BackIsFaithful(before: Bytes, parts: seq<string>, after: Bytes)
    requires Countable(parts)
    requires ReadFrom(before + EncodeParts(parts) + after, |before|, 0)
          == Ok(AllBytes(parts), |before| + |EncodeParts(parts)|)
    ensures Faithful(parts)
    decreases |parts|
  {
    hide ReadFrom, Utf8, IsAscii, Target;
    var packet := before + EncodeParts(parts) + after;
    if parts != [] {
      var l, rest := parts[0], parts[1..];
      var b := Utf8(l);
      var head := before + ([|l|] + b);
      Utf8Size(l);
      PartOff(before, |l|, b, EncodeParts(rest), after);
      ReadStep(packet, |before|, 0);
      assert AllBytes(parts) == [b] + AllBytes(rest);
      assert 0 < |l| < 0xC0;
      FrontIs(LabelAt(packet, |before|), ReadFrom(packet, |before| + 1 + |l|, 0), b, AllBytes(rest));
      assert |b| == |l|;
      BackIsFaithful(head, rest, after);
    }
  }

  lemma FrontIs(one: Bytes, n: Name, first: Bytes, rest: seq<Bytes>)
    requires Front(one, n).Ok? && Front(one, n).labels == [first] + rest
    ensures one == first && n == Ok(rest, Front(one, n).end)
  {
    var labels := Front(one, n).labels;
    assert labels[0] == one && labels[0] == first;
    assert labels[1..] == n.labels && labels[1..] == rest;
  }

  lemma {:induction false} PartOff(before: Bytes, n: Byte, b: Bytes, more: Bytes, after: Bytes)
    ensures before + ([n] + b + more) + after == (before + ([n] + b)) + more + after
    ensures (before + ([n] + b + more) + after)[|before|] == n
  {
    Assoc(before, [n] + b, more);
  }

  /**
    * Exactly the names whose labels are 1 to 191 ASCII characters are read back as the bytes of
    * their labels, with their own end, wherever they stand.
    */
  lemma {:induction false} NameBytesBackIff(before: Bytes, name: string, after: Bytes)
    requires Countable(SplitOn(StripDots(name), '.'))
    ensures
      var parts := SplitOn(StripDots(name), '.');
      var r := ReadFrom(before + EncodeParts(parts) + after, |before|, 0);
      r == Ok(AllBytes(parts), |before| + |EncodeParts(parts)|) <==> Faithful(parts)
  {
    hide ReadFrom, EncodeParts, EncodeLabels, SplitOn, StripDots, AllBytes;
    var parts := SplitOn(StripDots(name), '.');
    if Faithful(parts) {
      AsciiParts(parts);
      EncodedRoundTripIff(before, AllBytes(parts), after);
    }
    if ReadFrom(before + EncodeParts(parts) + after, |before|, 0)
         == Ok(AllBytes(parts), |before| + |EncodeParts(parts)|) {
      BackIsFaithful(before, parts, after);
    }
  }

  /** A label that cannot be read makes the reader stop, or jump away, before the end of the name. */
  lemma {:induction false} EndsEarly(before: Bytes, labels: seq<Bytes>, after: Bytes)
    requires Fits(labels) && !Readable(labels)
    ensures
      var r := ReadFrom(before + EncodeLabels(labels) + after, |before|, 0);
      r.Ok? ==> r.end < |before| + |EncodeLabels(labels)|
    decreases |labels|
  {
    hide ReadFrom, Target;
    var packet := before + EncodeLabels(labels) + after;
    var l, rest := labels[0], labels[1..];
    var head := before + ([|l|] + l);
    PartOff(before, |l|, l, EncodeLabels(rest), after);
    ReadStep(packet, |before|, 0);
    assert |EncodeLabels(rest)| >= 1;
    if 0 < |l| < 0xC0 {
      assert !Readable(rest);
      EndsEarly(head, rest, after);
    }
  }

  /** `".".join(labels)` once each label is decoded. */
  function TextOfLabels(labels: seq<Bytes>): string
    requires forall k :: 0 <= k < |labels| ==> forall i :: 0 <= i < |labels[k]| ==> labels[k][i] < 128
  {
    JoinWith(seq(|labels|, k requires 0 <= k < |labels| => ToText(labels[k])), '.')
  }

  /**
    * An ASCII name is read with its own end exactly when its labels have 1 to 191 characters, and
    * then its text is the name without the dots at its end.
    */
  lemma {:induction false} NameRoundTripIff(before: Bytes, name: string, after: Bytes)
    requires IsAscii(name) && Countable(SplitOn(StripDots(name), '.'))
    ensures
      var parts := SplitOn(StripDots(name), '.');
      var r := ReadFrom(before + EncodeParts(parts) + after, |before|, 0);
      && (r.Ok? && r.end == |before| + |EncodeParts(parts)| <==> Faithful(parts))
      && (Faithful(parts) ==>
           && r.labels == AllBytes(parts)
           && (forall k :: 0 <= k < |r.labels| ==> forall i :: 0 <= i < |r.labels[k]| ==> r.labels[k][i] < 128)
           && TextOfLabels(r.labels) == StripDots(name))
  {
    hide ReadFrom, EncodeParts, EncodeLabels, SplitOn, StripDots, JoinWith, IsAscii, Utf8, Readable;
    var plain := StripDots(name);
    var parts := SplitOn(plain, '.');
    StripAscii(name);
    SplitAscii(plain);
    var labels := AllBytes(parts);
    AsciiParts(parts);
    EncodedRoundTripIff(before, labels, after);
    if !Readable(labels) {
      EndsEarly(before, labels, after);
    }
    forall k | 0 <= k < |parts|
      ensures (forall i :: 0 <= i < |labels[k]| ==> labels[k][i] < 128) && ToText(labels[k]) == parts[k]
    {
      AsciiBack(parts[k]);
    }
    assert seq(|labels|, k requires 0 <= k < |labels| => ToText(labels[k])) == parts;
    JoinSplit(plain, '.');
  }

  lemma StripAscii(name: string)
    requires IsAscii(name)
    ensures IsAscii(StripDots(name))
  {
    assert forall i :: 0 <= i < |StripDots(name)| ==> StripDots(name)[i] == name[i];
  }

  lemma {:induction false} SplitAscii(name: string)
    requires IsAscii(name)
    ensures forall i :: 0 <= i < |SplitOn(name, '.')| ==> IsAscii(SplitOn(name, '.')[i])
    decreases |name|
  {
    if name != "" {
      SplitAscii(name[1..]);
    }
  }

  /** The empty name is one empty label, which ends the name before its terminator. */
  lemma EmptyNameLost()
    ensures SplitOn(StripDots(""), '.') == [""] && EncodeParts([""]) == [0, 0]
    ensures ReadFrom([0, 0], 0, 0) == Ok([], 1)
  {
    var parts: seq<string> := [""];
    assert parts[1..] == [];
  }

  /** The length of a label with an accent is too small by one, and the reader leaves the packet. */
  lemma AccentLost()
    ensures SplitOn(StripDots("\U{E9}"), '.') == ["\U{E9}"] && EncodeParts(["\U{E9}"]) == [1, 0xC3, 0xA9, 0]
    ensures ReadFrom([1, 0xC3, 0xA9, 0], 0, 0) == PastEnd
  {
    var e := "\U{E9}";
    var parts: seq<string> := [e];
    assert e[1..] == "" && parts[1..] == [];
    assert Utf8(e) == [0xC3, 0xA9] + Utf8("");
    assert SplitOn("", '.') == [""] && [e[0]] + "" == e;
  }
}
