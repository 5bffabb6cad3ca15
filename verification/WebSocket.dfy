/** The WebSocket frames of isolation-drill.py (sections 5.2 to 5.5 of RFC 6455). */
module WebSocket {
  import opened Text
  import opened ByteStrings

  // ----- masking -----

  /** Exclusive or of the `n` lowest bits. */
  function Xor(a: nat, b: nat, n: nat): (r: nat)
    ensures r < Pow2(n)
  {
    if n == 0 then 0 else (a % 2 + b % 2) % 2 + 2 * Xor(a / 2, b / 2, n - 1)
  }

  function Pow2(n: nat): (r: nat)
    ensures r > 0
  {
    if n == 0 then 1 else 2 * Pow2(n - 1)
  }

  lemma XorSplits(a: nat, b: nat, n: nat)
    requires n > 0
    ensures Xor(a, b, n) % 2 == (a % 2 + b % 2) % 2 && Xor(a, b, n) / 2 == Xor(a / 2, b / 2, n - 1)
  {
  }

  lemma BitTwice(a: nat, b: nat)
    ensures ((a % 2 + b % 2) % 2 + b % 2) % 2 == a % 2
  {
  }

  lemma {:induction false} XorTwice(a: nat, b: nat, n: nat)
    requires a < Pow2(n)
    ensures Xor(Xor(a, b, n), b, n) == a
    decreases n
  {
    if n > 0 {
      XorTwice(a / 2, b / 2, n - 1);
      XorSplits(a, b, n);
      BitTwice(a, b);
    }
  }

  function XorByte(a: Byte, b: Byte): Byte {
    assert Pow2(8) == 256 by { PowerIs(); }
    Xor(a, b, 8)
  }

  lemma PowerIs()
    ensures Pow2(8) == 256
  {
    assert Pow2(4) == 16;
    assert Pow2(8) == 2 * (2 * (2 * (2 * Pow2(4))));
  }

  type Mask = m: Bytes | |m| == 4 witness [0, 0, 0, 0]

  /** `bytes(byte ^ mask[index % 4] for index, byte in enumerate(data))`. */
  function Masked(data: Bytes, mask: Mask): (r: Bytes)
    ensures |r| == |data|
  {
    seq(|data|, i requires 0 <= i < |data| => XorByte(data[i], mask[i % 4]))
  }

  lemma MaskTwice(data: Bytes, mask: Mask)
    ensures Masked(Masked(data, mask), mask) == data
  {
    forall i | 0 <= i < |data|
      ensures Masked(Masked(data, mask), mask)[i] == data[i]
    {
      PowerIs();
      XorTwice(data[i], mask[i % 4], 8);
    }
  }

  // ----- lengths -----

  /** `struct.pack` of an unsigned integer, most significant byte first. */
  function Pack(v: nat, width: nat): (r: Bytes)
    ensures |r| == width
  {
    if width == 0 then [] else Pack(v / 256, width - 1) + [v % 256]
  }

  function Unpack(s: Bytes): nat {
    if s == [] then 0 else Unpack(s[..|s| - 1]) * 256 + s[|s| - 1]
  }

  function Pow256(n: nat): nat {
    if n == 0 then 1 else 256 * Pow256(n - 1)
  }

  lemma {:induction false} UnpackPack(v: nat, width: nat)
    requires v < Pow256(width)
    ensures Unpack(Pack(v, width)) == v
    decreases width
  {
    if width > 0 {
      var p := Pack(v, width);
      assert p[..width - 1] == Pack(v / 256, width - 1);
      UnpackPack(v / 256, width - 1);
    }
  }

  lemma {:induction false} UnpackBound(s: Bytes)
    ensures Unpack(s) < Pow256(|s|)
    decreases |s|
  {
    if s != [] {
      UnpackBound(s[..|s| - 1]);
    }
  }

  const MaxSize := 0x1_0000_0000_0000_0000

  lemma SizesAre()
    ensures Pow256(2) == 65536 && Pow256(8) == MaxSize
  {
    assert Pow256(1) == 256 && Pow256(2) == 65536;
    assert Pow256(4) == 256 * (256 * Pow256(2));
    assert Pow256(6) == 256 * (256 * Pow256(4));
    assert Pow256(8) == 256 * (256 * Pow256(6));
  }

  // ----- writing a frame -----

  type Opcode = o: int | 0 <= o < 16

  /** A frame as it is built; an absent mask is a frame from the server. */
  datatype Frame = Frame(final: bool, opcode: Opcode, mask: Option<Mask>, payload: Bytes)

  function LengthBytes(masked: bool, size: nat): Bytes {
    var bit := if masked then 128 else 0;
    if size < 126 then [bit + size]
    else if size < 65536 then [bit + 126] + Pack(size, 2)
    else [bit + 127] + Pack(size, 8)
  }

  /** The bytes of a frame; `None` is the `struct.error` of a size that does not fit in 64 bits. */
  function Encode(f: Frame): Option<Bytes> {
    if |f.payload| >= MaxSize then None
    else
      var head: Bytes := [(if f.final then 128 else 0) + f.opcode];
      var mask := if f.mask.Some? then f.mask.value else [];
      var body := if f.mask.Some? then Masked(f.payload, f.mask.value) else f.payload;
      Some(head + LengthBytes(f.mask.Some?, |f.payload|) + mask + body)
  }

  // ----- reading frames -----

  datatype Outcome = Got(opcode: Opcode, message: Bytes) | Nothing | TypeError

  /** What one `receive` answers, what it leaves unread, and the payloads of the pings it answered. */
  datatype Answer = Answer(outcome: Outcome, rest: Bytes, pings: seq<Bytes>)

  /** The header of a frame once its first two bytes are known. */
  datatype Head = Head(final: bool, opcode: Opcode, masked: bool, size: nat)

  function HeadOf(a: Byte, b: Byte): Head {
    Head(a >= 128, a % 16, b >= 128, b % 128)
  }

  /** The width of the extended length field. */
  function Extended(size: nat): nat {
    if size == 126 then 2 else if size == 127 then 8 else 0
  }

  /** One frame read from the stream, or why there is none. */
  datatype Read = Read(head: Head, payload: Bytes, rest: Bytes) | Short(rest: Bytes) | BadMask(rest: Bytes)

  /** The part of the loop body of `receive` that reads one frame. */
  function ReadFrame(s: Bytes): (r: Read)
    ensures |r.rest| <= |s| && (r.Read? ==> |r.rest| < |s|)
  {
    if |s| < 2 then Short(s)
    else
      var h, s1 := HeadOf(s[0], s[1]), s[2..];
      var width := Extended(h.size);
      if |s1| < width then Short(s1)
      else
        var size := if width == 0 then h.size else Unpack(s1[..width]);
        ReadBody(h.(size := size), s1[width..])
  }

  /** The mask and the payload. A mask that does not arrive is only noticed when a byte needs it. */
  function ReadBody(h: Head, s: Bytes): (r: Read)
    ensures |r.rest| <= |s|
  {
    var missing := h.masked && |s| < 4;
    var s' := if h.masked && !missing then s[4..] else s;
    if |s'| < h.size then Short(s')
    else if !h.masked then Read(h, s'[..h.size], s'[h.size..])
    else if !missing then Read(h, Masked(s'[..h.size], s[..4]), s'[h.size..])
    else if h.size > 0 then BadMask(s'[h.size..])
    else Read(h, [], s')
  }

  function AddPing(payload: Bytes, a: Answer): Answer {
    a.(pings := [payload] + a.pings)
  }

  /** `receive`, as a function of the bytes that arrive. */
  function Receive(s: Bytes, message: Bytes): (a: Answer)
    ensures |a.rest| <= |s|
    decreases |s|
  {
    match ReadFrame(s)
    case Short(rest) => Answer(Nothing, rest, [])
    case BadMask(rest) => Answer(TypeError, rest, [])
    case Read(h, payload, rest) =>
      if h.opcode == 8 then Answer(Nothing, rest, [])
      else if h.opcode == 9 then AddPing(payload, Receive(rest, message))
      else if h.opcode == 10 then Receive(rest, message)
      else if h.final then Answer(Got(h.opcode, message + payload), rest, [])
      else Receive(rest, message + payload)
  }

  // ----- round trips -----

  lemma HeadRead(f: Frame, b: Byte)
    ensures HeadOf((if f.final then 128 else 0) + f.opcode, b).final == f.final
    ensures HeadOf((if f.final then 128 else 0) + f.opcode, b).opcode == f.opcode
  {
  }

  lemma LengthRead(masked: bool, n: nat)
    requires n < MaxSize
    ensures
      var b := LengthBytes(masked, n);
      var short := b[0] % 128;
      && b != [] && (b[0] >= 128 <==> masked) && Extended(short) == |b| - 1
      && (if |b| == 1 then short == n else Unpack(b[1..]) == n)
  {
    SizesAre();
    var b := LengthBytes(masked, n);
    if 126 <= n < 65536 {
      UnpackPack(n, 2);
      assert b[1..] == Pack(n, 2);
    } else if n >= 65536 {
      UnpackPack(n, 8);
      assert b[1..] == Pack(n, 8);
    }
  }

  lemma {:induction false} TwoOff(first: Byte, lengths: Bytes, tail: Bytes)
    requires lengths != []
    ensures
      var s := [first] + lengths + tail;
      s[0] == first && s[1] == lengths[0] && s[2..] == lengths[1..] + tail
  {
  }

  function HeadFor(f: Frame): Head {
    Head(f.final, f.opcode, f.mask.Some?, |f.payload|)
  }

  /** The first byte of a frame and its length bytes. */
  function Header(f: Frame): Bytes {
    [(if f.final then 128 else 0) + f.opcode] + LengthBytes(f.mask.Some?, |f.payload|)
  }

  /** The mask and the payload as they are written. */
  function Body(f: Frame): Bytes {
    if f.mask.Some? then f.mask.value + Masked(f.payload, f.mask.value) else f.payload
  }

  lemma EncodeParts(f: Frame)
    requires Encode(f).Some?
    ensures |Header(f)| >= 2 && Encode(f).value == Header(f) + Body(f)
    ensures |Body(f)| == (if f.mask.Some? then 4 else 0) + |f.payload|
  {
    hide Masked, Pack;
  }

  /** The binary digit of weight 2 to the power `k`. */
  function Bit(x: nat, k: nat): nat {
    if k == 0 then x % 2 else Bit(x / 2, k - 1)
  }

  lemma {:induction false} XorBit(a: nat, b: nat, n: nat, k: nat)
    requires k < n
    ensures Bit(Xor(a, b, n), k) == (Bit(a, k) + Bit(b, k)) % 2
    decreases k
  {
    XorSplits(a, b, n);
    if k > 0 {
      XorBit(a / 2, b / 2, n - 1, k - 1);
    }
  }

  /** Two bytes, the more significant one first. */
  ghost function Word(high: int, low: int): int {
    high * 0x100 + low
  }

  /** The length as the wire has it: in the second byte, or big-endian in the two or eight bytes behind it. */
  ghost predicate LengthAt(w: Bytes, masked: bool, n: nat, h: nat) {
    var bit := if masked then 0x80 else 0;
    if n < 126 then h == 2 <= |w| && w[1] == bit + n
    else if n < 0x10000 then h == 4 <= |w| && w[1] == bit + 126 && Word(w[2], w[3]) == n
    else
      && h == 10 <= |w| && w[1] == bit + 127
      && ((Word(w[2], w[3]) * 0x10000 + Word(w[4], w[5])) * 0x10000 + Word(w[6], w[7])) * 0x10000 + Word(w[8], w[9]) == n
  }

  /** The bytes on the wire: flags and opcode, length, mask, and every payload byte xored with its mask byte. */
  lemma {:induction false} WireBytes(f: Frame) returns (h: nat)
    requires Encode(f).Some?
    ensures
      var w, m := Encode(f).value, if f.mask.Some? then 4 else 0;
      && |w| == h + m + |f.payload| && h >= 2
      && w[0] == (if f.final then 0x80 else 0) + f.opcode
      && LengthAt(w, f.mask.Some?, |f.payload|, h)
      && (f.mask.None? ==> w[h..] == f.payload)
      && (f.mask.Some? ==>
            && w[h..h + 4] == f.mask.value
            && forall i, k: nat :: 0 <= i < |f.payload| && k < 8 ==>
                 Bit(w[h + 4 + i], k) == (Bit(f.payload[i], k) + Bit(f.mask.value[i % 4], k)) % 2)
  {
    hide Encode, LengthAt, Bit, LengthBytes, XorByte;
    assert |f.payload| < MaxSize by { Fits(f); }
    EncodeParts(f);
    var w, head, body := Encode(f).value, Header(f), Body(f);
    h := |head|;
    HeaderWire(f, body);
    assert w[h..] == body;
    if f.mask.Some? {
      var mask := f.mask.value;
      assert w[h..h + 4] == body[..4] == mask;
      forall i, k: nat | 0 <= i < |f.payload| && k < 8
        ensures Bit(w[h + 4 + i], k) == (Bit(f.payload[i], k) + Bit(mask[i % 4], k)) % 2
      {
        assert w[h + 4 + i] == body[4 + i] == XorByte(f.payload[i], mask[i % 4]);
        ByteBit(f.payload[i], mask[i % 4], k);
      }
    }
  }

  lemma Fits(f: Frame)
    ensures Encode(f).Some? <==> |f.payload| < MaxSize
  {
  }

  lemma ByteBit(a: Byte, b: Byte, k: nat)
    requires k < 8
    ensures Bit(XorByte(a, b), k) == (Bit(a, k) + Bit(b, k)) % 2
  {
    XorBit(a, b, 8, k);
  }

  lemma {:induction false} HeaderWire(f: Frame, body: Bytes)
    requires |f.payload| < MaxSize
    ensures LengthAt(Header(f) + body, f.mask.Some?, |f.payload|, |Header(f)|)
  {
    hide Unpack, Pack;
    var w, n := Header(f) + body, |f.payload|;
    SizesAre();
    if 126 <= n < 65536 {
      var p := Pack(n, 2);
      UnpackPack(n, 2);
      UnpackTwo(p);
      assert w[2] == p[0] && w[3] == p[1];
    } else if n >= 65536 {
      var p := Pack(n, 8);
      UnpackPack(n, 8);
      UnpackEight(p);
      assert forall k :: 0 <= k < 8 ==> w[2 + k] == p[k];
      assert w[2] == p[0] && w[3] == p[1] && w[4] == p[2] && w[5] == p[3];
      assert w[6] == p[4] && w[7] == p[5] && w[8] == p[6] && w[9] == p[7];
    }
  }

  lemma {:induction false} UnpackSnoc(s: Bytes)
    requires s != []
    ensures Unpack(s) == Unpack(s[..|s| - 1]) * 256 + s[|s| - 1]
  {
  }

  lemma {:induction false} UnpackTwo(s: Bytes)
    requires |s| >= 2
    ensures Unpack(s) == Unpack(s[..|s| - 2]) * 0x10000 + Word(s[|s| - 2], s[|s| - 1])
    ensures |s| == 2 ==> Unpack(s) == Word(s[0], s[1])
  {
    var t := s[..|s| - 1];
    UnpackSnoc(s);
    UnpackSnoc(t);
    assert t[..|t| - 1] == s[..|s| - 2];
  }

  lemma {:induction false} UnpackEight(p: Bytes)
    requires |p| == 8
    ensures
      Unpack(p) ==
      ((Word(p[0], p[1]) * 0x10000 + Word(p[2], p[3])) * 0x10000 + Word(p[4], p[5])) * 0x10000 + Word(p[6], p[7])
  {
    hide Unpack, Word;
    UnpackTwo(p);
    UnpackTwo(p[..6]);
    UnpackTwo(p[..4]);
    UnpackTwo(p[..2]);
    assert p[..6][..4] == p[..4] && p[..4][..2] == p[..2];
  }

  /** Once the header has arrived, the rest is read as mask and payload. */
  lemma {:induction false} HeaderRead(f: Frame, tail: Bytes)
    requires Encode(f).Some?
    ensures ReadFrame(Header(f) + tail) == ReadBody(HeadFor(f), tail)
  {
    hide Masked, ReadBody, Unpack, Pack, LengthBytes;
    var first: Byte := (if f.final then 128 else 0) + f.opcode;
    var lengths := LengthBytes(f.mask.Some?, |f.payload|);
    var s := Header(f) + tail;
    LengthRead(f.mask.Some?, |f.payload|);
    TwoOff(first, lengths, tail);
    HeadRead(f, lengths[0]);
    var width, s1 := |lengths| - 1, s[2..];
    assert s1[..width] == lengths[1..] && s1[width..] == tail;
  }

  /** Before that, nothing is read. */
  lemma {:induction false} HeaderCut(f: Frame, k: nat)
    requires Encode(f).Some? && k < |Header(f)|
    ensures ReadFrame(Header(f)[..k]).Short?
  {
    hide ReadBody, Unpack, Pack, LengthBytes;
    LengthRead(f.mask.Some?, |f.payload|);
  }

  /** Whatever follows, a frame that was written is read back. */
  lemma {:induction false} ReadsEncoded(f: Frame, rest: Bytes)
    requires Encode(f).Some?
    ensures ReadFrame(Encode(f).value + rest) == Read(HeadFor(f), f.payload, rest)
  {
    hide Masked, ReadFrame, ReadBody, Header, Encode;
    EncodeParts(f);
    Assoc(Header(f), Body(f), rest);
    HeaderRead(f, Body(f) + rest);
    BodyRead(f, rest);
  }

  lemma BodyRead(f: Frame, rest: Bytes)
    ensures ReadBody(HeadFor(f), Body(f) + rest) == Read(HeadFor(f), f.payload, rest)
  {
    hide XorByte;
    var s := Body(f) + rest;
    if f.mask.Some? {
      var mask, body := f.mask.value, Masked(f.payload, f.mask.value);
      assert s[..4] == mask && s[4..] == body + rest;
      MaskTwice(f.payload, mask);
      assert (body + rest)[..|body|] == body && (body + rest)[|body|..] == rest;
    } else {
      assert s[..|f.payload|] == f.payload && s[|f.payload|..] == rest;
    }
  }

  predicate IsData(opcode: Opcode) {
    opcode != 8 && opcode != 9 && opcode != 10
  }

  /** `receive` inverts `_send` for every data opcode, mask and payload below 2^64 bytes. */
  lemma ReceiveInvertsSend(opcode: Opcode, mask: Mask, data: Bytes, rest: Bytes)
    requires IsData(opcode) && |data| < MaxSize
    ensures
      var sent := Encode(Frame(true, opcode, Some(mask), data));
      sent.Some? && Receive(sent.value + rest, []) == Answer(Got(opcode, data), rest, [])
  {
    hide ReadFrame, Encode;
    var f := Frame(true, opcode, Some(mask), data);
    assert Encode(f).Some? by { Encodes(f); }
    ReadsEncoded(f, rest);
    assert [] + data == data;
  }

  lemma Encodes(f: Frame)
    ensures Encode(f).Some? <==> |f.payload| < MaxSize
  {
  }

  // ----- a stream that ends inside a frame -----

  /** A masked frame without payload, of which at least the header has arrived. */
  predicate MaskUnneeded(f: Frame, k: nat) {
    k >= |Header(f)| && f.mask.Some? && f.payload == []
  }

  /** Too few bytes for the mask have arrived, but as many as the payload has. */
  predicate MaskTaken(f: Frame, k: nat) {
    k >= |Header(f)| && f.mask.Some? && 0 < |f.payload| <= k - |Header(f)| < 4
  }

  /** Every frame, cut anywhere: exactly when it is read all the same and when masking it crashes. */
  lemma {:induction false} CutFrame(f: Frame, k: nat)
    requires Encode(f).Some? && k < |Encode(f).value|
    ensures
      var r := ReadFrame(Encode(f).value[..k]);
      && (r.Read? <==> MaskUnneeded(f, k))
      && (r.BadMask? <==> MaskTaken(f, k))
      && (r.Read? ==> r == Read(HeadFor(f), [], f.mask.value[..k - |Header(f)|]))
  {
    hide Masked, ReadFrame, ReadBody, Header, Encode;
    EncodeParts(f);
    var h, s := |Header(f)|, Encode(f).value[..k];
    if k < h {
      assert s == Header(f)[..k];
      HeaderCut(f, k);
    } else {
      var tail := Body(f)[..k - h];
      assert s == Header(f) + tail;
      HeaderRead(f, tail);
      BodyCut(f, k - h);
    }
  }

  lemma BodyCut(f: Frame, n: nat)
    requires n < (if f.mask.Some? then 4 else 0) + |f.payload|
    ensures
      var r := ReadBody(HeadFor(f), Body(f)[..n]);
      && (r.Read? <==> f.mask.Some? && f.payload == [])
      && (r.BadMask? <==> f.mask.Some? && 0 < |f.payload| <= n < 4)
      && (r.Read? ==> r == Read(HeadFor(f), [], f.mask.value[..n]))
  {
    hide Masked;
    assert f.mask.Some? && n < 4 ==> Body(f)[..n] == f.mask.value[..n];
  }

  function EncodeAll(frames: seq<Frame>): Bytes
    requires forall i :: 0 <= i < |frames| ==> Encode(frames[i]).Some?
  {
    if frames == [] then [] else Encode(frames[0]).value + EncodeAll(frames[1..])
  }

  /** A fragment or a control frame: `receive` goes on after it. */
  predicate Passing(f: Frame) {
    f.opcode == 9 || f.opcode == 10 || (IsData(f.opcode) && !f.final)
  }

  predicate AllPassing(frames: seq<Frame>) {
    forall i :: 0 <= i < |frames| ==> Encode(frames[i]).Some? && Passing(frames[i])
  }

  /** The last frame of a message. */
  predicate Closes(f: Frame) {
    Encode(f).Some? && IsData(f.opcode) && f.final
  }

  /** The payloads of the data frames, joined. */
  function Assembled(frames: seq<Frame>): Bytes {
    if frames == [] then []
    else (if IsData(frames[0].opcode) then frames[0].payload else []) + Assembled(frames[1..])
  }

  function Pings(frames: seq<Frame>): seq<Bytes> {
    if frames == [] then []
    else (if frames[0].opcode == 9 then [frames[0].payload] else []) + Pings(frames[1..])
  }

  /** Fragments and control frames leave their payloads and their pongs, and nothing else. */
  lemma {:induction false} ReceivePasses(frames: seq<Frame>, message: Bytes, tail: Bytes)
    requires AllPassing(frames)
    ensures Receive(EncodeAll(frames) + tail, message)
         == Before(Pings(frames), Receive(tail, message + Assembled(frames)))
    decreases |frames|
  {
    hide ReadFrame, Encode, Receive, Before, AddPing;
    if frames == [] {
      assert EncodeAll(frames) + tail == tail && message + Assembled(frames) == message;
      BeforeNothing(Receive(tail, message), _ => [0, 0, 0, 0], 0);
    } else {
      var f, more := frames[0], frames[1..];
      var s := EncodeAll(more) + tail;
      Assoc(Encode(f).value, EncodeAll(more), tail);
      ReadsEncoded(f, s);
      Unfolds(Encode(f).value + s, message);
      if IsData(f.opcode) {
        Assoc(message, f.payload, Assembled(more));
        ReceivePasses(more, message + f.payload, tail);
      } else {
        ReceivePasses(more, message, tail);
        assert [] + Assembled(more) == Assembled(more);
      }
      PingFirst(f, more, Receive(tail, message + Assembled(frames)));
    }
  }

  lemma {:induction false} PingFirst(f: Frame, more: seq<Frame>, a: Answer)
    ensures Before(Pings([f] + more), a)
         == if f.opcode == 9 then AddPing(f.payload, Before(Pings(more), a)) else Before(Pings(more), a)
  {
    assert ([f] + more)[1..] == more;
    assert [f.payload] + (Pings(more) + a.pings) == [f.payload] + Pings(more) + a.pings;
    assert [] + Pings(more) == Pings(more);
  }

  /**
    * A fragmented message is assembled from its data frames alone; every ping between them is
    * answered, in order; the opcode reported is that of the last frame.
    */
  lemma {:induction false} ReceiveAssembles(frames: seq<Frame>, last: Frame, message: Bytes, rest: Bytes)
    requires AllPassing(frames) && Closes(last)
    ensures Receive(EncodeAll(frames) + (Encode(last).value + rest), message)
         == Answer(Got(last.opcode, message + Assembled(frames) + last.payload), rest, Pings(frames))
  {
    hide ReadFrame, Encode, Receive, EncodeAll;
    var tail := Encode(last).value + rest;
    ReceivePasses(frames, message, tail);
    ReadsEncoded(last, rest);
    Unfolds(tail, message + Assembled(frames));
  }

  /** The first bytes of a mask, left unread, that are taken for the frame that ends the message. */
  predicate TakenForFrame(s: Bytes) {
    |s| >= 2 && s[0] >= 128 && IsData(s[0] % 16) && (s[1] % 128 == 0 || (|s| == 3 && s[1] == 1))
  }

  /** Those that are taken for a masked frame of which one payload byte, but no mask, has arrived. */
  predicate TakenForCrash(s: Bytes) {
    |s| == 3 && s[1] == 0x81
  }

  /** The frame that so few bytes hold: an empty one, or one of a single byte without a mask. */
  lemma {:induction false} ShortRead(s: Bytes)
    requires |s| < 4
    ensures
      var r := ReadFrame(s);
      && (r.Read? <==> |s| >= 2 && (s[1] % 128 == 0 || (|s| == 3 && s[1] == 1)))
      && (r.BadMask? <==> TakenForCrash(s))
      && (r.Read? ==>
            && r.head.final == (s[0] >= 128) && r.head.opcode == s[0] % 16
            && r.payload == s[2..][..s[1] % 128] && |r.rest| < 2)
  {
    hide Masked, Unpack;
  }

  /** What `receive` makes of so few bytes, whatever came before. */
  lemma {:induction false} Leftover(s: Bytes, message: Bytes)
    requires |s| < 4
    ensures
      var outcome := Receive(s, message).outcome;
      && (outcome.Got? <==> TakenForFrame(s))
      && (outcome.TypeError? <==> TakenForCrash(s))
      && (outcome.Got? ==> outcome == Got(s[0] % 16, message + s[2..][..s[1] % 128]))
  {
    hide Masked, Unpack, Receive, ReadFrame;
    ShortRead(s);
    Unfolds(s, message);
    var r := ReadFrame(s);
    if r.Read? {
      ShortRead(r.rest);
      Unfolds(r.rest, message);
      Unfolds(r.rest, message + r.payload);
    }
  }

  /**
    * A stream that ends anywhere inside any frame. Unless the frame is masked and empty and its
    * header has arrived, it crashes or answers nothing. If it is, a closing frame is answered, and
    * after a fragment or a ping or pong the bytes of the mask are read as the next frame.
    */
  lemma {:induction false} CutStream(frames: seq<Frame>, f: Frame, k: nat, message: Bytes)
    requires AllPassing(frames) && Encode(f).Some? && k < |Encode(f).value|
    ensures
      var a, whole := Receive(EncodeAll(frames) + Encode(f).value[..k], message), message + Assembled(frames);
      && (!MaskUnneeded(f, k) || f.opcode == 8 ==>
           a.outcome == (if MaskTaken(f, k) then TypeError else Nothing) && a.pings == Pings(frames))
      && (MaskUnneeded(f, k) && Closes(f) ==> a.outcome == Got(f.opcode, whole) && a.pings == Pings(frames))
      && (MaskUnneeded(f, k) && Passing(f) ==>
           a == Before(Pings(frames), Before(Pings([f]), Receive(f.mask.value[..k - |Header(f)|], whole))))
  {
    hide ReadFrame, Encode, Receive, EncodeAll, Header;
    var tail, whole := Encode(f).value[..k], message + Assembled(frames);
    ReceivePasses(frames, message, tail);
    CutFrame(f, k);
    Unfolds(tail, whole);
    var none: Bytes := [];
    assert whole + none == whole;
    var left := Receive(ReadFrame(tail).rest, whole);
    PingFirst(f, [], left);
    assert [f] + [] == [f];
    BeforeNothing(left, _ => [0, 0, 0, 0], 0);
  }

  /** Exactly when such a stream is answered, and exactly when it crashes. */
  lemma {:induction false} CutStreamIff(frames: seq<Frame>, f: Frame, k: nat, message: Bytes)
    requires AllPassing(frames) && Encode(f).Some? && k < |Encode(f).value|
    ensures
      var outcome := Receive(EncodeAll(frames) + Encode(f).value[..k], message).outcome;
      var left := if MaskUnneeded(f, k) then f.mask.value[..k - |Header(f)|] else [];
      && (outcome.Got? <==> MaskUnneeded(f, k) && (Closes(f) || (Passing(f) && TakenForFrame(left))))
      && (outcome.TypeError? <==> MaskTaken(f, k) || (MaskUnneeded(f, k) && Passing(f) && TakenForCrash(left)))
  {
    hide Encode, Receive, EncodeAll, Header;
    CutStream(frames, f, k, message);
    if MaskUnneeded(f, k) {
      MaskCutShort(f, k);
      Leftover(f.mask.value[..k - |Header(f)|], message + Assembled(frames));
    }
  }

  lemma MaskCutShort(f: Frame, k: nat)
    requires MaskUnneeded(f, k) && Encode(f).Some? && k < |Encode(f).value|
    ensures k - |Header(f)| < 4
  {
    hide Encode, Header;
    EncodeParts(f);
  }

  /**
    * In particular for the last frame of a message: exactly when `receive` answers it all the same,
    * and then it is the whole message; exactly when it crashes; otherwise it answers nothing.
    */
  lemma {:induction false} CutMessage(frames: seq<Frame>, last: Frame, k: nat, message: Bytes)
    requires AllPassing(frames) && Closes(last) && k < |Encode(last).value|
    ensures
      var a := Receive(EncodeAll(frames) + Encode(last).value[..k], message);
      && (a.outcome.Got? <==> MaskUnneeded(last, k))
      && (a.outcome.TypeError? <==> MaskTaken(last, k))
      && (a.outcome.Got? ==> a.outcome == Got(last.opcode, message + Assembled(frames)))
      && a.pings == Pings(frames)
  {
    hide Encode, Receive, EncodeAll, Header;
    CutStream(frames, last, k, message);
  }

  /** The frames of a server are not masked: a stream that ends inside one of them answers nothing. */
  lemma {:induction false} CutServerStream(frames: seq<Frame>, f: Frame, k: nat, message: Bytes)
    requires AllPassing(frames) && Encode(f).Some? && k < |Encode(f).value| && f.mask.None?
    ensures
      var a := Receive(EncodeAll(frames) + Encode(f).value[..k], message);
      a.outcome == Nothing && a.pings == Pings(frames)
  {
    hide Encode, Receive, EncodeAll, Header;
    CutStream(frames, f, k, message);
  }

  /**
    * An empty masked frame without its mask is accepted, and a payload byte in place of the mask is a
    * crash. The mask of a fragment or a ping, left unread, is taken for the frame that ends the
    * message, or for one that crashes.
    */
  lemma {:induction false} CutMasks()
    ensures Receive([0x81, 0x80], []) == Answer(Got(1, []), [], [])
    ensures Receive([0x81, 0x81, 0xAA], []) == Answer(TypeError, [], [])
    ensures Receive([0x01, 0x80, 0x81, 0x00], []) == Answer(Got(1, []), [], [])
    ensures Receive([0x89, 0x80, 0x81, 0x81, 0xAA], []) == Answer(TypeError, [], [[]])
  {
    hide Masked, Unpack, Receive;
    var s: Bytes, t: Bytes, u: Bytes := [0x81, 0x80], [0x81, 0x81, 0xAA], [0x01, 0x80, 0x81, 0x00];
    var v: Bytes, w: Bytes, none: Bytes := [0x81, 0x00], [0x89, 0x80, 0x81, 0x81, 0xAA], [];
    assert t[2..] == [0xAA] && u[2..] == v && w[2..] == t && none + none == none;
    assert ReadFrame(s) == Read(Head(true, 1, true, 0), [], []);
    assert ReadFrame(t) == BadMask([]);
    assert ReadFrame(u) == Read(Head(false, 1, true, 0), [], v);
    assert ReadFrame(v) == Read(Head(true, 1, false, 0), [], []);
    assert ReadFrame(w) == Read(Head(true, 9, true, 0), [], t);
    Unfolds(s, []);
    Unfolds(t, []);
    Unfolds(u, []);
    Unfolds(v, []);
    Unfolds(w, []);
  }

  // ----- the socket -----

  /** What will still arrive: an empty chunk is a closed connection. */
  function Arriving(chunks: seq<Bytes>): Bytes {
    if chunks == [] || chunks[0] == [] then [] else chunks[0] + Arriving(chunks[1..])
  }

  class SyncSocket {
    var buffer: Bytes
    var incoming: seq<Bytes>
    var sent: Bytes
    const random: nat -> Mask
    var drawn: nat

    constructor (buffer: Bytes, incoming: seq<Bytes>, random: nat -> Mask)
      ensures this.buffer == buffer && this.incoming == incoming && sent == [] && drawn == 0 && this.random == random
    {
      this.buffer, this.incoming, sent, drawn, this.random := buffer, incoming, [], 0, random;
    }

    /** Everything `receive` can still read. */
    ghost function Pending(): Bytes
      reads this`buffer, this`incoming
    {
      buffer + Arriving(incoming)
    }

    /** `_send`; it answers false for the `struct.error` of an oversized payload. */
    method Send(opcode: Opcode, data: Bytes) returns (ok: bool)
      modifies this`sent, this`drawn
      ensures ok <==> |data| < MaxSize
      ensures drawn == old(drawn) + 1
      ensures sent == old(sent) +
        (if ok then Encode(Frame(true, opcode, Some(random(old(drawn))), data)).value else [])
    {
      hide Masked;
      var mask := random(drawn);
      drawn := drawn + 1;
      var header: Bytes := [128 + opcode];
      var size := |data|;
      if size < 126 {
        header := header + [128 + size];
      } else if size < 65536 {
        header := header + [128 + 126];
        header := header + Pack(size, 2);
      } else if size < MaxSize {
        header := header + [128 + 127];
        header := header + Pack(size, 8);
      } else {
        return false;
      }
      assert header == [128 + opcode] + LengthBytes(true, size);
      sent := sent + (header + mask + Masked(data, mask));
      return true;
    }

    /** `_take`: the next `count` bytes however they were cut, or nothing and nothing lost. */
    method Take(count: nat) returns (r: Option<Bytes>)
      modifies this`buffer, this`incoming
      ensures r.Some? <==> |old(Pending())| >= count
      ensures r.Some? ==> r.value == old(Pending())[..count] && Pending() == old(Pending())[count..]
      ensures r.None? ==> Pending() == old(Pending())
    {
      while |buffer| < count
        invariant Pending() == old(Pending())
        decreases |incoming|
      {
        if incoming == [] || incoming[0] == [] {
          return None;
        }
        var chunk := incoming[0];
        assert buffer + (chunk + Arriving(incoming[1..])) == (buffer + chunk) + Arriving(incoming[1..]);
        incoming := incoming[1..];
        buffer := buffer + chunk;
      }
      r := Some(buffer[..count]);
      assert old(Pending())[..count] == buffer[..count];
      buffer := buffer[count..];
      assert Pending() == old(Pending())[count..];
    }

    /** One frame, read through `_take`; `crashed` is the masking of a byte without a mask. */
    method TakeFrame() returns (frame: Option<(Head, Bytes)>, crashed: bool)
      modifies this`buffer, this`incoming
      ensures Agrees(ReadFrame(old(Pending())), frame, crashed, Pending())
    {
      hide Masked, Unpack, Arriving, ReadBody;
      var start := Take(2);
      if start.None? {
        return None, false;
      }
      ghost var s1 := Pending();
      var h := HeadOf(start.value[0], start.value[1]);
      var width := Extended(h.size);
      if width != 0 {
        var extended := Take(width);
        if extended.None? {
          return None, false;
        }
        h := h.(size := Unpack(extended.value));
      }
      assert Pending() == s1[width..];
      frame, crashed := TakeBody(h);
    }

    method TakeBody(h: Head) returns (frame: Option<(Head, Bytes)>, crashed: bool)
      modifies this`buffer, this`incoming
      ensures Agrees(ReadBody(h, old(Pending())), frame, crashed, Pending())
    {
      hide Masked, Arriving;
      ghost var s := Pending();
      var mask: Option<Bytes> := Some([0, 0, 0, 0]);
      if h.masked {
        mask := Take(4);
      }
      ghost var s' := Pending();
      var payload: Option<Bytes> := Some([]);
      if h.size != 0 {
        payload := Take(h.size);
      } else {
        assert s'[..0] == [] && s'[0..] == s';
      }
      if payload.None? {
        return None, false;
      }
      var data := payload.value;
      if h.masked {
        if mask.None? {
          if data != [] {
            return None, true;
          }
        } else {
          data := Masked(data, mask.value);
        }
      }
      return Some((h, data)), false;
    }

    /**
      * `receive`: what it answers, what it leaves and the pongs it sends depend on the bytes that
      * arrive, not on how they were cut.
      */
    method ReceiveMessage() returns (outcome: Outcome)
      modifies this
      ensures
        var a := Receive(old(Pending()), []);
        && outcome == a.outcome && Pending() == a.rest
        && drawn == old(drawn) + |a.pings|
        && sent == old(sent) + Pongs(a.pings, random, old(drawn))
    {
      hide Pending, ReadFrame, Encode, Receive, Pongs, Before;
      var message: Bytes := [];
      ghost var whole := Receive(Pending(), []);
      ghost var pings: seq<Bytes> := [];
      BeforeNothing(whole, random, drawn);
      while true
        invariant whole == Before(pings, Receive(Pending(), message))
        invariant drawn == old(drawn) + |pings|
        invariant sent == old(sent) + Pongs(pings, random, old(drawn))
        decreases |Pending()|
      {
        ghost var s := Pending();
        Unfolds(s, message);
        var frame, crashed := TakeFrame();
        BeforeLast(pings, Receive(s, message));
        if crashed {
          return TypeError;
        }
        if frame.None? {
          return Nothing;
        }
        var (h, payload) := frame.value;
        if h.opcode == 8 {
          return Nothing;
        }
        if h.opcode == 9 {
          ReadIsSmall(s);
          var ok := Send(10, payload);
          PongsSnoc(pings, payload, random, old(drawn));
          BeforeSnoc(pings, payload, Receive(Pending(), message));
          EchoIs(payload, random(old(drawn) + |pings|));
          Assoc(old(sent), Pongs(pings, random, old(drawn)), Echo(payload, random(old(drawn) + |pings|)));
          pings := pings + [payload];
          continue;
        }
        if h.opcode == 10 {
          continue;
        }
        message := message + payload;
        if h.final {
          return Got(h.opcode, message);
        }
      }
    }
  }

  /** An answer after the pings already answered. */
  function Before(pings: seq<Bytes>, a: Answer): Answer {
    a.(pings := pings + a.pings)
  }

  lemma BeforeNothing(a: Answer, random: nat -> Mask, drawn: nat)
    ensures Before([], a) == a && Pongs([], random, drawn) == []
  {
    assert [] + a.pings == a.pings;
  }

  lemma BeforeLast(pings: seq<Bytes>, a: Answer)
    ensures Before(pings, a).outcome == a.outcome && Before(pings, a).rest == a.rest
    ensures a.pings == [] ==> Before(pings, a).pings == pings
  {
  }

  lemma BeforeSnoc(pings: seq<Bytes>, payload: Bytes, a: Answer)
    ensures Before(pings, AddPing(payload, a)) == Before(pings + [payload], a)
  {
    assert pings + ([payload] + a.pings) == (pings + [payload]) + a.pings;
  }

  /** What `receive` does with the frame it read, the rest being read by the same function. */
  ghost function Round(r: Read, message: Bytes): Answer {
    if r.Short? then Answer(Nothing, r.rest, [])
    else if r.BadMask? then Answer(TypeError, r.rest, [])
    else if r.head.opcode == 8 then Answer(Nothing, r.rest, [])
    else if r.head.opcode == 9 then AddPing(r.payload, Receive(r.rest, message))
    else if r.head.opcode == 10 then Receive(r.rest, message)
    else if r.head.final then Answer(Got(r.head.opcode, message + r.payload), r.rest, [])
    else Receive(r.rest, message + r.payload)
  }

  lemma Unfolds(s: Bytes, message: Bytes)
    ensures Receive(s, message) == Round(ReadFrame(s), message)
  {
    hide ReadFrame;
  }

  /** What a method that reads a frame reports of a `Read`. */
  ghost predicate Agrees(r: Read, frame: Option<(Head, Bytes)>, crashed: bool, left: Bytes) {
    && left == r.rest && (crashed <==> r.BadMask?)
    && frame == if r.Read? then Some((r.head, r.payload)) else None
  }

  /** A payload that was read has a 64-bit length, so its echo can be written. */
  lemma ReadIsSmall(s: Bytes)
    requires ReadFrame(s).Read?
    ensures |ReadFrame(s).payload| < MaxSize
  {
    hide Masked, Unpack;
    SizesAre();
    var h := HeadOf(s[0], s[1]);
    var width := Extended(h.size);
    if width != 0 {
      UnpackBound(s[2..][..width]);
    }
  }

  /** The pongs sent for a list of pings: each echoes its ping under a fresh mask. */
  function Pongs(pings: seq<Bytes>, random: nat -> Mask, drawn: nat): Bytes {
    if pings == [] then []
    else
      var n := |pings| - 1;
      Pongs(pings[..n], random, drawn) + Echo(pings[n], random(drawn + n))
  }

  function Echo(payload: Bytes, mask: Mask): Bytes {
    var sent := Encode(Frame(true, 10, Some(mask), payload));
    if sent.Some? then sent.value else []
  }

  lemma EchoIs(payload: Bytes, mask: Mask)
    requires |payload| < MaxSize
    ensures Encode(Frame(true, 10, Some(mask), payload)) == Some(Echo(payload, mask))
  {
  }

  lemma {:induction false} PongsSnoc(pings: seq<Bytes>, payload: Bytes, random: nat -> Mask, drawn: nat)
    ensures Pongs(pings + [payload], random, drawn)
         == Pongs(pings, random, drawn) + Echo(payload, random(drawn + |pings|))
  {
    hide Echo;
    assert (pings + [payload])[..|pings|] == pings;
  }
}
