/**
 * Open Sound Control messages and bundles byte by byte, as the 1.0 specification writes them ("OSC Type
 * Tag String", "OSC Arguments", "OSC Bundles") and the unit tests spell them out.
 */
module OscWire {
  import opened Bytes
  import opened OscFormat
  import opened OscReceived
  import OscRoundTrip

  /** Four bytes, the most significant first. */
  function Number(a: byte, b: byte, c: byte, d: byte): uint32 { ((a * 256 + b) * 256 + c) * 256 + d }

  lemma NumberIsStored(a: byte, b: byte, c: byte, d: byte)
    ensures BE4(Number(a, b, c, d)) == [a, b, c, d]
  {
    RoundTrip4Bytes([a, b, c, d]);
  }

  /** One to four NULs behind a string, none to three behind a blob. */
  lemma PaddingIs(s: bytes)
    ensures Str4(s) == s + Zeros(4 - |s| % 4)
    ensures RoundUp4(|s|) == |s| + (4 - |s| % 4) % 4
  {
  }

  lemma OneTag(a: Arg)
    ensures TagString([a]) == [COMMA, Tag(a), 0, 0] && ArgsBytes([a]) == ArgBytes(a)
  {
    hide Tag, ArgBytes;
    assert [COMMA] + Tags([a]) == [COMMA, Tag(a)];
    PaddingIs([COMMA, Tag(a)]);
    assert [a][..0] == [];
    assert [] + ArgBytes(a) == ArgBytes(a);
  }

  lemma OneArgument(addr: CString, a: Arg)
    ensures Enc(Message(addr, [a])) == addr + Zeros(4 - |addr| % 4) + [COMMA, Tag(a), 0, 0] + ArgBytes(a)
  {
    hide Tag, ArgBytes, TagString, ArgsBytes, Str4;
    PaddingIs(addr);
    OneTag(a);
  }

  /** The address padded, the comma, one letter, two NULs, and the argument. */
  function Line(addr: CString, letter: char, data: bytes): bytes
    requires letter < 128 as char
  {
    addr + Zeros(4 - |addr| % 4) + [',' as int, letter as int, 0, 0] + data
  }

  /** No data: the letter is the value. */
  lemma FlagsOnTheWire(addr: CString)
    ensures Enc(Message(addr, [Bool(true)])) == Line(addr, 'T', [])
    ensures Enc(Message(addr, [Bool(false)])) == Line(addr, 'F', [])
    ensures Enc(Message(addr, [Nil])) == Line(addr, 'N', [])
    ensures Enc(Message(addr, [Infinitum])) == Line(addr, 'I', [])
  {
    hide Enc;
    OneArgument(addr, Bool(true));
    OneArgument(addr, Bool(false));
    OneArgument(addr, Nil);
    OneArgument(addr, Infinitum);
  }

  /** Four bytes, and what they stand for. */
  lemma WordsOnTheWire(addr: CString, a: byte, b: byte, c: byte, d: byte)
    ensures Enc(Message(addr, [Int32(Signed32(Number(a, b, c, d)))])) == Line(addr, 'i', [a, b, c, d])
    ensures Enc(Message(addr, [Float(Number(a, b, c, d))])) == Line(addr, 'f', [a, b, c, d])
    ensures Enc(Message(addr, [RgbaColor(Number(a, b, c, d))])) == Line(addr, 'r', [a, b, c, d])
    ensures Enc(Message(addr, [MidiMessage(Number(a, b, c, d))])) == Line(addr, 'm', [a, b, c, d])
  {
    hide Enc, BE4;
    var n := Number(a, b, c, d);
    NumberIsStored(a, b, c, d);
    OneArgument(addr, Int32(Signed32(n)));
    OneArgument(addr, Float(n));
    OneArgument(addr, RgbaColor(n));
    OneArgument(addr, MidiMessage(n));
  }

  /** A char travels as the number it is promoted to: three bytes repeat its sign. */
  lemma CharOnTheWire(addr: CString, c: byte)
    ensures
      var sign := if c < 128 then 0 else 255;
      Enc(Message(addr, [Char(c)])) == Line(addr, 'c', [sign, sign, sign, c])
  {
    hide Enc, BE4;
    var sign: byte := if c < 128 then 0 else 255;
    NumberIsStored(sign, sign, sign, c);
    OneArgument(addr, Char(c));
  }

  /** Eight bytes, the most significant first. */
  lemma LongsOnTheWire(addr: CString, hi: bytes, lo: bytes)
    requires |hi| == |lo| == 4
    ensures
      var n: uint64 := Number(hi[0], hi[1], hi[2], hi[3]) * 0x1_0000_0000 + Number(lo[0], lo[1], lo[2], lo[3]);
      && Enc(Message(addr, [Int64(Signed64(n))])) == Line(addr, 'h', hi + lo)
      && Enc(Message(addr, [TimeTag(n)])) == Line(addr, 't', hi + lo)
      && Enc(Message(addr, [Double(n)])) == Line(addr, 'd', hi + lo)
  {
    hide Enc, BE4, Number;
    var h: int, l: int := Number(hi[0], hi[1], hi[2], hi[3]), Number(lo[0], lo[1], lo[2], lo[3]);
    var n: uint64 := h * 0x1_0000_0000 + l;
    NumberIsStored(hi[0], hi[1], hi[2], hi[3]);
    NumberIsStored(lo[0], lo[1], lo[2], lo[3]);
    assert n / 0x1_0000_0000 == h && n % 0x1_0000_0000 == l;
    assert [hi[0], hi[1], hi[2], hi[3]] == hi && [lo[0], lo[1], lo[2], lo[3]] == lo;
    assert BE8(n) == hi + lo;
    OneArgument(addr, Int64(Signed64(n)));
    OneArgument(addr, TimeTag(n));
    OneArgument(addr, Double(n));
  }

  /** The text and one to four NULs. */
  lemma TextsOnTheWire(addr: CString, s: CString)
    ensures Enc(Message(addr, [Str(s)])) == Line(addr, 's', s + Zeros(4 - |s| % 4))
    ensures Enc(Message(addr, [Symbol(s)])) == Line(addr, 'S', s + Zeros(4 - |s| % 4))
  {
    hide Enc, Str4;
    PaddingIs(s);
    OneArgument(addr, Str(s));
    OneArgument(addr, Symbol(s));
  }

  /** The length, the bytes and up to three NULs. */
  lemma BlobOnTheWire(addr: CString, data: bytes, a: byte, b: byte, c: byte, d: byte)
    requires |data| == Number(a, b, c, d)
    ensures Enc(Message(addr, [Blob(data)])) == Line(addr, 'b', [a, b, c, d] + data + Zeros((4 - |data| % 4) % 4))
  {
    hide Enc, BE4, Number, RoundUp4;
    NumberIsStored(a, b, c, d);
    PaddingIs(data);
    OneArgument(addr, Blob(data));
  }

  /** A bundle of one element: the head, the time tag, the length and the element. */
  lemma BundleOnTheWire(t: uint64, hi: bytes, lo: bytes, e: Element, a: byte, b: byte, c: byte, d: byte)
    requires |hi| == |lo| == 4 && |Enc(e)| == Number(a, b, c, d)
    requires t == Number(hi[0], hi[1], hi[2], hi[3]) * 0x1_0000_0000 + Number(lo[0], lo[1], lo[2], lo[3])
    ensures Enc(Bundle(t, [e])) ==
            ['#' as int, 'b' as int, 'u' as int, 'n' as int, 'd' as int, 'l' as int, 'e' as int, 0] + hi + lo +
            [a, b, c, d] + Enc(e)
  {
    var h: int, l: int := Number(hi[0], hi[1], hi[2], hi[3]), Number(lo[0], lo[1], lo[2], lo[3]);
    NumberIsStored(hi[0], hi[1], hi[2], hi[3]);
    NumberIsStored(lo[0], lo[1], lo[2], lo[3]);
    NumberIsStored(a, b, c, d);
    OneElement(e);
    hide BE4, Number, EncAll;
    assert t / 0x1_0000_0000 == h && t % 0x1_0000_0000 == l;
    assert [hi[0], hi[1], hi[2], hi[3]] == hi && [lo[0], lo[1], lo[2], lo[3]] == lo;
    assert BE8(t) == hi + lo;
    assert Enc(Bundle(t, [e])) == BUNDLE_HEAD + (hi + lo) + ([a, b, c, d] + Enc(e));
  }

  lemma OneElement(e: Element)
    ensures EncAll([e]) == BE4(|Enc(e)|) + Enc(e)
  {
    hide Enc, BE4;
    assert [e][..0] == [] && EncAll([]) == [];
    assert [] + BE4(|Enc(e)|) + Enc(e) == BE4(|Enc(e)|) + Enc(e);
  }

  /** And so these bytes are delivered as these values. */
  lemma WordsAreDelivered(addr: CString, a: byte, b: byte, c: byte, d: byte)
    requires OscRoundTrip.PlainAddress(addr) && |addr| < 0xFFFF_0000
    ensures
      var n := Number(a, b, c, d);
      && Process(Line(addr, 'i', [a, b, c, d])) == Outcome([Received(addr, ['i' as int], [Value(Int32(Signed32(n)))])], None)
      && Process(Line(addr, 'f', [a, b, c, d])) == Outcome([Received(addr, ['f' as int], [Value(Float(n))])], None)
      && Process(Line(addr, 'r', [a, b, c, d])) == Outcome([Received(addr, ['r' as int], [Value(RgbaColor(n))])], None)
      && Process(Line(addr, 'm', [a, b, c, d])) == Outcome([Received(addr, ['m' as int], [Value(MidiMessage(n))])], None)
  {
    hide Enc, Number, Process, Signed32;
    var n := Number(a, b, c, d);
    WordsOnTheWire(addr, a, b, c, d);
    OneIsDelivered(addr, Int32(Signed32(n)));
    OneIsDelivered(addr, Float(n));
    OneIsDelivered(addr, RgbaColor(n));
    OneIsDelivered(addr, MidiMessage(n));
  }

  lemma OneIsDelivered(addr: CString, arg: Arg)
    requires OscRoundTrip.PlainAddress(addr) && |Enc(Message(addr, [arg]))| < 0x1_0000_0000
    ensures Process(Enc(Message(addr, [arg]))) == Outcome([Received(addr, [Tag(arg)], [Value(arg)])], None)
  {
    hide MessageBytes, Process, Tag;
    OscRoundTrip.CleanPacketIsDelivered(Message(addr, [arg]));
    assert Tags([arg]) == [Tag(arg)];
    assert OscRoundTrip.Values([arg]) == [Value(arg)];
  }
}
