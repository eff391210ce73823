/**
 * The Open Sound Control 1.0 encoding ("OSC Packets", "OSC Messages",
 * "OSC Bundles") as values: arguments, messages, bundles and their bytes.
 */
module OscFormat {
  import opened Bytes

  type uint32 = x: int | 0 <= x < 0x1_0000_0000
  type uint64 = x: int | 0 <= x < 0x1_0000_0000_0000_0000
  type int32 = x: int | -0x8000_0000 <= x < 0x8000_0000
  type int64 = x: int | -0x8000_0000_0000_0000 <= x < 0x8000_0000_0000_0000

  /** A NUL-free string, as strlen and strcpy see it. */
  type CString = s: bytes | 0 !in s

  // ---------- numbers ----------

  function BE2(x: nat): (r: bytes)
    ensures |r| == 2
  {
    [(x / 256) % 256, x % 256]
  }

  /** FromUInt32: the low 32 bits, most significant byte first. */
  function BE4(x: nat): (r: bytes)
    ensures |r| == 4
  {
    BE2(x / 65536) + BE2(x % 65536)
  }

  function BE8(x: nat): (r: bytes)
    ensures |r| == 8
  {
    BE4(x / 0x1_0000_0000) + BE4(x % 0x1_0000_0000)
  }

  function FromBE2(a: byte, b: byte): nat { 256 * a + b }

  /** ToUInt32 */
  function FromBE4(s: bytes): (x: uint32)
    requires |s| == 4
  {
    65536 * FromBE2(s[0], s[1]) + FromBE2(s[2], s[3])
  }

  function FromBE8(s: bytes): (x: uint64)
    requires |s| == 8
  {
    0x1_0000_0000 * FromBE4(s[..4]) + FromBE4(s[4..])
  }

  lemma RoundTrip2(x: nat)
    requires x < 65536
    ensures FromBE2(BE2(x)[0], BE2(x)[1]) == x
  {
  }

  lemma RoundTrip4(x: nat)
    requires x < 0x1_0000_0000
    ensures FromBE4(BE4(x)) == x
  {
    RoundTrip2(x / 65536);
    RoundTrip2(x % 65536);
  }

  /** And back: any four bytes are the encoding of the number they denote. */
  lemma RoundTrip4Bytes(s: bytes)
    requires |s| == 4
    ensures BE4(FromBE4(s)) == s
  {
    var hi, lo := FromBE2(s[0], s[1]), FromBE2(s[2], s[3]);
    assert FromBE4(s) / 65536 == hi && FromBE4(s) % 65536 == lo;
    assert BE2(hi) == [s[0], s[1]] && BE2(lo) == [s[2], s[3]];
  }

  lemma RoundTrip8(x: nat)
    requires x < 0x1_0000_0000_0000_0000
    ensures FromBE8(BE8(x)) == x
  {
    RoundTrip4(x / 0x1_0000_0000);
    RoundTrip4(x % 0x1_0000_0000);
    assert BE8(x)[..4] == BE4(x / 0x1_0000_0000) && BE8(x)[4..] == BE4(x % 0x1_0000_0000);
  }

  /** Two's complement. */
  function Unsigned32(x: int32): uint32 { if x < 0 then x + 0x1_0000_0000 else x }
  function Signed32(x: uint32): int32 { if x >= 0x8000_0000 then x - 0x1_0000_0000 else x }
  function Unsigned64(x: int64): uint64 { if x < 0 then x + 0x1_0000_0000_0000_0000 else x }
  function Signed64(x: uint64): int64 { if x >= 0x8000_0000_0000_0000 then x - 0x1_0000_0000_0000_0000 else x }

  /** A char promoted to int32: sign-extended. */
  function Promoted(c: byte): int32 { if c >= 128 then c - 256 else c }

  /** A host-order (little-endian) word, as the encoder keeps in open size slots. */
  function LE4(x: nat): (r: bytes)
    ensures |r| == 4
  {
    var b := BE4(x);
    [b[3], b[2], b[1], b[0]]
  }

  function FromLE4(s: bytes): uint32
    requires |s| == 4
  {
    FromBE4([s[3], s[2], s[1], s[0]])
  }

  lemma RoundTripLE4(x: nat)
    requires x < 0x1_0000_0000
    ensures FromLE4(LE4(x)) == x
  {
    RoundTrip4(x);
    var b := BE4(x);
    assert [b[0], b[1], b[2], b[3]] == b;
  }

  // ---------- padding ----------

  /** The encoder's RoundUp4: ((x-1) & ~3) + 4. */
  function RoundUp4(x: nat): (r: nat)
    ensures r % 4 == 0 && x <= r < x + 4
  {
    (x - 1) - (x - 1) % 4 + 4
  }

  /** The decoder's RoundUp4. */
  function RoundUp4Received(x: nat): (r: nat)
    ensures r == RoundUp4(x)
  {
    var remainder := x % 4;
    if remainder != 0 then x + (4 - remainder) else x
  }

  function Zeros(n: nat): (r: bytes)
    ensures |r| == n && forall i :: 0 <= i < n ==> r[i] == 0
  {
    seq(n, _ => 0)
  }

  /** A string with its terminator, padded to a multiple of four. */
  function Str4(s: bytes): (r: bytes)
    ensures |r| == RoundUp4(|s| + 1)
  {
    s + Zeros(RoundUp4(|s| + 1) - |s|)
  }

  // ---------- arguments ----------

  datatype Arg =
    | Bool(b: bool)
    | Nil
    | Infinitum
    | Int32(i: int32)
    | Float(bits: uint32)
    | Char(c: byte)
    | RgbaColor(rgba: uint32)
    | MidiMessage(midi: uint32)
    | Int64(h: int64)
    | TimeTag(t: uint64)
    | Double(wide: uint64)
    | Str(s: CString)
    | Symbol(sym: CString)
    | Blob(data: bytes)

  function Tag(a: Arg): (t: byte)
    ensures t != 0
  {
    match a
    case Bool(b) => if b then 'T' as int else 'F' as int
    case Nil => 'N' as int
    case Infinitum => 'I' as int
    case Int32(_) => 'i' as int
    case Float(_) => 'f' as int
    case Char(_) => 'c' as int
    case RgbaColor(_) => 'r' as int
    case MidiMessage(_) => 'm' as int
    case Int64(_) => 'h' as int
    case TimeTag(_) => 't' as int
    case Double(_) => 'd' as int
    case Str(_) => 's' as int
    case Symbol(_) => 'S' as int
    case Blob(_) => 'b' as int
  }

  function ArgBytes(a: Arg): bytes {
    match a
    case Bool(_) => []
    case Nil => []
    case Infinitum => []
    case Int32(i) => BE4(Unsigned32(i))
    case Float(bits) => BE4(bits)
    case Char(c) => BE4(Unsigned32(Promoted(c)))
    case RgbaColor(v) => BE4(v)
    case MidiMessage(v) => BE4(v)
    case Int64(h) => BE8(Unsigned64(h))
    case TimeTag(t) => BE8(t)
    case Double(w) => BE8(w)
    case Str(s) => Str4(s)
    case Symbol(s) => Str4(s)
    case Blob(d) => BE4(|d|) + d + Zeros(RoundUp4(|d|) - |d|)
  }

  function Tags(args: seq<Arg>): (r: bytes)
    ensures |r| == |args|
    ensures forall i :: 0 <= i < |r| ==> r[i] == Tag(args[i])
  {
    seq(|args|, i requires 0 <= i < |args| => Tag(args[i]))
  }

  function ArgsBytes(args: seq<Arg>): bytes {
    if args == [] then [] else ArgsBytes(args[..|args| - 1]) + ArgBytes(args[|args| - 1])
  }

  const COMMA: byte := ',' as int
  const HASH: byte := '#' as int

  /** The type tag string: a comma, the tags, and one to four NULs. */
  function TagString(args: seq<Arg>): (r: bytes)
    ensures |r| == RoundUp4(|args| + 2)
  {
    Str4([COMMA] + Tags(args))
  }

  // ---------- packets ----------

  datatype Element = Message(addr: CString, args: seq<Arg>) | Bundle(timeTag: uint64, elems: seq<Element>)

  function MessageBytes(addr: CString, args: seq<Arg>): bytes {
    Str4(addr) + TagString(args) + ArgsBytes(args)
  }

  const BUNDLE_HEAD: bytes := [HASH, 'b' as int, 'u' as int, 'n' as int, 'd' as int, 'l' as int, 'e' as int, 0]

  /** The bytes of a packet, or of an element without its size slot. */
  function Enc(e: Element): bytes
    decreases e, 1
  {
    match e
    case Message(addr, args) => MessageBytes(addr, args)
    case Bundle(t, elems) => BUNDLE_HEAD + BE8(t) + EncAll(elems)
  }

  /** Elements inside a bundle: each is preceded by its length. */
  function EncAll(elems: seq<Element>): bytes
    decreases elems, 0
  {
    if elems == [] then []
    else
      var last := elems[|elems| - 1];
      EncAll(elems[..|elems| - 1]) + BE4(|Enc(last)|) + Enc(last)
  }

  // ---------- alignment ----------

  predicate Aligned(n: nat) { n % 4 == 0 }

  lemma AlignedSum(a: nat, b: nat)
    requires Aligned(a)
    ensures Aligned(a + b) <==> Aligned(b)
  {
  }

  lemma ArgBytesAligned(a: Arg)
    ensures Aligned(|ArgBytes(a)|)
  {
    hide BE4, BE8, Str4;
    if a.Blob? {
      AlignedSum(4, RoundUp4(|a.data|));
      assert |ArgBytes(a)| == 4 + RoundUp4(|a.data|);
    }
  }

  lemma {:induction false} ArgsBytesAligned(args: seq<Arg>)
    ensures Aligned(|ArgsBytes(args)|)
  {
    if args != [] {
      hide ArgBytes, Aligned;
      ArgsBytesAligned(args[..|args| - 1]);
      ArgBytesAligned(args[|args| - 1]);
      AlignedSum(|ArgsBytes(args[..|args| - 1])|, |ArgBytes(args[|args| - 1])|);
    } else {
      assert |ArgsBytes(args)| == 0;
    }
  }

  lemma MessageBytesAligned(addr: CString, args: seq<Arg>)
    ensures Aligned(|MessageBytes(addr, args)|)
  {
    hide Str4, ArgsBytes, Tags;
    ArgsBytesAligned(args);
    AlignedSum(|Str4(addr)|, |TagString(args)|);
    AlignedSum(|Str4(addr)| + |TagString(args)|, |ArgsBytes(args)|);
  }

  lemma {:induction false} EncAligned(e: Element)
    ensures Aligned(|Enc(e)|)
    decreases e, 1
  {
    match e
    case Message(addr, args) => MessageBytesAligned(addr, args);
    case Bundle(t, elems) =>
      EncAllAligned(elems);
      AlignedSum(16, |EncAll(elems)|);
      assert |Enc(e)| == 16 + |EncAll(elems)|;
  }

  lemma {:induction false} EncAllAligned(elems: seq<Element>)
    ensures Aligned(|EncAll(elems)|)
    decreases elems, 0
  {
    if elems != [] {
      hide Aligned, Enc;
      var n := |elems| - 1;
      EncAllAligned(elems[..n]);
      EncAligned(elems[n]);
      assert Aligned(4) by { FourIsAligned(); }
      EncAllSize(elems);
      hide EncAll;
      AlignedSum(|EncAll(elems[..n])|, 4);
      AlignedSum(|EncAll(elems[..n])| + 4, |Enc(elems[n])|);
    } else {
      assert |EncAll(elems)| == 0;
    }
  }

  lemma EncAllSize(elems: seq<Element>)
    requires elems != []
    ensures
      var n := |elems| - 1;
      |EncAll(elems)| == |EncAll(elems[..n])| + 4 + |Enc(elems[n])|
  {
    hide Enc, BE4;
  }

  lemma FourIsAligned()
    ensures Aligned(4) && Aligned(0)
  {
  }
}
