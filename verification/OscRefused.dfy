/**
 * Messages that are as an encoder writes them up to one point, and what becomes of them: an argument is
 * missing, or a tag is none that is known.
 */
module OscRefused {
  import opened Bytes
  import opened OscFormat
  import opened OscReceived
  import opened OscRoundTrip

  /** Behind tags and arguments that fit, the walk goes on where they end; if it gets stuck there, the
      message is refused for the reason found there. */
  lemma {:induction false} StuckBehind(m: bytes, t: nat, pos: nat, args: seq<Arg>, x: byte, why: Why)
    requires Aligned(|m|) && Aligned(pos) && |m| < 0x1_0000_0000
    requires Has(m, t, Tags(args) + [x]) && Has(m, pos, ArgsBytes(args)) && x != 0
    requires Checked(m, x, pos + |ArgsBytes(args)|) == Bad(why)
    ensures t < |m| && WalkTags(m, t, pos) == Stuck(why)
    decreases |args|
  {
    hide Checked, ArgBytes, ArgsBytes, Tag, Aligned, WalkTags, Has;
    HasAt(m, t, Tags(args) + [x], 0);
    HasFits(m, t, Tags(args) + [x]);
    if args == [] {
      NoArguments();
      StuckNow(m, t, pos, why);
    } else {
      var a, rest := args[0], args[1..];
      TagsThen(args, x);
      assert args == [a] + rest;
      HasParts(m, t, [Tag(a)], Tags(rest) + [x]);
      ArgsBytesCons(a, rest);
      HasParts(m, pos, ArgBytes(a), ArgsBytes(rest));
      ArgIsRead(m, pos, a);
      CheckedStaysAligned(m, Tag(a), pos);
      HasFits(m, t + 1, Tags(rest) + [x]);
      StuckBehind(m, t + 1, pos + |ArgBytes(a)|, rest, x, why);
      StuckLater(m, t, pos, why);
    }
  }

  lemma StuckNow(m: bytes, t: nat, pos: nat, why: Why)
    requires t < |m| && m[t] != 0 && Checked(m, m[t], pos) == Bad(why)
    ensures WalkTags(m, t, pos) == Stuck(why)
  {
    hide Checked;
  }

  lemma StuckLater(m: bytes, t: nat, pos: nat, why: Why)
    requires t + 1 < |m| && m[t] != 0 && Checked(m, m[t], pos).At?
    requires WalkTags(m, t + 1, Checked(m, m[t], pos).pos) == Stuck(why)
    ensures WalkTags(m, t, pos) == Stuck(why)
  {
    hide Checked;
  }

  lemma NoArguments()
    ensures ArgsBytes([]) == []
  {
  }

  lemma TagsThen(args: seq<Arg>, x: byte)
    requires args != []
    ensures Tags(args) + [x] == [Tag(args[0])] + (Tags(args[1..]) + [x])
  {
    hide Tag;
  }

  /** Address, the tags of `args` and one more tag, the bytes of `args`, and anything behind them. */
  function Line(addr: CString, args: seq<Arg>, x: byte, rest: bytes): bytes {
    Str4(addr) + Str4([COMMA] + (Tags(args) + [x])) + (ArgsBytes(args) + rest)
  }

  lemma LineAligned(addr: CString, tags: bytes, args: seq<Arg>, rest: bytes)
    requires Aligned(|rest|)
    ensures
      var t := |Str4(addr)|;
      var pos := t + |Str4(tags)|;
      Aligned(t) && Aligned(pos) && Aligned(pos + |ArgsBytes(args)| + |rest|)
  {
    hide ArgsBytes, Aligned, RoundUp4, Str4;
    Str4Aligned(addr);
    Str4Aligned(tags);
    ArgsBytesAligned(args);
    AlignedSum(|Str4(addr)|, |Str4(tags)|);
    AlignedSum(|Str4(addr)| + |Str4(tags)|, |ArgsBytes(args)|);
    AlignedSum(|Str4(addr)| + |Str4(tags)| + |ArgsBytes(args)|, |rest|);
  }

  /** A string of tags: where it ends, and what it holds. */
  lemma TagsHold(m: bytes, t: nat, tags: CString)
    requires tags != [] && Has(m, t, Str4([COMMA] + tags))
    ensures t + 1 < |m| && m[t] == COMMA && m[t + 1] == tags[0] && Has(m, t + 1, tags)
    ensures Str4End(m, t) == Some(t + |Str4([COMMA] + tags)|)
  {
    hide Str4End, CStringAt, RoundUp4;
    var s := [COMMA] + tags;
    StringIsRead(m, t, s);
    var zeros := Zeros(|Str4(s)| - |s|);
    assert Str4(s) == s + zeros;
    HasParts(m, t, s, zeros);
    HasParts(m, t, [COMMA], tags);
    HasAt(m, t, [COMMA], 0);
    HasAt(m, t + 1, tags, 0);
  }

  lemma LineHolds(addr: CString, args: seq<Arg>, x: byte, rest: bytes)
    requires x != 0 && Aligned(|rest|)
    ensures
      var m, t := Line(addr, args, x, rest), |Str4(addr)|;
      var pos := t + |Str4([COMMA] + (Tags(args) + [x]))|;
      && Aligned(|m|) && Aligned(pos) && t + 1 < |m| && m[t] == COMMA && m[t + 1] != 0
      && Str4End(m, 0) == Some(t) && Str4End(m, t) == Some(pos) && (IsBundle(m) <==> !PlainAddress(addr))
      && Has(m, t + 1, Tags(args) + [x]) && Has(m, pos, ArgsBytes(args)) && |m| == pos + |ArgsBytes(args)| + |rest|
  {
    hide Str4End, ArgsBytes, Aligned, CStringAt, IsBundle, RoundUp4, Has, Str4;
    var tags := Tags(args) + [x];
    var a, b, c := Str4(addr), Str4([COMMA] + tags), ArgsBytes(args) + rest;
    var m := Line(addr, args, x, rest);
    LineAligned(addr, [COMMA] + tags, args, rest);
    assert m == a + (b + c);
    AddressIsFound(m, addr, b + c);
    HasAll(m, a, b, c);
    HasParts(m, |a| + |b|, ArgsBytes(args), rest);
    TagsHold(m, |a|, tags);
    assert tags[0] != 0;
  }

  lemma LineIsRefused(addr: CString, args: seq<Arg>, x: byte, rest: bytes, why: Why)
    requires PlainAddress(addr) && x != 0 && Aligned(|rest|) && |Line(addr, args, x, rest)| < 0x1_0000_0000
    requires Checked(Line(addr, args, x, rest), x, |Line(addr, args, x, rest)| - |rest|) == Bad(why)
    ensures Process(Line(addr, args, x, rest)) == Outcome([], Some(why))
  {
    hide Line, Checked, Str4, ArgsBytes, Str4End, WalkTags, CStringAt, Has;
    var m, t := Line(addr, args, x, rest), |Str4(addr)|;
    var pos := t + |Str4([COMMA] + (Tags(args) + [x]))|;
    LineHolds(addr, args, x, rest);
    StuckBehind(m, t + 1, pos, args, x, why);
  }

  lemma NoSuchTag(x: byte)
    requires forall a: Arg :: Tag(a) != x
    ensures !KnownTag(x)
  {
    assert Tag(Nil) != x && Tag(Infinitum) != x && Tag(Int32(0)) != x && Tag(Float(0)) != x && Tag(Char(0)) != x;
    assert Tag(RgbaColor(0)) != x && Tag(MidiMessage(0)) != x && Tag(Int64(0)) != x && Tag(TimeTag(0)) != x;
    assert Tag(Double(0)) != x && Tag(Str([])) != x && Tag(Symbol([])) != x && Tag(Blob([])) != x;
    assert Tag(Bool(true)) != x && Tag(Bool(false)) != x;
  }

  /** A tag that no kind of argument has is refused, wherever it stands and whatever is behind it. */
  lemma UnknownTagIsRefused(addr: CString, args: seq<Arg>, x: byte, rest: bytes)
    requires PlainAddress(addr) && x != 0 && Aligned(|rest|) && |Line(addr, args, x, rest)| < 0x1_0000_0000
    requires forall a: Arg :: Tag(a) != x
    ensures Process(Line(addr, args, x, rest)) == Outcome([], Some(UnknownTypeTag))
  {
    NoSuchTag(x);
    hide Line, Process;
    LineIsRefused(addr, args, x, rest, UnknownTypeTag);
  }

  /** A message without the bytes of its last argument is refused, if that argument has any and is not
      a blob: nothing asks for the bytes of a blob. */
  lemma MissingArgumentIsRefused(addr: CString, args: seq<Arg>, a: Arg)
    requires PlainAddress(addr) && |Line(addr, args, Tag(a), [])| < 0x1_0000_0000
    requires ArgBytes(a) != [] && !a.Blob?
    ensures Process(Line(addr, args, Tag(a), [])) == Outcome([], Some(ArgumentsExceedMessage))
  {
    hide Line, Str4End, Process;
    LineIsRefused(addr, args, Tag(a), [], ArgumentsExceedMessage);
  }

  /** A last string or symbol without a NUL is refused. */
  lemma UnterminatedTextIsRefused(addr: CString, args: seq<Arg>, x: byte, rest: CString)
    requires PlainAddress(addr) && Aligned(|rest|) && |Line(addr, args, x, rest)| < 0x1_0000_0000
    requires StringTag(x) && rest != []
    ensures Process(Line(addr, args, x, rest)) == Outcome([], Some(UnterminatedString))
  {
    hide Line, Str4End, Process;
    var m := Line(addr, args, x, rest);
    RestBehind(addr, args, x, rest);
    assert Str4End(m, |m| - |rest|).None? by { NoEnd(m, |m| - |rest|); }
    LineIsRefused(addr, args, x, rest, UnterminatedString);
  }

  lemma RestBehind(addr: CString, args: seq<Arg>, x: byte, rest: bytes)
    ensures
      var m := Line(addr, args, x, rest);
      |rest| <= |m| && forall i :: |m| - |rest| <= i < |m| ==> m[i] == rest[i - (|m| - |rest|)]
  {
    hide Str4, ArgsBytes;
  }

  lemma NoEnd(m: bytes, p: nat)
    requires p < |m| && forall i :: p <= i < |m| ==> m[i] != 0
    ensures Str4End(m, p) == None
  {
    hide Str4End;
    Str4EndIsFirst(m, p);
  }
}
