/**
 * What the encoder writes, the decoder reads: every tree of bundles and
 * messages is delivered as its messages, in order.
 */
module OscRoundTrip {
  import opened Bytes
  import opened OscFormat
  import opened OscReceived
  import OscBundles

  /** x stands at p. */
  predicate Has(m: bytes, p: nat, x: bytes) { p + |x| <= |m| && m[p..p + |x|] == x }

  lemma HasParts(m: bytes, p: nat, x: bytes, y: bytes)
    requires Has(m, p, x + y)
    ensures Has(m, p, x) && Has(m, p + |x|, y)
  {
    forall i | 0 <= i < |x|
      ensures m[p..p + |x|][i] == x[i]
    {
      HasAt(m, p, x + y, i);
    }
    var q := p + |x|;
    forall i | 0 <= i < |y|
      ensures m[q..q + |y|][i] == y[i]
    {
      HasAt(m, p, x + y, |x| + i);
    }
  }

  lemma HasAt(m: bytes, p: nat, x: bytes, i: nat)
    requires Has(m, p, x) && i < |x|
    ensures m[p + i] == x[i]
  {
    assert m[p..p + |x|][i] == m[p + i];
  }

  // ---------- strings ----------

  lemma {:induction false} ScanFinds(m: bytes, k: nat, e: nat)
    requires k < e <= |m| && (e - 1 - k) % 4 == 0 && m[e - 1] == 0
    requires forall i :: k <= i < e - 4 ==> m[i] != 0
    ensures Scan(m, k) == Some(e)
    decreases e - k
  {
    if k != e - 1 {
      ScanFinds(m, k + 4, e);
    }
  }

  lemma {:induction false} TextIsRead(m: bytes, p: nat, s: CString)
    requires p + |s| < |m| && m[p..p + |s|] == s && m[p + |s|] == 0
    ensures CStringAt(m, p) == s
    decreases |s|
  {
    if s != [] {
      assert m[p] == m[p..p + |s|][0] && m[p + 1..p + |s|] == m[p..p + |s|][1..];
      TextIsRead(m, p + 1, s[1..]);
    }
  }

  lemma PaddedAt(m: bytes, p: nat, s: CString, i: nat)
    requires Has(m, p, Str4(s)) && i < |Str4(s)|
    ensures m[p + i] == if i < |s| then s[i] else 0
    ensures i < |s| ==> s[i] != 0
  {
    HasAt(m, p, Str4(s), i);
    assert i < |s| ==> s[i] in s;
  }

  /** The search for the boundary behind a padded string. */
  lemma PaddedIsFound(m: bytes, p: nat, s: CString)
    requires Has(m, p, Str4(s))
    ensures Str4End(m, p) == Some(p + |Str4(s)|)
  {
    hide Str4, Has;
    assert p + |Str4(s)| <= |m| by { HasFits(m, p, Str4(s)); }
    var e := p + |Str4(s)|;
    PaddedAt(m, p, s, 0);
    if s != [] {
      PaddedAt(m, p, s, |Str4(s)| - 1);
      forall i | p + 3 <= i < e - 4
        ensures m[i] != 0
      {
        PaddedAt(m, p, s, i - p);
      }
      ScanFinds(m, p + 3, e);
    }
  }

  lemma HasFits(m: bytes, p: nat, x: bytes)
    requires Has(m, p, x)
    ensures p + |x| <= |m|
  {
  }

  /** A padded string is read back, and the next 4-byte boundary is found. */
  lemma StringIsRead(m: bytes, p: nat, s: CString)
    requires Has(m, p, Str4(s))
    ensures Str4End(m, p) == Some(p + |Str4(s)|) && CStringAt(m, p) == s
  {
    hide Str4End;
    PaddedIsFound(m, p, s);
    HasParts(m, p, s, Zeros(RoundUp4(|s| + 1) - |s|));
    PaddedAt(m, p, s, |s|);
    TextIsRead(m, p, s);
  }

  // ---------- arguments ----------

  /** A sign-extended char is recovered from the low byte. */
  lemma CharIsRead(c: byte)
    ensures FromBE4(BE4(Unsigned32(Promoted(c)))) % 256 == c
  {
    hide BE4, FromBE4;
    RoundTrip4(Unsigned32(Promoted(c)));
  }

  lemma BlobIsRead(m: bytes, pos: nat, d: bytes, w: bytes)
    requires |w| == 4 && FromBE4(w) == |d| && Has(m, pos, w + d + Zeros(RoundUp4(|d|) - |d|))
    ensures Checked(m, BLOB_TAG, pos) == Next.At(pos + 4 + RoundUp4(|d|))
    ensures ReadArg(m, BLOB_TAG, pos) == Blob(d)
  {
    hide FromBE4, RoundUp4;
    HasParts(m, pos, w + d, Zeros(RoundUp4(|d|) - |d|));
    HasParts(m, pos, w, d);
  }

  lemma WordIsRead(m: bytes, pos: nat, a: Arg, w: bytes)
    requires |w| == 4 && FourTag(Tag(a)) && Has(m, pos, w)
    ensures Checked(m, Tag(a), pos) == Next.At(pos + 4) && m[pos..pos + 4] == w
  {
  }

  lemma LongIsRead(m: bytes, pos: nat, a: Arg, w: bytes)
    requires |w| == 8 && EightTag(Tag(a)) && Has(m, pos, w)
    ensures Checked(m, Tag(a), pos) == Next.At(pos + 8) && m[pos..pos + 8] == w
  {
  }

  /** Every 32-bit and 64-bit value is read back from its bytes. */
  lemma NumbersAreRead(a: Arg)
    ensures match a
            case Int32(i) => FromBE4(ArgBytes(a)) == Unsigned32(i)
            case Float(x) => FromBE4(ArgBytes(a)) == x
            case Char(c) => FromBE4(ArgBytes(a)) % 256 == c
            case RgbaColor(x) => FromBE4(ArgBytes(a)) == x
            case MidiMessage(x) => FromBE4(ArgBytes(a)) == x
            case Int64(h) => FromBE8(ArgBytes(a)) == Unsigned64(h)
            case TimeTag(x) => FromBE8(ArgBytes(a)) == x
            case Double(x) => FromBE8(ArgBytes(a)) == x
            case _ => true
  {
    hide BE4, BE8, FromBE4, FromBE8;
    match a
    case Int32(i) => RoundTrip4(Unsigned32(i));
    case Float(x) => RoundTrip4(x);
    case Char(c) => CharIsRead(c);
    case RgbaColor(x) => RoundTrip4(x);
    case MidiMessage(x) => RoundTrip4(x);
    case Int64(h) => RoundTrip8(Unsigned64(h));
    case TimeTag(x) => RoundTrip8(x);
    case Double(x) => RoundTrip8(x);
    case _ =>
  }

  lemma ArgIsRead(m: bytes, pos: nat, a: Arg)
    requires Has(m, pos, ArgBytes(a)) && |m| < 0x1_0000_0000
    ensures Checked(m, Tag(a), pos) == Next.At(pos + |ArgBytes(a)|)
    ensures ReadArg(m, Tag(a), pos) == a
  {
    hide BE4, BE8, FromBE4, FromBE8, Str4, Str4End, CStringAt;
    NumbersAreRead(a);
    if FourTag(Tag(a)) {
      WordIsRead(m, pos, a, ArgBytes(a));
    } else if EightTag(Tag(a)) {
      LongIsRead(m, pos, a, ArgBytes(a));
    }
    match a
    case Str(s) => StringIsRead(m, pos, s);
    case Symbol(s) => StringIsRead(m, pos, s);
    case Blob(d) =>
      HasFits(m, pos, ArgBytes(a));
      RoundTrip4(|d|);
      BlobIsRead(m, pos, d, BE4(|d|));
    case _ =>
  }

  lemma {:induction false} ArgsBytesCons(a: Arg, rest: seq<Arg>)
    ensures ArgsBytes([a] + rest) == ArgBytes(a) + ArgsBytes(rest)
    decreases |rest|
  {
    hide ArgBytes;
    var all := [a] + rest;
    if rest == [] {
      assert all[..|all| - 1] == [];
    } else {
      var n := |rest| - 1;
      assert all[..|all| - 1] == [a] + rest[..n];
      ArgsBytesCons(a, rest[..n]);
    }
  }

  function Values(args: seq<Arg>): seq<Reading> {
    if args == [] then [] else [Value(args[0])] + Values(args[1..])
  }

  lemma TagsCons(args: seq<Arg>)
    requires args != []
    ensures Tags(args) + [0] == [Tag(args[0])] + (Tags(args[1..]) + [0])
  {
    hide Tag;
  }

  /** Tags and arguments written for a list are walked and read back as that list. */
  lemma {:induction false} ArgsAreRead(m: bytes, t: nat, pos: nat, args: seq<Arg>)
    requires Aligned(|m|) && Aligned(pos) && |m| < 0x1_0000_0000
    requires Has(m, t, Tags(args) + [0]) && Has(m, pos, ArgsBytes(args))
    ensures WalkTags(m, t, pos).Walked? && WalkTags(m, t, pos).end == t + |args|
    ensures BlobsFit(m, t, pos) && ReadArgs(m, t, pos) == Values(args)
    decreases |args|
  {
    hide Checked, ReadArg, ArgBytes, ArgsBytes, Tag, Aligned;
    HasAt(m, t, Tags(args) + [0], 0);
    if args != [] {
      var a, rest := args[0], args[1..];
      TagsCons(args);
      assert args == [a] + rest;
      HasParts(m, t, [Tag(a)], Tags(rest) + [0]);
      ArgsBytesCons(a, rest);
      HasParts(m, pos, ArgBytes(a), ArgsBytes(rest));
      ArgIsRead(m, pos, a);
      CheckedStaysAligned(m, Tag(a), pos);
      ArgsAreRead(m, t + 1, pos + |ArgBytes(a)|, rest);
    }
  }

  // ---------- messages ----------

  /** What a listener should be told about a message. */
  function Telling(addr: CString, args: seq<Arg>): Received { Received(addr, Tags(args), Values(args)) }

  lemma HasAll(m: bytes, x: bytes, y: bytes, z: bytes)
    requires m == x + y + z
    ensures Has(m, 0, x) && Has(m, |x|, y) && Has(m, |x| + |y|, z)
  {
    assert Has(m, 0, x + y + z);
    HasParts(m, 0, x + y, z);
    HasParts(m, 0, x, y);
  }

  /** A tag string begins with the comma and holds the tags and a NUL. */
  lemma TagStringHolds(m: bytes, t: nat, args: seq<Arg>)
    requires Has(m, t, TagString(args))
    ensures m[t] == COMMA && Has(m, t + 1, Tags(args) + [0])
    ensures Str4End(m, t) == Some(t + |TagString(args)|)
  {
    hide RoundUp4, Str4End, CStringAt;
    var s := [COMMA] + Tags(args);
    assert 0 !in s;
    StringIsRead(m, t, s);
    var zeros := Zeros(|Str4(s)| - |s|);
    assert Str4(s) == [COMMA] + (Tags(args) + [0]) + zeros[1..];
    HasParts(m, t, [COMMA] + (Tags(args) + [0]), zeros[1..]);
    HasParts(m, t, [COMMA], Tags(args) + [0]);
  }

  /** The decoder accepts every encoded message and finds tags and arguments where they were put. */
  lemma MessageIsAccepted(addr: CString, args: seq<Arg>)
    requires |MessageBytes(addr, args)| < 0x1_0000_0000
    ensures
      var m, t := MessageBytes(addr, args), |Str4(addr)|;
      var pos := t + |TagString(args)|;
      && Aligned(|m|) && Aligned(pos) && CStringAt(m, 0) == addr
      && Has(m, t + 1, Tags(args) + [0]) && Has(m, pos, ArgsBytes(args))
      && Validate(m) == Accepted(if args == [] then NoArguments else Tagged(t + 1, t + 1 + |args|, pos))
  {
    hide Validate, Str4End, CStringAt, WalkTags, TagString, Str4, ArgsBytes, BlobsFit, ReadArgs, Aligned;
    var m, t := MessageBytes(addr, args), |Str4(addr)|;
    var pos := t + |TagString(args)|;
    MessageBytesAligned(addr, args);
    Str4Aligned(addr);
    assert m == Str4(addr) + TagString(args) + ArgsBytes(args);
    HasAll(m, Str4(addr), TagString(args), ArgsBytes(args));
    StringIsRead(m, 0, addr);
    TagStringHolds(m, t, args);
    HasAt(m, t + 1, Tags(args) + [0], 0);
    AlignedSum(t, |TagString(args)|);
    TagStringAligned(args);
    ArgsAreRead(m, t + 1, pos, args);
    AcceptsIfWalked(m, |args|, t, pos);
  }

  lemma Str4Aligned(s: bytes)
    ensures Aligned(|Str4(s)|) && |Str4(s)| >= 4
  {
  }

  lemma TagStringAligned(args: seq<Arg>)
    ensures Aligned(|TagString(args)|)
  {
    hide Str4;
  }

  lemma AcceptsIfWalked(m: bytes, n: nat, t: nat, pos: nat)
    requires Aligned(|m|) && Str4End(m, 0) == Some(t) && t + 1 < |m| && m[t] == COMMA
    requires m[t + 1] != 0 <==> n > 0
    requires n > 0 ==> Str4End(m, t) == Some(pos) && WalkTags(m, t + 1, pos).Walked? && WalkTags(m, t + 1, pos).end == t + 1 + n
    ensures Validate(m) == Accepted(if n == 0 then NoArguments else Tagged(t + 1, t + 1 + n, pos))
  {
    hide WalkTags, Str4End;
  }

  lemma MessageIsReceived(addr: CString, args: seq<Arg>)
    requires |MessageBytes(addr, args)| < 0x1_0000_0000
    ensures ProcessMessage(MessageBytes(addr, args)) == Outcome([Telling(addr, args)], None)
  {
    hide MessageBytes, Validate, WalkTags, BlobsFit, ReadArgs, CStringAt, TagString, Str4, ArgsBytes, Tags, Values,
      Aligned, ProcessMessage;
    MessageIsAccepted(addr, args);
    var m, t := MessageBytes(addr, args), |Str4(addr)|;
    var pos := t + |TagString(args)|;
    AcceptedIsProcessed(m);
    if args != [] {
      ArgsAreRead(m, t + 1, pos, args);
      HasParts(m, t + 1, Tags(args), [0]);
    } else {
      NothingTold();
    }
  }

  lemma NothingTold()
    ensures Tags([]) == [] && Values([]) == []
  {
  }

  lemma AcceptedIsProcessed(m: bytes)
    requires Validate(m).Accepted?
    ensures
      var v := Validate(m).view;
      ValidView(m, v) &&
      ProcessMessage(m) ==
      Outcome([if v.NoArguments? then Received(CStringAt(m, 0), [], [])
               else Received(CStringAt(m, 0), m[v.begin..v.end], ReadArgs(m, v.begin, v.arguments))], None)
  {
    hide Validate, WalkTags, ReadArgs, CStringAt;
    AcceptedViewIsValid(m);
  }

  // ---------- messages without a tag string ----------

  predicate PlainAddress(addr: bytes) { addr == [] || addr[0] != HASH }

  lemma AddressIsFound(m: bytes, addr: CString, rest: bytes)
    requires m == Str4(addr) + rest
    ensures Str4End(m, 0) == Some(|Str4(addr)|) && CStringAt(m, 0) == addr
    ensures IsBundle(m) <==> !PlainAddress(addr)
  {
    assert m[..|Str4(addr)|] == Str4(addr);
    assert Has(m, 0, Str4(addr));
    assert m[0] == Str4(addr)[0];
    hide Str4End, CStringAt, Has;
    StringIsRead(m, 0, addr);
  }

  /** A message that is only an address is delivered without arguments. */
  lemma AddressAloneIsReceived(addr: CString)
    requires PlainAddress(addr)
    ensures Process(Str4(addr)) == Outcome([Received(addr, [], [])], None)
  {
    assert Str4(addr) + [] == Str4(addr);
    AddressIsFound(Str4(addr), addr, []);
    Str4Aligned(addr);
    hide Str4, Str4End, CStringAt, WalkTags;
  }

  /** Anything but a comma behind the address is refused. */
  lemma NoCommaIsRefused(addr: CString, rest: bytes)
    requires PlainAddress(addr) && rest != [] && Aligned(|rest|) && rest[0] != COMMA
    ensures Process(Str4(addr) + rest) == Outcome([], Some(NoTypeTags))
  {
    hide Str4, Str4End, CStringAt, Process, RoundUp4;
    var m := Str4(addr) + rest;
    AddressIsFound(m, addr, rest);
    Str4Aligned(addr);
    AlignedSum(|Str4(addr)|, |rest|);
    assert m[|Str4(addr)|] == rest[0] && |m| == |Str4(addr)| + |rest|;
    RefusedAt(m, |Str4(addr)|);
  }

  lemma RefusedAt(m: bytes, t: nat)
    requires Aligned(|m|) && !IsBundle(m) && Str4End(m, 0) == Some(t) && t < |m| && m[t] != COMMA
    ensures Process(m) == Outcome([], Some(NoTypeTags))
  {
    hide Str4End, WalkTags, CStringAt;
  }

  // ---------- bundles ----------

  function Encs(elems: seq<Element>): seq<bytes> {
    if elems == [] then [] else [Enc(elems[0])] + Encs(elems[1..])
  }

  lemma {:induction false} EncAllCons(e: Element, rest: seq<Element>)
    ensures EncAll([e] + rest) == BE4(|Enc(e)|) + Enc(e) + EncAll(rest)
    decreases |rest|
  {
    hide Enc, BE4;
    var all := [e] + rest;
    if rest == [] {
      assert all[..|all| - 1] == [];
    } else {
      var n := |rest| - 1;
      assert all[..|all| - 1] == [e] + rest[..n];
      EncAllCons(e, rest[..n]);
    }
  }

  /** What EncAll writes is the encoded elements, each behind its length. */
  lemma {:induction false} EncAllTiles(elems: seq<Element>)
    ensures EncAll(elems) == Tiles(Encs(elems))
    decreases |elems|
  {
    hide Enc, BE4;
    if elems != [] {
      EncAllTiles(elems[1..]);
      assert elems == [elems[0]] + elems[1..];
      EncAllCons(elems[0], elems[1..]);
      TilesCons(Enc(elems[0]), Encs(elems[1..]));
    }
  }

  lemma {:induction false} EncsFit(elems: seq<Element>)
    requires |EncAll(elems)| < 0x1_0000_0000
    ensures OscBundles.AllFit(Encs(elems))
    decreases |elems|
  {
    hide Enc, EncAll, BE4, OscBundles.AllFit;
    if elems == [] {
      OscBundles.NothingFits();
    } else {
      assert elems == [elems[0]] + elems[1..];
      EncAllCons(elems[0], elems[1..]);
      EncAligned(elems[0]);
      EncsFit(elems[1..]);
      OscBundles.AllFitUnfolds(Encs(elems));
    }
  }

  lemma BundleIsSplit(t: uint64, elems: seq<Element>)
    requires |Enc(Bundle(t, elems))| < 0x1_0000_0000
    ensures IsBundle(Enc(Bundle(t, elems))) && SplitBundle(Enc(Bundle(t, elems))) == Elements(Encs(elems))
  {
    hide EncAll, SplitFrom, BE8, Tiles, OscBundles.AllFit, OscBundles.Words, OscBundles.TilesWith, OscBundles.StandAt,
      OscBundles.Mean;
    var m := Enc(Bundle(t, elems));
    assert m == BUNDLE_HEAD + BE8(t) + EncAll(elems);
    assert m[..8] == BUNDLE_HEAD && m[16..] == EncAll(elems) && m[0] == BUNDLE_HEAD[0];
    EncAligned(Bundle(t, elems));
    EncAllTiles(elems);
    EncsFit(elems);
    OscBundles.TilesAreWords(Encs(elems));
    OscBundles.WordsMean(Encs(elems));
    OscBundles.TiledStand(m, 16, OscBundles.Words(Encs(elems)), Encs(elems));
    OscBundles.SplitsExactlyAsTheyStand(m, 16, Encs(elems));
  }

  // ---------- the round trip ----------

  /** The messages of a packet, in order. */
  function Messages(e: Element): seq<Received>
    decreases e, 1
  {
    match e
    case Message(addr, args) => [Telling(addr, args)]
    case Bundle(_, elems) => MessagesOf(elems)
  }

  function MessagesOf(elems: seq<Element>): seq<Received>
    decreases elems, 0
  {
    if elems == [] then [] else Messages(elems[0]) + MessagesOf(elems[1..])
  }

  /** No message in the packet has an address that starts with '#'. */
  predicate Clean(e: Element)
    decreases e, 1
  {
    match e
    case Message(addr, _) => PlainAddress(addr)
    case Bundle(_, elems) => AllClean(elems)
  }

  predicate AllClean(elems: seq<Element>)
    decreases elems, 0
  {
    elems == [] || (Clean(elems[0]) && AllClean(elems[1..]))
  }

  lemma MessageStart(addr: CString, args: seq<Arg>)
    ensures IsBundle(MessageBytes(addr, args)) <==> !PlainAddress(addr)
  {
    hide TagString, ArgsBytes;
    var m := MessageBytes(addr, args);
    assert m[0] == Str4(addr)[0];
  }

  lemma {:induction false} CleanPacketIsDelivered(e: Element)
    requires Clean(e) && |Enc(e)| < 0x1_0000_0000
    ensures Process(Enc(e)) == Outcome(Messages(e), None)
    decreases e, 1
  {
    hide MessageBytes, SplitBundle, ProcessAll, EncAll, MessagesOf, AllClean, ProcessMessage;
    match e
    case Message(addr, args) =>
      MessageStart(addr, args);
      MessageIsReceived(addr, args);
    case Bundle(t, elems) =>
      BundleIsSplit(t, elems);
      ProcessUnfolds(Enc(e));
      CleanElementsAreDelivered(elems, |Enc(e)|);
  }

  lemma {:induction false} CleanElementsAreDelivered(elems: seq<Element>, bound: nat)
    requires AllClean(elems) && AllBelow(Encs(elems), bound) && bound < 0x1_0000_0000
    ensures ProcessAll(Encs(elems), bound) == Outcome(MessagesOf(elems), None)
    decreases elems, 0
  {
    hide Process, Enc, Clean, Messages;
    if elems != [] {
      assert Encs(elems)[1..] == Encs(elems[1..]) && Encs(elems)[0] == Enc(elems[0]);
      CleanPacketIsDelivered(elems[0]);
      CleanElementsAreDelivered(elems[1..], bound);
    }
  }

  predicate AllPlain(ms: seq<Received>) {
    forall i :: 0 <= i < |ms| ==> PlainAddress(ms[i].addr)
  }

  lemma AllPlainAppend(a: seq<Received>, b: seq<Received>)
    ensures AllPlain(a + b) <==> AllPlain(a) && AllPlain(b)
  {
    if AllPlain(a + b) {
      forall i | 0 <= i < |a|
        ensures PlainAddress(a[i].addr)
      {
        assert (a + b)[i] == a[i];
      }
      forall i | 0 <= i < |b|
        ensures PlainAddress(b[i].addr)
      {
        assert (a + b)[|a| + i] == b[i];
      }
    }
  }

  /** On any bytes: no message whose address starts with '#' is ever delivered. */
  lemma {:induction false} OnlyPlainIsDelivered(m: bytes)
    ensures AllPlain(Process(m).delivered)
    decreases |m|, 1, 0
  {
    if IsBundle(m) {
      hide SplitBundle, ProcessAll, AllBelow;
      if SplitBundle(m).Elements? {
        ProcessUnfolds(m);
        OnlyPlainIsDeliveredFrom(SplitBundle(m).contents, |m|);
      }
    } else {
      hide Validate, BlobsFit, ReadArgs;
    }
  }

  lemma {:induction false} OnlyPlainIsDeliveredFrom(es: seq<bytes>, bound: nat)
    requires AllBelow(es, bound)
    ensures AllPlain(ProcessAll(es, bound).delivered)
    decreases bound, 0, |es|
  {
    hide Process, AllPlain;
    if es == [] {
      assert AllPlain([]) by { NoneIsPlain(); }
    } else {
      OnlyPlainIsDelivered(es[0]);
      OnlyPlainIsDeliveredFrom(es[1..], bound);
      AllPlainAppend(Process(es[0]).delivered, ProcessAll(es[1..], bound).delivered);
    }
  }

  lemma NoneIsPlain()
    ensures AllPlain([])
  {
  }

  lemma {:induction false} CleanExactlyIfMessagesPlain(e: Element)
    ensures Clean(e) <==> AllPlain(Messages(e))
    decreases e, 1
  {
    match e
    case Message(addr, args) => assert Messages(e)[0].addr == addr;
    case Bundle(_, elems) => AllCleanExactlyIfMessagesPlain(elems);
  }

  lemma {:induction false} AllCleanExactlyIfMessagesPlain(elems: seq<Element>)
    ensures AllClean(elems) <==> AllPlain(MessagesOf(elems))
    decreases elems, 0
  {
    hide AllPlain, Clean, Messages;
    if elems == [] {
      NoneIsPlain();
    } else {
      CleanExactlyIfMessagesPlain(elems[0]);
      AllCleanExactlyIfMessagesPlain(elems[1..]);
      AllPlainAppend(Messages(elems[0]), MessagesOf(elems[1..]));
    }
  }

  /** Every packet tree is delivered as its messages, in order, with the same addresses, tags and
      argument values, exactly when no address starts with '#'. */
  lemma DeliveredExactlyIfClean(e: Element)
    requires |Enc(e)| < 0x1_0000_0000
    ensures Process(Enc(e)) == Outcome(Messages(e), None) <==> Clean(e)
  {
    hide Process, Enc, Messages, Clean, AllPlain;
    if Clean(e) {
      CleanPacketIsDelivered(e);
    } else {
      OnlyPlainIsDelivered(Enc(e));
      CleanExactlyIfMessagesPlain(e);
    }
  }
}
