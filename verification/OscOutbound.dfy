/**
 * oscpack's OutboundPacketStream: arguments written upward and type tags
 * downward in one buffer, a stack of open elements threaded through the size
 * slots of that same buffer, and compaction at the end of each message.
 */
module OscOutbound {
  import opened Bytes
  import opened OscFormat
  import opened OscDocument

  datatype Status = Ok | OutOfBufferMemory | MessageInProgress | MessageNotInProgress | BundleNotInProgress

  // ---------- writing in a buffer ----------

  function Splice(b: bytes, at: nat, s: bytes): (r: bytes)
    requires at + |s| <= |b|
    ensures |r| == |b|
  {
    b[..at] + s + b[at + |s|..]
  }

  lemma SpliceKeeps(b: bytes, at: nat, s: bytes)
    requires at + |s| <= |b|
    ensures Splice(b, at, s)[..at + |s|] == b[..at] + s
    ensures Splice(b, at, s)[at + |s|..] == b[at + |s|..]
    ensures Splice(b, at, s)[..at] == b[..at]
  {
  }

  /** memcpy, strcpy and the From* functions: `s` is stored at `at`. */
  method Put(data: array<byte>, at: nat, s: bytes)
    requires at + |s| <= data.Length
    modifies data
    ensures data[..] == Splice(old(data[..]), at, s)
  {
    ghost var b := data[..];
    for i := 0 to |s|
      invariant data[..] == Splice(b, at, s[..i])
    {
      assert Splice(b, at, s[..i])[at + i := s[i]] == Splice(b, at, s[..i + 1]);
      data[at + i] := s[i];
    }
    assert s[..|s|] == s;
  }

  lemma SpliceTwice(b: bytes, at: nat, x: bytes, y: bytes)
    requires at + |x| + |y| <= |b|
    ensures Splice(Splice(b, at, x), at + |x|, y) == Splice(b, at, x + y)
  {
  }

  /** Of the numbers from x to RoundUp4(x), the last alone is a multiple of four. */
  lemma FirstAligned(x: nat, i: nat)
    requires x <= i <= RoundUp4(x)
    ensures Aligned(i) <==> i == RoundUp4(x)
  {
  }

  lemma PadStep(b: bytes, at: nat, n: nat)
    requires at + n < |b|
    ensures Splice(b, at, Zeros(n))[at + n := 0] == Splice(b, at, Zeros(n + 1))
  {
    assert Zeros(n + 1) == Zeros(n) + [0];
  }

  /** The padding loop that follows every string and blob. */
  method Pad(data: array<byte>, at: nat, length: nat) returns (next: nat)
    requires at + RoundUp4(length) - length <= data.Length
    modifies data
    ensures data[..] == Splice(old(data[..]), at, Zeros(RoundUp4(length) - length))
    ensures next == at + RoundUp4(length) - length
  {
    ghost var b, total := data[..], RoundUp4(length);
    var i := length;
    next := at;
    assert Splice(b, at, Zeros(0)) == b;
    FirstAligned(length, i);
    hide RoundUp4, Splice, Zeros, Aligned;
    while !Aligned(i)
      invariant length <= i <= total && next == at + (i - length)
      invariant Aligned(i) <==> i == total
      invariant data[..] == Splice(b, at, Zeros(i - length))
      decreases total - i
    {
      PadStep(b, at, i - length);
      data[next] := 0;
      next, i := next + 1, i + 1;
      FirstAligned(length, i);
    }
  }

  /** strcpy and padding. */
  method PutString(data: array<byte>, at: nat, s: CString) returns (next: nat)
    requires at + |Str4(s)| <= data.Length
    modifies data
    ensures data[..] == Splice(old(data[..]), at, Str4(s)) && next == at + |Str4(s)|
  {
    hide Splice;
    ghost var b := data[..];
    Put(data, at, s + [0]);
    next := Pad(data, at + |s| + 1, |s| + 1);
    ghost var zeros := Zeros(RoundUp4(|s| + 1) - (|s| + 1));
    SpliceTwice(b, at, s + [0], zeros);
    assert s + [0] + zeros == Str4(s);
  }

  /** A blob's length word, data and padding. */
  method PutBlob(data: array<byte>, at: nat, d: bytes) returns (next: nat)
    requires at + |ArgBytes(Blob(d))| <= data.Length
    modifies data
    ensures data[..] == Splice(old(data[..]), at, ArgBytes(Blob(d))) && next == at + |ArgBytes(Blob(d))|
  {
    hide BE4, Splice, Zeros;
    ghost var b := data[..];
    Put(data, at, BE4(|d|));
    Put(data, at + 4, d);
    SpliceTwice(b, at, BE4(|d|), d);
    next := Pad(data, at + 4 + |d|, |d|);
    SpliceTwice(b, at, BE4(|d|) + d, Zeros(RoundUp4(|d|) - |d|));
  }

  method PutBundleHead(data: array<byte>, at: nat, t: uint64)
    requires at + 16 <= data.Length
    modifies data
    ensures data[..] == Splice(old(data[..]), at, BUNDLE_HEAD + BE8(t))
  {
    hide Splice, BE8;
    ghost var b := data[..];
    Put(data, at, BUNDLE_HEAD);
    Put(data, at + 8, BE8(t));
    SpliceTwice(b, at, BUNDLE_HEAD, BE8(t));
  }

  lemma MoveStep(b: bytes, dst: nat, src: nat, n: nat, i: nat)
    requires src <= dst && dst + n <= |b| && i < n
    ensures
      var now := Splice(b, dst + i + 1, b[src + i + 1..src + n]);
      now[src + i] == b[src + i] && now[dst + i := b[src + i]] == Splice(b, dst + i, b[src + i..src + n])
  {
    assert b[src + i..src + n] == [b[src + i]] + b[src + i + 1..src + n];
  }

  /** memmove to a higher address, the regions overlapping: copied from the top down. */
  method MoveUp(data: array<byte>, dst: nat, src: nat, n: nat)
    requires src <= dst && dst + n <= data.Length
    modifies data
    ensures data[..] == Splice(old(data[..]), dst, old(data[..])[src..src + n])
  {
    ghost var b := data[..];
    assert Splice(b, dst + n, b[src + n..src + n]) == b;
    hide Splice;
    for i := n downto 0
      invariant data[..] == Splice(b, dst + i, b[src + i..src + n])
    {
      MoveStep(b, dst, src, n, i);
      assert data[src + i] == data[..][src + i];
      data[dst + i] := data[src + i];
    }
  }

  function Reversed(s: bytes): (r: bytes)
    ensures |r| == |s| && forall i :: 0 <= i < |s| ==> r[i] == s[|s| - 1 - i]
  {
    seq(|s|, i requires 0 <= i < |s| => s[|s| - 1 - i])
  }

  lemma ReversedTwice(s: bytes)
    ensures Reversed(Reversed(s)) == s
  {
  }

  // ---------- what the buffer holds ----------

  /** The buffer and pointers of a stream that has been told `d`. */
  predicate Holds(b: bytes, typeTags: nat, cursor: nat, argument: nat, slot: Option<nat>, d: Doc) {
    if d.msg.None? then
      && typeTags == |b| && argument == cursor == |Layout(d.sent, d.frames)| <= |b|
      && b[..cursor] == Layout(d.sent, d.frames)
      && slot == (if d.frames == [] then None else Some(SlotOf(d.sent, d.frames)))
    else
      var args := d.msg.value.args;
      && cursor == |Opening(d)| && argument == cursor + |ArgsBytes(args)|
      && argument + RoundUp4(|args| + 2) <= |b|
      && b[..argument] == Opening(d) + ArgsBytes(args)
      && typeTags == |b| - |args| && b[typeTags..] == Reversed(Tags(args))
      && slot == Some(if d.frames == [] then 0 else |Layout(d.sent, d.frames)|)
  }

  /** The end of an element: the slot's offset gives way to the element's length. */
  lemma SlotClosed(b: bytes, L: bytes, w: bytes, x: bytes, v: bytes)
    requires |w| == |v| == 4 && |L| + 4 + |x| <= |b|
    requires b[..|L| + 4 + |x|] == L + w + x
    ensures b[|L|..|L| + 4] == w
    ensures Splice(b, |L|, v)[..|L| + 4 + |x|] == L + v + x
  {
    hide Splice;
    var l, n, b' := |L|, |L| + 4 + |x|, Splice(b, |L|, v);
    TwoParts(b, L + w, x);
    TwoParts(b, L, w);
    SpliceParts(b, l, v);
    assert b'[l + 4..n] == b'[l + 4..][..|x|] && b[l + 4..n] == b[l + 4..][..|x|];
    ThreeParts(b', l, l + 4, n);
  }

  // ---------- pure steps of the operations ----------

  lemma ElementBegun(b: bytes, typeTags: nat, cursor: nat, argument: nat, slot: Option<nat>, d: Doc, b': bytes)
    requires d.msg.None? && Holds(b, typeTags, cursor, argument, slot, d)
    requires slot.Some? ==> cursor + 4 <= |b|
    requires b' == if slot.None? then b else Splice(b, cursor, LE4(slot.value))
    ensures
      var next := if slot.None? then cursor else cursor + 4;
      next <= |b'| == |b| && b'[..next] == Layout(d.sent, d.frames) + SlotBytes(d.sent, d.frames)
  {
    hide Layout, LE4, Splice;
    if slot.Some? {
      SpliceKeeps(b, cursor, LE4(slot.value));
    } else {
      assert Layout(d.sent, d.frames) + [] == Layout(d.sent, d.frames);
    }
  }

  lemma BundleBegun(b: bytes, next: nat, d: Doc, t: uint64, b': bytes)
    requires d.msg.None? && next + 16 <= |b|
    requires b[..next] == Layout(d.sent, d.frames) + SlotBytes(d.sent, d.frames)
    requires b' == Splice(b, next, BUNDLE_HEAD + BE8(t))
    ensures
      var d' := BeginBundle(d, t);
      Holds(b', |b'|, next + 16, next + 16,
            Some(if d.frames == [] then 0 else |Layout(d.sent, d.frames)|), d')
  {
    hide Layout, BE8, Splice, SlotBytes, SlotOf;
    SpliceKeeps(b, next, BUNDLE_HEAD + BE8(t));
    LayoutOfBeginBundle(d, t);
  }

  lemma MessageBegun(b: bytes, next: nat, d: Doc, addr: CString, b': bytes)
    requires d.msg.None? && next + |Str4(addr)| + 4 <= |b|
    requires b[..next] == Layout(d.sent, d.frames) + SlotBytes(d.sent, d.frames)
    requires b' == Splice(b, next, Str4(addr))
    ensures
      var cursor := next + |Str4(addr)|;
      Holds(b', |b'|, cursor, cursor,
            Some(if d.frames == [] then 0 else |Layout(d.sent, d.frames)|), BeginMessage(d, addr))
  {
    hide Layout, Str4, Splice, SlotBytes;
    SpliceKeeps(b, next, Str4(addr));
    var d' := BeginMessage(d, addr);
    assert b'[..next + |Str4(addr)|] == Opening(d');
    assert Opening(d') + ArgsBytes([]) == Opening(d');
    assert b'[|b'|..] == [] == Reversed(Tags([]));
  }

  lemma TagsGrow(args: seq<Arg>, a: Arg)
    ensures Reversed(Tags(args + [a])) == [Tag(a)] + Reversed(Tags(args))
    ensures ArgsBytes(args + [a]) == ArgsBytes(args) + ArgBytes(a)
  {
    hide ArgBytes;
    assert (args + [a])[..|args|] == args;
  }

  lemma ArgAdded(b: bytes, typeTags: nat, cursor: nat, argument: nat, slot: Option<nat>, d: Doc, a: Arg, b': bytes)
    requires d.msg.Some? && Holds(b, typeTags, cursor, argument, slot, d)
    requires argument + |ArgBytes(a)| + RoundUp4(|d.msg.value.args| + 3) <= |b|
    requires b' == Splice(b[typeTags - 1 := Tag(a)], argument, ArgBytes(a))
    ensures Holds(b', typeTags - 1, cursor, argument + |ArgBytes(a)|, slot, AddArg(d, a))
  {
    hide Opening, ArgBytes, ArgsBytes, Tag, Splice, Layout;
    var args, w := d.msg.value.args, ArgBytes(a);
    var mid := b[typeTags - 1 := Tag(a)];
    TagsGrow(args, a);
    SpliceKeeps(mid, argument, w);
    assert Opening(AddArg(d, a)) == Opening(d) by { OpeningOfAddArg(d, a); }
    assert mid[..argument] == b[..argument];
    Regrouped(Opening(d), ArgsBytes(args), w);
    var end := argument + |w|;
    assert end <= typeTags - 1;
    SameSuffix(mid, b', end, typeTags - 1);
    UpdateFirst(b, typeTags - 1, Tag(a));
  }

  lemma Regrouped(x: bytes, y: bytes, z: bytes)
    ensures x + y + z == x + (y + z)
  {
  }

  lemma SameSuffix(b: bytes, b': bytes, n: nat, m: nat)
    requires |b| == |b'| && n <= m <= |b| && b'[n..] == b[n..]
    ensures b'[m..] == b[m..]
  {
    assert b'[m..] == b'[n..][m - n..] && b[m..] == b[n..][m - n..];
  }

  lemma UpdateFirst(b: bytes, n: nat, x: byte)
    requires n < |b|
    ensures b[n := x][n..] == [x] + b[n + 1..]
  {
  }

  lemma OpeningOfAddArg(d: Doc, a: Arg)
    requires d.msg.Some?
    ensures Opening(AddArg(d, a)) == Opening(d)
  {
  }

  /** Moving A up and storing T in the gap turns P A into P T A. */
  lemma GapFilled(b: bytes, P: bytes, A: bytes, T: bytes)
    requires |P| + |A| + |T| <= |b| && b[..|P| + |A|] == P + A
    ensures b[|P|..|P| + |A|] == A
    ensures Splice(Splice(b, |P| + |T|, A), |P|, T)[..|P| + |T| + |A|] == P + T + A
  {
    hide Splice;
    var p, t, n := |P|, |P| + |T|, |P| + |T| + |A|;
    var mid := Splice(b, t, A);
    var b' := Splice(mid, p, T);
    TwoParts(b, P, A);
    SpliceParts(b, t, A);
    SpliceParts(mid, p, T);
    assert mid[..p] == mid[..t][..p] == b[..t][..p] == b[..p];
    assert b'[t..n] == b'[t..][..|A|] == mid[t..][..|A|] == mid[t..n];
    ThreeParts(b', p, t, n);
  }

  lemma SpliceParts(b: bytes, at: nat, s: bytes)
    requires at + |s| <= |b|
    ensures
      var r := Splice(b, at, s);
      r[..at] == b[..at] && r[at..at + |s|] == s && r[at + |s|..] == b[at + |s|..]
  {
  }

  lemma TwoParts(b: bytes, P: bytes, A: bytes)
    requires |P| + |A| <= |b| && b[..|P| + |A|] == P + A
    ensures b[..|P|] == P && b[|P|..|P| + |A|] == A
  {
    assert b[|P|..|P| + |A|] == b[..|P| + |A|][|P|..];
    assert b[..|P|] == b[..|P| + |A|][..|P|];
  }

  lemma ThreeParts(b: bytes, p: nat, t: nat, n: nat)
    requires p <= t <= n <= |b|
    ensures b[..n] == b[..p] + b[p..t] + b[t..n]
  {
  }

  /** What is laid out for saved tags: a comma, the tags the other way round, and padding. */
  function TagArea(tags: bytes): (r: bytes)
    ensures |r| == RoundUp4(|tags| + 2)
  {
    [COMMA] + Reversed(tags) + Zeros(RoundUp4(|tags| + 2) - |tags| - 1)
  }

  lemma TagSlot(args: seq<Arg>)
    ensures TagArea(Reversed(Tags(args))) == TagString(args)
  {
    ReversedTwice(Tags(args));
  }

  /** The compacted message: comma, tags in order, padding, then the arguments unchanged. */
  lemma MessageCompacted(b: bytes, typeTags: nat, cursor: nat, argument: nat, slot: Option<nat>, d: Doc, b': bytes)
    requires d.msg.Some? && cursor <= argument <= typeTags <= |b| && Holds(b, typeTags, cursor, argument, slot, d)
    requires
      var size := RoundUp4(|b| - typeTags + 2);
      && argument + size <= |b|
      && b' == Splice(Splice(b, cursor + size, b[cursor..argument]), cursor, TagArea(b[typeTags..]))
    ensures
      var e := Message(d.msg.value.addr, d.msg.value.args);
      var end := argument + RoundUp4(|b| - typeTags + 2);
      b'[..end] == Layout(d.sent, d.frames) + SlotBytes(d.sent, d.frames) + Enc(e)
  {
    hide Layout, ArgsBytes, Splice, SlotBytes, Str4, Tags, Reversed, TagArea;
    var args := d.msg.value.args;
    TagSlot(args);
    GapFilled(b, Opening(d), ArgsBytes(args), TagString(args));
    var pre, addr := Layout(d.sent, d.frames) + SlotBytes(d.sent, d.frames), Str4(d.msg.value.addr);
    assert pre + addr + TagString(args) + ArgsBytes(args) == pre + (addr + TagString(args) + ArgsBytes(args));
  }

  /** What EndElement does to the buffer and to the slot pointer. */
  function EndedBuffer(b: bytes, at: nat, end: nat): bytes
    requires at == 0 || (at + 4 <= end && end <= |b|)
  {
    if at == 0 then b else Splice(b, at, BE4(end - at - 4))
  }

  function EndedSlot(b: bytes, at: nat): Option<nat>
    requires at == 0 || at + 4 <= |b|
  {
    if at == 0 then None else Some(FromLE4(b[at..at + 4]))
  }

  lemma TopElementEnded(b: bytes, end: nat, d: Doc, e: Element)
    requires end <= |b| && d.msg.None? && d.frames == []
    requires end == |Layout(d.sent, d.frames)| + |Enc(e)| && b[..end] == Layout(d.sent, d.frames) + Enc(e)
    ensures Holds(b, |b|, end, end, None, AddElement(d, e))
  {
    hide Layout, Enc, SlotOf;
    LayoutOfAddElement(d, e);
    assert Layout(d.sent, d.frames) + [] + Enc(e) == Layout(d.sent, d.frames) + Enc(e);
  }

  lemma SlotIsBelow(d: Doc)
    requires d.frames != []
    ensures SlotOf(d.sent, d.frames) < |Layout(d.sent, d.frames)|
  {
    SlotSize(d.sent, d.frames);
    if |d.frames| > 1 {
      LayoutBeforeEndBundle(d);
      SlotSize(d.sent, d.frames[..|d.frames| - 1]);
    }
  }

  lemma NestedElementEnded(b: bytes, end: nat, d: Doc, e: Element, w: bytes)
    requires end <= |b| && d.msg.None? && d.frames != [] && |Layout(d.sent, d.frames)| > 0
    requires |w| == 4 && FromLE4(w) == SlotOf(d.sent, d.frames)
    requires end == |Layout(d.sent, d.frames)| + 4 + |Enc(e)|
    requires b[..end] == Layout(d.sent, d.frames) + w + Enc(e)
    ensures Holds(EndedBuffer(b, |Layout(d.sent, d.frames)|, end), |b|, end, end,
                  EndedSlot(b, |Layout(d.sent, d.frames)|), AddElement(d, e))
  {
    hide Layout, Enc, Splice, BE4, FromLE4, SlotOf;
    LayoutOfAddElement(d, e);
    SlotClosed(b, Layout(d.sent, d.frames), w, Enc(e), BE4(|Enc(e)|));
  }

  lemma ElementEnded(b: bytes, end: nat, d: Doc, e: Element)
    requires |b| < 0x1_0000_0000 && end <= |b|
    requires d.msg.None?
    requires b[..end] == Layout(d.sent, d.frames) + SlotBytes(d.sent, d.frames) + Enc(e)
    ensures
      var at := if d.frames == [] then 0 else |Layout(d.sent, d.frames)|;
      && (at == 0 || at + 4 <= end)
      && Holds(EndedBuffer(b, at, end), |b|, end, end, EndedSlot(b, at), AddElement(d, e))
  {
    hide Layout, Enc, SlotOf, Holds, EndedBuffer, EndedSlot, LE4, FromLE4;
    EndedAtTop(b, end);
    if d.frames == [] {
      assert Layout(d.sent, d.frames) + [] + Enc(e) == Layout(d.sent, d.frames) + Enc(e);
      assert end == |b[..end]|;
      TopElementEnded(b, end, d, e);
    } else {
      assert end == |b[..end]|;
      SlotIsBelow(d);
      RoundTripLE4(SlotOf(d.sent, d.frames));
      NestedElementEnded(b, end, d, e, LE4(SlotOf(d.sent, d.frames)));
    }
  }

  lemma EndedAtTop(b: bytes, end: nat)
    ensures EndedBuffer(b, 0, end) == b && EndedSlot(b, 0) == None
  {
  }

  // ---------- the stream ----------

  class OutboundPacketStream {
    const data: array<byte>
    var typeTags: nat        // typeTagsCurrent_; data.Length stands for end_
    var cursor: nat          // messageCursor_
    var argument: nat        // argumentCurrent_
    var slot: Option<nat>    // elementSizePtr_
    var messageOpen: bool    // messageIsInProgress_
    ghost var doc: Doc       // what the stream has been told

    ghost predicate Valid()
      reads this, data
    {
      && data.Length < 0x8000_0000
      && messageOpen == doc.msg.Some?
      && Holds(data[..], typeTags, cursor, argument, slot, doc)
    }

    constructor (buffer: array<byte>)
      requires buffer.Length < 0x8000_0000
      ensures Valid() && doc == Blank && data == buffer
    {
      data := buffer;
      typeTags, cursor, argument, slot, messageOpen := buffer.Length, 0, 0, None, false;
      doc := Blank;
      new;
      assert data[..0] == Layout([], []);
    }

    method Clear()
      requires Valid()
      modifies this
      ensures Valid() && doc == Blank
    {
      typeTags, cursor, argument, slot, messageOpen := data.Length, 0, 0, None, false;
      doc := Blank;
      assert data[..0] == Layout([], []);
    }

    function Size(): (n: nat)
      requires Valid()
      reads this, data
      ensures n == DocSize(doc) <= data.Length
    {
      argument + if messageOpen then RoundUp4(data.Length - typeTags + 2) else 0
    }

    /** Following the offsets in the open size slots from the slot pointer: a strictly decreasing
        chain down to 0 that visits exactly the open elements. */
    lemma OpenElementsFormChain()
      requires Valid()
      ensures IsChain(data[..], Slots(doc))
      ensures slot == if Slots(doc) == [] then None else Some(Slots(doc)[|Slots(doc)| - 1])
    {
      if messageOpen {
        assert data[..][..argument] <= data[..];
        assert Layout(doc.sent, doc.frames) + SlotBytes(doc.sent, doc.frames) <= Opening(doc) <= data[..][..argument];
      } else {
        assert Layout(doc.sent, doc.frames) + [] == Layout(doc.sent, doc.frames);
        assert data[..][..cursor] <= data[..];
      }
      hide Layout, SlotOf, SlotBytes;
      OpenSlotsFormChain(doc, data[..]);
    }

    /** BeginElement: an offset to the enclosing slot goes into the new one. */
    method BeginElement(at: nat) returns (next: nat)
      requires slot.Some? ==> at + 4 <= data.Length
      modifies this`slot, data
      ensures slot == Some(if old(slot).None? then 0 else at)
      ensures next == if old(slot).None? then at else at + 4
      ensures data[..] == if old(slot).None? then old(data[..]) else Splice(old(data[..]), at, LE4(old(slot).value))
    {
      if slot.None? {
        slot := Some(0);
        next := at;
      } else {
        Put(data, at, LE4(slot.value));
        slot := Some(at);
        next := at + 4;
      }
    }

    /** EndElement: the offset is followed and replaced by the element's length. */
    method EndElement(end: nat)
      requires slot.Some? && end <= data.Length && (slot.value == 0 || slot.value + 4 <= end)
      modifies this`slot, data
      ensures data[..] == EndedBuffer(old(data[..]), old(slot).value, end)
      ensures slot == EndedSlot(old(data[..]), old(slot).value)
    {
      hide FromLE4, BE4, Splice;
      if slot.value == 0 {
        slot := None;
      } else {
        var at := slot.value;
        assert data[at..at + 4] == data[..][at..at + 4];
        var previous := FromLE4(data[at..at + 4]);
        Put(data, at, BE4(end - at - 4));
        slot := Some(previous);
      }
    }

    /** operator<<( BundleInitiator ) */
    method BeginBundle(t: uint64) returns (r: Status)
      requires Valid()
      modifies this, data
      ensures Valid()
      ensures r == if old(messageOpen) then MessageInProgress
                   else if DocSize(OscDocument.BeginBundle(old(doc), t)) > data.Length then OutOfBufferMemory
                   else Ok
      ensures doc == if r.Ok? then OscDocument.BeginBundle(old(doc), t) else old(doc)
    {
      hide Holds, Layout, SlotOf, Splice, BE8, LE4, DocSize, SlotBytes;
      if messageOpen {
        return MessageInProgress;
      }
      ghost var b0, d0, t0, c0, a0, s0 := data[..], doc, typeTags, cursor, argument, slot;
      HoldsBetween(b0, t0, c0, a0, s0, d0);
      SizeOfBeginBundle(doc, t);
      var required := Size() + (if slot.Some? then 4 else 0) + 16;
      if required > data.Length {
        return OutOfBufferMemory;
      }
      cursor := BeginElement(cursor);
      ElementBegun(b0, t0, c0, a0, s0, d0, data[..]);
      ghost var b1 := data[..];
      PutBundleHead(data, cursor, t);
      BundleBegun(b1, cursor, d0, t, data[..]);
      cursor := cursor + 16;
      argument := cursor;
      doc := OscDocument.BeginBundle(doc, t);
      r := Ok;
    }

    /** operator<<( BundleTerminator ) */
    method EndBundle() returns (r: Status)
      requires Valid()
      modifies this, data
      ensures Valid()
      ensures r == if old(slot).None? then BundleNotInProgress
                   else if old(messageOpen) then MessageInProgress
                   else Ok
      ensures r.Ok? ==> old(doc).frames != []
      ensures doc == if r.Ok? then OscDocument.EndBundle(old(doc)) else old(doc)
    {
      hide Holds, Layout, SlotOf, EndedBuffer, EndedSlot, SlotBytes, Enc;
      if slot.None? {
        return BundleNotInProgress;
      }
      if messageOpen {
        return MessageInProgress;
      }
      BundleReadyToEnd(data[..], typeTags, cursor, argument, slot, doc);
      EndElement(cursor);
      doc := OscDocument.EndBundle(doc);
      r := Ok;
    }

    /** operator<<( BeginMessage ) */
    method BeginMessage(addr: CString) returns (r: Status)
      requires Valid()
      modifies this, data
      ensures Valid()
      ensures r == if old(messageOpen) then MessageInProgress
                   else if DocSize(OscDocument.BeginMessage(old(doc), addr)) > data.Length then OutOfBufferMemory
                   else Ok
      ensures doc == if r.Ok? then OscDocument.BeginMessage(old(doc), addr) else old(doc)
    {
      hide Holds, Layout, SlotOf, Splice, Str4, LE4, DocSize, SlotBytes;
      if messageOpen {
        return MessageInProgress;
      }
      ghost var b0, d0, t0, c0, a0, s0 := data[..], doc, typeTags, cursor, argument, slot;
      HoldsBetween(b0, t0, c0, a0, s0, d0);
      SizeOfBeginMessage(doc, addr);
      var required := Size() + (if slot.Some? then 4 else 0) + RoundUp4(|addr| + 1) + 4;
      if required > data.Length {
        return OutOfBufferMemory;
      }
      cursor := BeginElement(cursor);
      ElementBegun(b0, t0, c0, a0, s0, d0, data[..]);
      ghost var b1, next := data[..], cursor;
      cursor := PutString(data, cursor, addr);
      MessageBegun(b1, next, d0, addr, data[..]);
      argument := cursor;
      typeTags := data.Length;
      messageOpen := true;
      doc := OscDocument.BeginMessage(doc, addr);
      r := Ok;
    }

    /** The fourteen operator<< of arguments. The source does not check that a message is in progress;
        its callers must see to it. */
    method AddArgument(a: Arg) returns (r: Status)
      requires Valid() && messageOpen
      modifies this, data
      ensures Valid()
      ensures r == if DocSize(AddArg(old(doc), a)) > data.Length then OutOfBufferMemory else Ok
      ensures doc == if r.Ok? then AddArg(old(doc), a) else old(doc)
    {
      hide Holds, Layout, Splice, ArgBytes, DocSize, Opening, Tag;
      ghost var b0, d0, t0, c0, a0, s0 := data[..], doc, typeTags, cursor, argument, slot;
      HoldsInside(b0, t0, c0, a0, s0, d0);
      SizeOfAddArg(doc, a);
      var length := ArgLength(a);
      var required := argument + length + RoundUp4(data.Length - typeTags + 3);
      if required > data.Length {
        return OutOfBufferMemory;
      }
      typeTags := typeTags - 1;
      data[typeTags] := Tag(a);
      ghost var b1 := data[..];
      assert b1 == b0[t0 - 1 := Tag(a)];
      argument := PutArg(data, argument, a);
      ArgAdded(b0, t0, c0, a0, s0, d0, a, data[..]);
      doc := AddArg(doc, a);
      r := Ok;
    }

    /** The tags are saved, the arguments moved up, and the tags laid out in order in the gap. */
    method Compact() returns (end: nat)
      requires Valid() && messageOpen
      modifies data
      ensures end == argument + RoundUp4(data.Length - typeTags + 2) <= data.Length
      ensures data[..][..end] == Layout(doc.sent, doc.frames) + SlotBytes(doc.sent, doc.frames)
                                 + Enc(Message(doc.msg.value.addr, doc.msg.value.args))
    {
      hide Holds, Layout, Splice, DocSize, Opening, SlotBytes, Enc, RoundUp4, TagArea, ArgsBytes;
      ghost var b0 := data[..];
      HoldsInside(b0, typeTags, cursor, argument, slot, doc);
      var tags := data[typeTags..];
      assert tags == b0[typeTags..];
      var size := RoundUp4(|tags| + 2);
      MoveUp(data, cursor + size, cursor, argument - cursor);
      PutTags(data, cursor, tags, size);
      MessageCompacted(b0, typeTags, cursor, argument, slot, doc, data[..]);
      end := argument + size;
    }

    /** operator<<( MessageTerminator ) */
    method EndMessage() returns (r: Status)
      requires Valid()
      modifies this, data
      ensures Valid()
      ensures r == if old(messageOpen) then Ok else MessageNotInProgress
      ensures r.Ok? ==> old(doc).msg.Some? && Size() == old(Size())
      ensures doc == if r.Ok? then OscDocument.EndMessage(old(doc)) else old(doc)
    {
      hide Holds, Layout, DocSize, Opening, EndedBuffer, EndedSlot, SlotBytes, Enc;
      if !messageOpen {
        return MessageNotInProgress;
      }
      HoldsInside(data[..], typeTags, cursor, argument, slot, doc);
      SizeOfEndMessage(doc);
      cursor := Compact();
      typeTags := data.Length;
      argument := cursor;
      ElementEnded(data[..], cursor, doc.(msg := None), Message(doc.msg.value.addr, doc.msg.value.args));
      EndElement(cursor);
      messageOpen := false;
      doc := OscDocument.EndMessage(doc);
      r := Ok;
    }
  }

  // ---------- facts about the pointers and sizes ----------

  function ArgLength(a: Arg): (n: nat)
    ensures n == |ArgBytes(a)|
  {
    match a
    case Bool(_) => 0
    case Nil => 0
    case Infinitum => 0
    case Int64(_) => 8
    case TimeTag(_) => 8
    case Double(_) => 8
    case Str(s) => RoundUp4(|s| + 1)
    case Symbol(s) => RoundUp4(|s| + 1)
    case Blob(d) => 4 + RoundUp4(|d|)
    case _ => 4
  }

  method PutArg(data: array<byte>, at: nat, a: Arg) returns (next: nat)
    requires at + |ArgBytes(a)| <= data.Length
    modifies data
    ensures data[..] == Splice(old(data[..]), at, ArgBytes(a)) && next == at + |ArgBytes(a)|
  {
    match a
    case Str(s) => next := PutString(data, at, s);
    case Symbol(s) => next := PutString(data, at, s);
    case Blob(d) => next := PutBlob(data, at, d);
    case _ =>
      Put(data, at, ArgBytes(a));
      next := at + |ArgBytes(a)|;
  }

  lemma TagStep(b: bytes, at: nat, tags: bytes, i: nat)
    requires i < |tags| && at + 1 + |tags| <= |b|
    ensures Splice(b, at, [COMMA] + Reversed(tags)[..i])[at + 1 + i := tags[|tags| - 1 - i]]
         == Splice(b, at, [COMMA] + Reversed(tags)[..i + 1])
  {
    var x := [COMMA] + Reversed(tags)[..i];
    assert [COMMA] + Reversed(tags)[..i + 1] == x + [tags[|tags| - 1 - i]];
    assert Splice(b, at, x)[at + |x| := tags[|tags| - 1 - i]] == Splice(b, at, x + [tags[|tags| - 1 - i]]);
  }

  /** The comma, the saved tags in reverse order, and zeros up to the slot's size. */
  method PutTags(data: array<byte>, at: nat, tags: bytes, size: nat)
    requires size == RoundUp4(|tags| + 2) && at + size <= data.Length
    modifies data
    ensures data[..] == Splice(old(data[..]), at, TagArea(tags))
  {
    ghost var b := data[..];
    Put(data, at, [COMMA]);
    assert [COMMA] + Reversed(tags)[..0] == [COMMA];
    assert Reversed(tags)[..|tags|] == Reversed(tags);
    hide Splice, Reversed, RoundUp4, Zeros;
    for i := 0 to |tags|
      invariant data[..] == Splice(b, at, [COMMA] + Reversed(tags)[..i])
    {
      TagStep(b, at, tags, i);
      data[at + 1 + i] := tags[|tags| - 1 - i];
    }
    var rest := size - |tags| - 1;
    Put(data, at + 1 + |tags|, Zeros(rest));
    SpliceTwice(b, at, [COMMA] + Reversed(tags), Zeros(rest));
  }

  /** The pointers inside a message: the downward tags never meet the upward arguments. */
  lemma HoldsInside(b: bytes, typeTags: nat, cursor: nat, argument: nat, slot: Option<nat>, d: Doc)
    requires Holds(b, typeTags, cursor, argument, slot, d) && d.msg.Some?
    ensures |b| - typeTags == |d.msg.value.args|
    ensures cursor <= argument < typeTags <= |b|
    ensures argument + RoundUp4(|b| - typeTags + 2) <= |b|
    ensures argument == |Opening(d)| + |ArgsBytes(d.msg.value.args)|
    ensures DocSize(d) == argument + RoundUp4(|b| - typeTags + 2)
    ensures slot == Some(if d.frames == [] then 0 else |Layout(d.sent, d.frames)|)
  {
  }

  lemma SizeOfBeginMessage(d: Doc, addr: CString)
    requires d.msg.None?
    ensures DocSize(OscDocument.BeginMessage(d, addr)) ==
            DocSize(d) + (if d.frames == [] then 0 else 4) + RoundUp4(|addr| + 1) + 4
  {
    SlotSize(d.sent, d.frames);
    hide Layout, SlotBytes;
    assert RoundUp4(2) == 4;
    assert |TagString([])| == 4;
    assert |ArgsBytes([])| == 0;
  }

  lemma SizeOfAddArg(d: Doc, a: Arg)
    requires d.msg.Some?
    ensures DocSize(AddArg(d, a)) ==
            |Opening(d)| + |ArgsBytes(d.msg.value.args)| + |ArgBytes(a)| + RoundUp4(|d.msg.value.args| + 3)
    ensures DocSize(AddArg(d, a)) >= DocSize(d)
  {
    hide Opening, ArgBytes, ArgsBytes, Str4, Tags;
    OpeningOfAddArg(d, a);
    TagsGrow(d.msg.value.args, a);
    RoundUp4Grows(|d.msg.value.args| + 2);
  }

  lemma RoundUp4Grows(x: nat)
    ensures RoundUp4(x) <= RoundUp4(x + 1)
  {
  }

  lemma SizeOfEndMessage(d: Doc)
    requires d.msg.Some?
    ensures DocSize(OscDocument.EndMessage(d)) == DocSize(d)
  {
    SlotSize(d.sent, d.frames);
    LayoutOfAddElement(d.(msg := None), Message(d.msg.value.addr, d.msg.value.args));
    hide Layout, SlotBytes;
  }

  lemma BundleReadyToEnd(b: bytes, typeTags: nat, cursor: nat, argument: nat, slot: Option<nat>, d: Doc)
    requires Holds(b, typeTags, cursor, argument, slot, d) && d.msg.None? && slot.Some? && |b| < 0x8000_0000
    ensures d.frames != [] && cursor <= |b| && (slot.value == 0 || slot.value + 4 <= cursor)
    ensures typeTags == |b| && argument == cursor
    ensures Holds(EndedBuffer(b, slot.value, cursor), |b|, cursor, cursor, EndedSlot(b, slot.value), OscDocument.EndBundle(d))
  {
    var n := |d.frames| - 1;
    var d0, e := d.(frames := d.frames[..n]), Bundle(d.frames[n].timeTag, d.frames[n].done);
    LayoutBeforeEndBundle(d);
    ElementEnded(b, cursor, d0, e);
  }

  /** The pointers between messages. */
  lemma HoldsBetween(b: bytes, typeTags: nat, cursor: nat, argument: nat, slot: Option<nat>, d: Doc)
    requires Holds(b, typeTags, cursor, argument, slot, d) && d.msg.None?
    ensures slot.None? <==> d.frames == []
    ensures typeTags == |b| && argument == cursor == |Layout(d.sent, d.frames)| == DocSize(d) <= |b|
  {
  }

  lemma SizeOfBeginBundle(d: Doc, t: uint64)
    requires d.msg.None?
    ensures DocSize(OscDocument.BeginBundle(d, t)) == DocSize(d) + (if d.frames == [] then 0 else 4) + 16
  {
    hide Layout;
    SlotSize(d.sent, d.frames);
    LayoutOfBeginBundle(d, t);
  }
}
