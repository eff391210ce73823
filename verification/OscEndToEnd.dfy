/**
 * A packet tree written through the stream's operators, and the finished
 * buffer handed to the listener.
 */
module OscEndToEnd {
  import opened Bytes
  import opened OscFormat
  import opened OscDocument
  import opened OscOutbound
  import opened OscReceived
  import opened OscRoundTrip

  // ---------- sizes only grow while an element is written ----------

  function Drafted(d: Doc, addr: CString, args: seq<Arg>): Doc { d.(msg := Some(Draft(addr, args))) }

  lemma {:induction false} DraftGrows(d: Doc, addr: CString, args: seq<Arg>, k: nat)
    requires k <= |args|
    ensures DocSize(Drafted(d, addr, args[..k])) <= DocSize(Drafted(d, addr, args))
    decreases |args|
  {
    hide DocSize, Drafted;
    if k == |args| {
      assert args[..k] == args;
    } else {
      var n := |args| - 1;
      DraftGrows(d, addr, args[..n], k);
      assert args[..n][..k] == args[..k];
      DraftGrowsBy(d, addr, args[..n], args[n]);
      assert args[..n] + [args[n]] == args;
    }
  }

  lemma DraftGrowsBy(d: Doc, addr: CString, args: seq<Arg>, a: Arg)
    ensures DocSize(Drafted(d, addr, args)) <= DocSize(Drafted(d, addr, args + [a]))
  {
    hide DocSize, Opening, ArgBytes, ArgsBytes;
    SizeOfAddArg(Drafted(d, addr, args), a);
  }

  function Opened(d: Doc, t: uint64, done: seq<Element>): Doc { d.(frames := d.frames + [Frame(t, done)]) }

  lemma OpenedTakes(d: Doc, t: uint64, done: seq<Element>, e: Element)
    ensures AddElement(Opened(d, t, done), e) == Opened(d, t, done + [e])
    ensures OscDocument.EndBundle(Opened(d, t, done)) == AddElement(d, Bundle(t, done))
  {
    var o := Opened(d, t, done);
    assert o.frames[..|d.frames|] == d.frames;
  }

  lemma SizeOfAddElement(d: Doc, e: Element)
    requires d.msg.None?
    ensures DocSize(AddElement(d, e)) == DocSize(d) + (if d.frames == [] then 0 else 4) + |Enc(e)|
  {
    hide Layout, Enc;
    LayoutOfAddElement(d, e);
  }

  lemma {:induction false} OpenedGrows(d: Doc, t: uint64, elems: seq<Element>, k: nat)
    requires k <= |elems| && d.msg.None?
    ensures DocSize(Opened(d, t, elems[..k])) <= DocSize(Opened(d, t, elems))
    decreases |elems|
  {
    hide DocSize, Enc;
    if k == |elems| {
      assert elems[..k] == elems;
    } else {
      var n := |elems| - 1;
      OpenedGrows(d, t, elems[..n], k);
      assert elems[..n][..k] == elems[..k];
      OpenedTakes(d, t, elems[..n], elems[n]);
      SizeOfAddElement(Opened(d, t, elems[..n]), elems[n]);
      assert elems[..n] + [elems[n]] == elems;
    }
  }

  /** Closing the bundle costs nothing. */
  lemma SizeOfEndBundle(d: Doc, t: uint64, done: seq<Element>)
    requires d.msg.None?
    ensures DocSize(Opened(d, t, done)) == DocSize(AddElement(d, Bundle(t, done)))
  {
    hide Layout, Enc, SlotBytes, SlotOf;
    var o := Opened(d, t, done);
    assert o.frames[..|d.frames|] == d.frames;
    LayoutBeforeEndBundle(o);
    LayoutOfAddElement(d, Bundle(t, done));
    SlotSize(d.sent, d.frames);
  }

  // ---------- writing ----------

  /** BeginMessage, the arguments, EndMessage; stops at the first operator that throws. */
  method WriteMessage(s: OutboundPacketStream, addr: CString, args: seq<Arg>) returns (ok: bool)
    requires s.Valid() && !s.messageOpen
    modifies s, s.data
    ensures s.Valid()
    ensures ok <==> DocSize(AddElement(old(s.doc), Message(addr, args))) <= s.data.Length
    ensures ok ==> s.doc == AddElement(old(s.doc), Message(addr, args)) && !s.messageOpen
  {
    hide DocSize, Holds, AddElement;
    ghost var d := s.doc;
    SizeOfEndMessage(Drafted(d, addr, args));
    assert Drafted(d, addr, args).(msg := None) == d;
    DraftGrows(d, addr, args, 0);
    var r := s.BeginMessage(addr);
    if r != Ok {
      return false;
    }
    for i := 0 to |args|
      invariant s.Valid() && s.doc == Drafted(d, addr, args[..i])
    {
      DraftGrows(d, addr, args, i + 1);
      assert args[..i] + [args[i]] == args[..i + 1];
      r := s.AddArgument(args[i]);
      if r != Ok {
        return false;
      }
    }
    assert args[..|args|] == args;
    r := s.EndMessage();
    ok := true;
    AddElementKeepsDraft(d, Message(addr, args));
    assert s.Size() == DocSize(s.doc) <= s.data.Length;
  }

  lemma AddElementKeepsDraft(d: Doc, e: Element)
    ensures AddElement(d, e).msg == d.msg
  {
  }

  /** Succeeds exactly when the encoded element fits in the buffer. */
  method WriteElement(s: OutboundPacketStream, e: Element) returns (ok: bool)
    requires s.Valid() && !s.messageOpen
    modifies s, s.data
    ensures s.Valid()
    ensures ok <==> DocSize(AddElement(old(s.doc), e)) <= s.data.Length
    ensures ok ==> s.doc == AddElement(old(s.doc), e) && !s.messageOpen
    decreases e
  {
    match e
    case Message(addr, args) =>
      ok := WriteMessage(s, addr, args);
    case Bundle(t, elems) =>
      ok := WriteBundle(s, t, elems);
  }

  /** BeginBundle, the elements, EndBundle; stops at the first operator that throws. */
  method WriteBundle(s: OutboundPacketStream, t: uint64, elems: seq<Element>) returns (ok: bool)
    requires s.Valid() && !s.messageOpen
    modifies s, s.data
    ensures s.Valid()
    ensures ok <==> DocSize(AddElement(old(s.doc), Bundle(t, elems))) <= s.data.Length
    ensures ok ==> s.doc == AddElement(old(s.doc), Bundle(t, elems)) && !s.messageOpen
    decreases elems
  {
    hide DocSize, Holds, AddElement;
    ghost var d, e := s.doc, Bundle(t, elems);
    SizeOfEndBundle(d, t, elems);
    OpenedGrows(d, t, elems, 0);
    var r := s.BeginBundle(t);
    if r != Ok {
      return false;
    }
    for i := 0 to |elems|
      invariant s.Valid() && !s.messageOpen && s.doc == Opened(d, t, elems[..i])
    {
      OpenedGrows(d, t, elems, i + 1);
      OpenedTakes(d, t, elems[..i], elems[i]);
      assert elems[..i] + [elems[i]] == elems[..i + 1];
      ok := WriteElement(s, elems[i]);
      if !ok {
        return;
      }
    }
    assert elems[..|elems|] == elems;
    assert s.Size() == DocSize(s.doc) <= s.data.Length;
    OpenedTakes(d, t, elems, e);
    AddElementKeepsDraft(d, e);
    BundleIsOpen(s);
    r := s.EndBundle();
    ok := true;
  }

  lemma BundleIsOpen(s: OutboundPacketStream)
    requires s.Valid() && !s.messageOpen && s.doc.frames != []
    ensures s.slot.Some?
  {
    hide Layout, SlotOf;
  }

  /** Encoding a packet into a buffer and processing what is in the buffer. */
  method EncodeThenProcess(buffer: array<byte>, e: Element, memory: Memory) returns (fits: bool, r: Outcome)
    requires buffer.Length < 0x8000_0000
    modifies buffer
    ensures fits <==> |Enc(e)| <= buffer.Length
    ensures fits ==> (r == Outcome(Messages(e), None) <==> Clean(e))
  {
    hide Process, Messages, Clean, Enc, Holds;
    var s := new OutboundPacketStream(buffer);
    FirstPacket(e);
    fits := WriteElement(s, e);
    r := Outcome([], None);
    if fits {
      var packet := buffer[..s.Size()];
      HoldsFirstPacket(s, e);
      r := RunPacket(packet, memory);
      DeliveredExactlyIfClean(e);
    }
  }

  lemma FirstPacket(e: Element)
    ensures AddElement(Blank, e) == Doc([e], [], None)
    ensures Layout([e], []) == Enc(e) && DocSize(Doc([e], [], None)) == |Enc(e)|
  {
    hide Enc;
    assert [e][..0] == [];
    assert Top([e]) == Top([]) + Enc(e);
  }

  lemma HoldsFirstPacket(s: OutboundPacketStream, e: Element)
    requires s.Valid() && s.doc == Doc([e], [], None)
    ensures s.data[..s.Size()] == Enc(e)
  {
    hide Enc;
    FirstPacket(e);
    assert s.data[..s.Size()] == s.data[..][..s.Size()];
  }
}
