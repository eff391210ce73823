/**
 * What an outbound packet stream has been told so far, as a value, and the
 * bytes its buffer holds for it, size slots of open elements included.
 */
module OscDocument {
  import opened Bytes
  import opened OscFormat

  /** An open bundle: its time tag and the elements already closed inside it. */
  datatype Frame = Frame(timeTag: uint64, done: seq<Element>)

  /** A message in progress. */
  datatype Draft = Draft(addr: CString, args: seq<Arg>)

  /** Finished top-level packets, the open bundles from the outside in, and the message in progress. */
  datatype Doc = Doc(sent: seq<Element>, frames: seq<Frame>, msg: Option<Draft>)

  const Blank := Doc([], [], None)

  // ---------- the bytes ----------

  function Top(sent: seq<Element>): bytes {
    if sent == [] then [] else Top(sent[..|sent| - 1]) + Enc(sent[|sent| - 1])
  }

  function Body(f: Frame): bytes { BUNDLE_HEAD + BE8(f.timeTag) + EncAll(f.done) }

  /** Everything up to the cursor between messages. The size slot of a nested open
      element holds the offset of the slot of the element around it. */
  function Layout(sent: seq<Element>, frames: seq<Frame>): bytes
    decreases |frames|, 1
  {
    if frames == [] then Top(sent)
    else
      var outer := frames[..|frames| - 1];
      Layout(sent, outer) + SlotBytes(sent, outer) + Body(frames[|frames| - 1])
  }

  /** The slot of an element opened inside `frames`: none for a top-level element. */
  function SlotBytes(sent: seq<Element>, frames: seq<Frame>): bytes
    decreases |frames|, 0, 1
  {
    if frames == [] then [] else LE4(SlotOf(sent, frames))
  }

  /** The offset of the slot of the innermost open bundle; the outermost has none and counts as 0. */
  function SlotOf(sent: seq<Element>, frames: seq<Frame>): nat
    requires frames != []
    decreases |frames|, 0, 0
  {
    if |frames| == 1 then 0 else |Layout(sent, frames[..|frames| - 1])|
  }

  /** Everything up to the arguments of the message in progress. */
  function Opening(d: Doc): bytes
    requires d.msg.Some?
  {
    Layout(d.sent, d.frames) + SlotBytes(d.sent, d.frames) + Str4(d.msg.value.addr)
  }

  /** The size of the packet data if it were finished now. */
  function DocSize(d: Doc): nat {
    if d.msg.None? then |Layout(d.sent, d.frames)|
    else |Opening(d)| + |TagString(d.msg.value.args)| + |ArgsBytes(d.msg.value.args)|
  }

  // ---------- what the operations do to a document ----------

  function BeginBundle(d: Doc, t: uint64): Doc { d.(frames := d.frames + [Frame(t, [])]) }

  function AddElement(d: Doc, e: Element): Doc {
    if d.frames == [] then d.(sent := d.sent + [e])
    else
      var n := |d.frames| - 1;
      d.(frames := d.frames[..n] + [d.frames[n].(done := d.frames[n].done + [e])])
  }

  function EndBundle(d: Doc): Doc
    requires d.frames != []
  {
    var n := |d.frames| - 1;
    AddElement(d.(frames := d.frames[..n]), Bundle(d.frames[n].timeTag, d.frames[n].done))
  }

  function BeginMessage(d: Doc, addr: CString): Doc { d.(msg := Some(Draft(addr, []))) }

  function AddArg(d: Doc, a: Arg): Doc
    requires d.msg.Some?
  {
    d.(msg := Some(Draft(d.msg.value.addr, d.msg.value.args + [a])))
  }

  function EndMessage(d: Doc): Doc
    requires d.msg.Some?
  {
    AddElement(d.(msg := None), Message(d.msg.value.addr, d.msg.value.args))
  }

  // ---------- the layout of each result ----------

  lemma SlotSize(sent: seq<Element>, frames: seq<Frame>)
    ensures |SlotBytes(sent, frames)| == if frames == [] then 0 else 4
    ensures frames != [] ==> |Layout(sent, frames)| >= 16
    ensures |frames| > 1 ==> SlotOf(sent, frames) >= 16
  {
    if |frames| > 1 {
      SlotSize(sent, frames[..|frames| - 1]);
    }
  }

  /** Opening a bundle appends a slot, the header and the time tag. */
  lemma LayoutOfBeginBundle(d: Doc, t: uint64)
    ensures
      var d' := BeginBundle(d, t);
      && Layout(d'.sent, d'.frames) == Layout(d.sent, d.frames) + SlotBytes(d.sent, d.frames) + (BUNDLE_HEAD + BE8(t))
      && SlotOf(d'.sent, d'.frames) == if d.frames == [] then 0 else |Layout(d.sent, d.frames)|
  {
    var frames' := d.frames + [Frame(t, [])];
    assert frames'[..|frames'| - 1] == d.frames;
    assert EncAll([]) == [];
    assert Body(Frame(t, [])) == BUNDLE_HEAD + BE8(t);
  }

  /** Closing an element inside a bundle appends its length and its bytes. */
  lemma LayoutOfAddElement(d: Doc, e: Element)
    ensures
      var d' := AddElement(d, e);
      && Layout(d'.sent, d'.frames) ==
         Layout(d.sent, d.frames) + (if d.frames == [] then [] else BE4(|Enc(e)|)) + Enc(e)
      && |d'.frames| == |d.frames|
      && (d.frames != [] ==> SlotOf(d'.sent, d'.frames) == SlotOf(d.sent, d.frames))
  {
    hide Enc;
    var d' := AddElement(d, e);
    if d.frames == [] {
      assert d'.sent[..|d'.sent| - 1] == d.sent;
      assert Top(d.sent) + [] + Enc(e) == Top(d.sent) + Enc(e);
    } else {
      var n := |d.frames| - 1;
      assert d'.frames[..n] == d.frames[..n];
      var f, f' := d.frames[n], d'.frames[n];
      assert f'.done[..|f'.done| - 1] == f.done;
      var pre := Layout(d.sent, d.frames[..n]) + SlotBytes(d.sent, d.frames[..n]);
      assert Body(f') == Body(f) + BE4(|Enc(e)|) + Enc(e);
      assert pre + Body(f') == pre + Body(f) + BE4(|Enc(e)|) + Enc(e);
    }
  }

  /** An open bundle is already encoded in place, but for its slot. */
  lemma LayoutBeforeEndBundle(d: Doc)
    requires d.frames != []
    ensures
      var n := |d.frames| - 1;
      var f, outer := d.frames[n], d.frames[..n];
      && Layout(d.sent, d.frames) ==
         Layout(d.sent, outer) + SlotBytes(d.sent, outer) + Enc(Bundle(f.timeTag, f.done))
      && (outer != [] ==> SlotOf(d.sent, d.frames) == |Layout(d.sent, outer)|)
  {
  }

  // ---------- the chain of open slots ----------

  /** The offsets of the slots of all open elements, from the outside in. */
  function Slots(d: Doc): seq<nat> {
    BundleSlots(d.sent, d.frames) +
    if d.msg.None? then [] else [if d.frames == [] then 0 else |Layout(d.sent, d.frames)|]
  }

  function BundleSlots(sent: seq<Element>, frames: seq<Frame>): (r: seq<nat>)
    ensures |r| == |frames|
  {
    if frames == [] then [] else BundleSlots(sent, frames[..|frames| - 1]) + [SlotOf(sent, frames)]
  }

  /** Following the offset in each slot leads to the slot around it, and at last to 0. */
  predicate IsChain(b: bytes, slots: seq<nat>) {
    && (slots != [] ==> slots[0] == 0)
    && forall k :: 1 <= k < |slots| ==>
         slots[k - 1] < slots[k] && slots[k] + 4 <= |b| && FromLE4(b[slots[k]..slots[k] + 4]) == slots[k - 1]
  }

  lemma {:induction false} LayoutIsPrefix(sent: seq<Element>, frames: seq<Frame>, k: nat)
    requires k <= |frames|
    ensures Layout(sent, frames[..k]) + SlotBytes(sent, frames[..k]) <= Layout(sent, frames) + SlotBytes(sent, frames)
    ensures k < |frames| ==> Layout(sent, frames[..k]) + SlotBytes(sent, frames[..k]) <= Layout(sent, frames)
    decreases |frames|
  {
    hide SlotBytes, SlotOf;
    if k == |frames| {
      assert frames[..k] == frames;
    } else {
      var n := |frames| - 1;
      LayoutIsPrefix(sent, frames[..n], k);
      assert frames[..n][..k] == frames[..k];
    }
  }

  lemma {:induction false} BundleSlotsAre(sent: seq<Element>, frames: seq<Frame>, k: nat)
    requires k < |frames|
    ensures BundleSlots(sent, frames)[k] == SlotOf(sent, frames[..k + 1])
    decreases |frames|
  {
    if k == |frames| - 1 {
      assert frames[..k + 1] == frames;
    } else {
      BundleSlotsAre(sent, frames[..|frames| - 1], k);
      assert frames[..|frames| - 1][..k + 1] == frames[..k + 1];
    }
  }

  /** One link: the slot of an element opened inside frames[..k] points to the slot around it. */
  lemma SlotPointsOutward(sent: seq<Element>, frames: seq<Frame>, b: bytes, k: nat)
    requires 0 < k <= |frames| && |b| < 0x1_0000_0000
    requires Layout(sent, frames[..k]) + SlotBytes(sent, frames[..k]) <= b
    ensures
      var at := |Layout(sent, frames[..k])|;
      SlotOf(sent, frames[..k]) < at && at + 4 <= |b| && FromLE4(b[at..at + 4]) == SlotOf(sent, frames[..k])
  {
    var inner := frames[..k];
    var L, x := Layout(sent, inner), SlotOf(sent, inner);
    SlotSize(sent, inner);
    assert inner[..k - 1] == frames[..k - 1];
    SlotSize(sent, inner[..k - 1]);
    assert x < |L|;
    RoundTripLE4(x);
    hide Layout, LE4, FromLE4;
    assert (L + LE4(x))[|L|..|L| + 4] == LE4(x);
    assert b[|L|..|L| + 4] == (L + LE4(x))[|L|..|L| + 4];
  }

  /** Slot k of the list is the slot of the element opened inside frames[..k]. */
  lemma SlotsAre(d: Doc, k: nat)
    requires k < |Slots(d)|
    ensures k <= |d.frames|
    ensures Slots(d)[k] == if k == 0 then 0 else |Layout(d.sent, d.frames[..k])|
    ensures k > 0 ==> Slots(d)[k - 1] == SlotOf(d.sent, d.frames[..k])
  {
    hide Layout, BundleSlots;
    if k < |d.frames| {
      BundleSlotsAre(d.sent, d.frames, k);
      assert d.frames[..k + 1][..k] == d.frames[..k];
    } else {
      assert d.frames[..k] == d.frames;
    }
    if k > 0 {
      BundleSlotsAre(d.sent, d.frames, k - 1);
    }
  }

  /** In a buffer that holds the document, the open slots form the chain. */
  lemma OpenSlotsFormChain(d: Doc, b: bytes)
    requires |b| < 0x1_0000_0000
    requires Layout(d.sent, d.frames) + (if d.msg.None? then [] else SlotBytes(d.sent, d.frames)) <= b
    ensures IsChain(b, Slots(d))
  {
    hide Layout, SlotOf, SlotBytes, BundleSlots;
    var slots, n := Slots(d), |d.frames|;
    if slots != [] {
      SlotsAre(d, 0);
    }
    forall k | 1 <= k < |slots|
      ensures slots[k - 1] < slots[k] && slots[k] + 4 <= |b| && FromLE4(b[slots[k]..slots[k] + 4]) == slots[k - 1]
    {
      SlotsAre(d, k);
      LayoutIsPrefix(d.sent, d.frames, k);
      SlotPointsOutward(d.sent, d.frames, b, k);
    }
  }
}
