/**
 * Exactly when the reception of a packet ends: the validating loop over a
 * bundle's elements, turn by turn, and the recursive listener.
 */
module OscTermination {
  import opened Bytes
  import opened OscFormat
  import opened OscReceived

  // ---------- the loop over the elements ----------

  datatype Loop = Ended(error: Option<Why>) | Again(p: nat)

  /** One turn of the loop in ReceivedBundle::Init, the condition included. */
  function Turn(m: bytes, p: nat): Loop {
    if p >= |m| then Ended(None)
    else if p + 4 > |m| then Ended(Some(ElementExceedsBundle))
    else
      var size := FromBE4(m[p..p + 4]);
      if size % 4 != 0 then Ended(Some(BadElementSize))
      else if p + Advanced(size) > |m| then Ended(Some(ElementExceedsBundle))
      else Again(p + Advanced(size))
  }

  function Turns(m: bytes, p: nat, n: nat): Loop {
    if n == 0 then Again(p)
    else
      match Turns(m, p, n - 1)
      case Ended(error) => Ended(error)
      case Again(q) => Turn(m, q)
  }

  ghost predicate LoopEnds(m: bytes, p: nat) {
    exists n :: Turns(m, p, n).Ended?
  }

  predicate WrapsAt(m: bytes, p: nat) {
    p + 4 <= |m| && FromBE4(m[p..p + 4]) == WRAPPING_SIZE
  }

  /** After some turns the loop stands before a size word of 0xFFFFFFFC. */
  ghost predicate ReachesWrap(m: bytes, p: nat) {
    exists n :: Turns(m, p, n).Again? && WrapsAt(m, Turns(m, p, n).p)
  }

  lemma {:induction false} TurnsShift(m: bytes, p: nat, q: nat, n: nat)
    requires Turn(m, p) == Again(q)
    ensures Turns(m, p, n + 1) == Turns(m, q, n)
  {
    hide Turn;
    if n == 0 {
      assert Turns(m, p, 0) == Again(p);
    } else {
      TurnsShift(m, p, q, n - 1);
    }
  }

  lemma {:induction false} TurnsStay(m: bytes, p: nat, n: nat)
    requires Turn(m, p) == Again(p)
    ensures Turns(m, p, n) == Again(p)
  {
    hide Turn;
    if n > 0 {
      TurnsStay(m, p, n - 1);
    }
  }

  lemma {:induction false} TurnsStop(m: bytes, p: nat, n: nat)
    requires Turn(m, p).Ended? && n > 0
    ensures Turns(m, p, n) == Turn(m, p)
  {
    hide Turn;
    if n == 1 {
      assert Turns(m, p, 0) == Again(p);
    } else {
      TurnsStop(m, p, n - 1);
    }
  }

  predicate SameError(a: Elements, b: Elements) {
    a.BadElements? == b.BadElements? && (a.BadElements? ==> a.why == b.why)
  }

  /** What one turn means for the split. */
  lemma TurnSplits(m: bytes, p: nat)
    requires p <= |m|
    ensures WrapsAt(m, p) <==> Turn(m, p) == Again(p)
    ensures WrapsAt(m, p) ==> SplitFrom(m, p) == BadElements(NeverEnds)
    ensures Turn(m, p) == Ended(None) ==> SplitFrom(m, p) == Elements([])
    ensures Turn(m, p).Ended? && Turn(m, p).error.Some? ==>
              Turn(m, p).error.value != NeverEnds && SplitFrom(m, p) == BadElements(Turn(m, p).error.value)
    ensures Turn(m, p).Again? ==> p <= Turn(m, p).p <= |m|
    ensures Turn(m, p).Again? && Turn(m, p).p > p ==> SameError(SplitFrom(m, p), SplitFrom(m, Turn(m, p).p))
  {
    hide FromBE4;
  }

  /** The loop ends if and only if it never stands before the size word 0xFFFFFFFC, and the split says
      which of the two it is. */
  lemma {:induction false} LoopEndsExactly(m: bytes, p: nat)
    requires p <= |m|
    ensures LoopEnds(m, p) <==> !ReachesWrap(m, p)
    ensures LoopEnds(m, p) <==> SplitFrom(m, p) != BadElements(NeverEnds)
    decreases |m| - p
  {
    hide SplitFrom, Turn, WrapsAt;
    TurnSplits(m, p);
    assert Turns(m, p, 0) == Again(p);
    match Turn(m, p)
    case Ended(_) =>
      TurnsStop(m, p, 1);
      forall n | Turns(m, p, n).Again?
        ensures !WrapsAt(m, Turns(m, p, n).p)
      {
        if n > 0 {
          TurnsStop(m, p, n);
        }
      }
    case Again(q) =>
      if q == p {
        forall n
          ensures Turns(m, p, n) == Again(p)
        {
          TurnsStay(m, p, n);
        }
      } else {
        LoopEndsExactly(m, q);
        LoopShifts(m, p, q);
      }
  }

  lemma LoopShifts(m: bytes, p: nat, q: nat)
    requires Turn(m, p) == Again(q) && !WrapsAt(m, p)
    ensures LoopEnds(m, p) <==> LoopEnds(m, q)
    ensures ReachesWrap(m, p) <==> ReachesWrap(m, q)
  {
    hide Turn, WrapsAt;
    assert Turns(m, p, 0) == Again(p);
    forall n: nat
      ensures Turns(m, p, n + 1) == Turns(m, q, n)
    {
      TurnsShift(m, p, q, n);
    }
    if n: nat :| Turns(m, q, n).Ended? {
      assert Turns(m, p, n + 1).Ended?;
    }
    if n: nat :| Turns(m, p, n).Ended? {
      assert Turns(m, q, n - 1) == Turns(m, p, n - 1 + 1);
    }
    if n: nat :| Turns(m, q, n).Again? && WrapsAt(m, Turns(m, q, n).p) {
      assert Turns(m, p, n + 1).Again?;
    }
    if n: nat :| Turns(m, p, n).Again? && WrapsAt(m, Turns(m, p, n).p) {
      assert n > 0 && Turns(m, q, n - 1) == Turns(m, p, n - 1 + 1);
    }
  }

  // ---------- the listener ----------

  predicate HeadIsGood(m: bytes) { |m| >= 16 && |m| % 4 == 0 && m[..8] == BUNDLE_HEAD }

  /** The recursive listener comes to an end, with or without an exception: in every bundle it meets
      before the first exception the loop over the elements ends. */
  ghost predicate ReceptionEnds(m: bytes)
    decreases |m|, 1, 0
  {
    IsBundle(m) && HeadIsGood(m) ==>
      && LoopEnds(m, 16)
      && (SplitBundle(m).Elements? ==> (ElementsAreSmaller(m); AllEnd(SplitBundle(m).contents, |m|)))
  }

  ghost predicate AllEnd(es: seq<bytes>, bound: nat)
    requires AllBelow(es, bound)
    decreases bound, 0, |es|
  {
    es != [] ==> ReceptionEnds(es[0]) && (Process(es[0]).error.None? ==> AllEnd(es[1..], bound))
  }

  /** A message never hangs: its checks are bounded by its tags. */
  lemma MessagesEnd(m: bytes)
    ensures ProcessMessage(m).error != Some(NeverEnds)
  {
    hide ReadArgs, CStringAt, Str4End;
    if Validate(m).Malformed? && |m| % 4 == 0 && Str4End(m, 0).Some? {
      var t := Str4End(m, 0).value;
      if t + 1 < |m| && Str4End(m, t).Some? {
        TagsEnd(m, t + 1, Str4End(m, t).value);
      }
    }
  }

  lemma {:induction false} TagsEnd(m: bytes, t: nat, pos: nat)
    requires t < |m|
    ensures WalkTags(m, t, pos) != Stuck(NeverEnds)
    decreases |m| - t
  {
    hide Str4End, FromBE4;
    if m[t] != 0 && Checked(m, m[t], pos).At? && t + 1 < |m| {
      TagsEnd(m, t + 1, Checked(m, m[t], pos).pos);
    }
  }

  /** On any bytes: the reception ends if and only if its outcome is not NeverEnds. */
  lemma {:induction false} ReceptionEndsExactly(m: bytes)
    ensures ReceptionEnds(m) <==> Process(m).error != Some(NeverEnds)
    decreases |m|, 1, 0
  {
    hide ProcessAll, AllEnd, SplitFrom, AllBelow, LoopEnds, ProcessMessage;
    if !IsBundle(m) {
      MessagesEnd(m);
    } else if HeadIsGood(m) {
      LoopEndsExactly(m, 16);
      if SplitBundle(m).Elements? {
        ProcessUnfolds(m);
        AllEndExactly(SplitBundle(m).contents, |m|);
      }
    }
  }

  lemma {:induction false} AllEndExactly(es: seq<bytes>, bound: nat)
    requires AllBelow(es, bound)
    ensures AllEnd(es, bound) <==> ProcessAll(es, bound).error != Some(NeverEnds)
    decreases bound, 0, |es|
  {
    hide Process, ReceptionEnds;
    if es != [] {
      ReceptionEndsExactly(es[0]);
      AllEndExactly(es[1..], bound);
    }
  }

  // ---------- the input on which it does not end ----------

  /** Eight bytes of time tag. */
  type Tag8 = t: bytes | |t| == 8 witness [0, 0, 0, 0, 0, 0, 0, 0]

  function EndlessPacket(t: Tag8): bytes { BUNDLE_HEAD + t + [0xFF, 0xFF, 0xFF, 0xFC] }

  /** Twenty bytes on which the loop turns for ever. */
  lemma EndlessPacketNeverEnds(t: Tag8)
    ensures |EndlessPacket(t)| == 20
    ensures forall n :: Turns(EndlessPacket(t), 16, n) == Again(16)
    ensures !ReceptionEnds(EndlessPacket(t)) && Process(EndlessPacket(t)) == Outcome([], Some(NeverEnds))
  {
    var m := EndlessPacket(t);
    assert m[16..20] == [0xFF, 0xFF, 0xFF, 0xFC];
    assert m[..8] == BUNDLE_HEAD && m[0] == BUNDLE_HEAD[0];
    assert WrapsAt(m, 16);
    hide Turn, SplitFrom, WrapsAt;
    TurnSplits(m, 16);
    forall n
      ensures Turns(m, 16, n) == Again(16)
    {
      TurnsStay(m, 16, n);
    }
    ReceptionEndsExactly(m);
  }

  // ---------- an overrunning blob does not end the reception ----------

  /** A bundle of the twelve bytes of OVERRUN and, behind them, the endless packet. */
  function OverrunThenEndless(t: Tag8, u: Tag8): bytes {
    BUNDLE_HEAD + t + ([0, 0, 0, 12] + OVERRUN) + ([0, 0, 0, 20] + EndlessPacket(u))
  }

  lemma LengthsAreRead()
    ensures FromBE4([0, 0, 0, 12]) == 12 && FromBE4([0, 0, 0, 20]) == 20
  {
  }

  lemma OverrunThenEndlessSplits(t: Tag8, u: Tag8)
    ensures |EndlessPacket(u)| == 20 && |OverrunThenEndless(t, u)| == 56
    ensures IsBundle(OverrunThenEndless(t, u)) && SplitBundle(OverrunThenEndless(t, u)) == Elements([OVERRUN, EndlessPacket(u)])
  {
    hide FromBE4;
    var m, e := OverrunThenEndless(t, u), EndlessPacket(u);
    assert m[..8] == BUNDLE_HEAD && m[0] == BUNDLE_HEAD[0];
    assert m[16..20] == [0, 0, 0, 12] && m[20..32] == OVERRUN && m[32..36] == [0, 0, 0, 20] && m[36..56] == e;
    LengthsAreRead();
    assert SplitFrom(m, 56) == Elements([]);
    assert SplitFrom(m, 32) == Elements([e]);
    assert SplitFrom(m, 16) == Elements([OVERRUN, e]);
  }

  /** The message whose blob overruns is delivered, and the loop over the elements of the second
      element never ends. */
  lemma OverrunThenEndlessNeverEnds(t: Tag8, u: Tag8)
    ensures |OverrunThenEndless(t, u)| == 56
    ensures !ReceptionEnds(OverrunThenEndless(t, u))
    ensures Process(OverrunThenEndless(t, u)) ==
              Outcome([Received(['/' as int, 'a' as int], [BLOB_TAG], [Overrunning])], Some(NeverEnds))
  {
    hide OverrunThenEndless, EndlessPacket, SplitBundle, ReceptionEnds, AllBelow, ProcessMessage;
    var m, e := OverrunThenEndless(t, u), EndlessPacket(u);
    OverrunThenEndlessSplits(t, u);
    ProcessUnfolds(m);
    OverrunIsDelivered();
    EndlessPacketNeverEnds(u);
    assert [OVERRUN, e][1..] == [e] && |[e]| == 1;
    ReceptionEndsExactly(m);
  }
}
