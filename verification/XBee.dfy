/**
 * The radio interface: its remotes, each with a receive buffer and a map of
 * messages still to be sent.
 */
module XBee {
  import opened Bytes
  import opened XBeeFrames
  import opened XBeeQueue

  datatype Remote = Remote(rxBuffer: bytes, safeSendMap: Queue)

  function QueuesOf(rs: seq<Remote>): (qs: seq<Queue>)
    ensures |qs| == |rs| && forall i :: 0 <= i < |rs| ==> qs[i] == rs[i].safeSendMap
  {
    seq(|rs|, i requires 0 <= i < |rs| => rs[i].safeSendMap)
  }

  /** The first remote that has anything is the one whose turn it is. */
  lemma ReachedIsFirst(qs: seq<Queue>, i: nat)
    requires i <= |qs| && forall j :: 0 <= j < i ==> qs[j] == map[]
    ensures (i == |qs| || qs[i] != map[]) ==> FirstBusy(qs) == i
  {
  }

  /** What a tick of remote i does, as a command. */
  lemma ServedIsTick(rs: seq<Remote>, h: seq<Event>, i: nat)
    requires i < |rs| && FirstBusy(QueuesOf(rs)) == i
    ensures
      var q := rs[i].safeSendMap;
      var k := LeastKey(q.Keys);
      Net(QueuesOf(rs[i := rs[i].(safeSendMap := q - {k})]), h + [Sent(i, k, q[k])]) == Apply(Net(QueuesOf(rs), h), Tick)
  {
    var q := rs[i].safeSendMap;
    var k := LeastKey(q.Keys);
    assert QueuesOf(rs[i := rs[i].(safeSendMap := q - {k})]) == QueuesOf(rs)[i := q - {k}];
  }

  class XBeeInterface {
    var remotes: seq<Remote>
    ghost var history: seq<Event>   // requests made and messages sent

    ghost function Queues(): seq<Queue>
      reads this
    {
      QueuesOf(remotes)
    }

    ghost function View(): Net
      reads this
    {
      Net(Queues(), history)
    }

    /** Queues and history fit together, and no receive buffer holds a separator. */
    ghost predicate Valid()
      reads this
    {
      && Consistent(View()) && Faithful(history)
      && forall i :: 0 <= i < |remotes| ==> FRAME_END !in remotes[i].rxBuffer
    }

    constructor (count: nat)
      ensures Valid() && |remotes| == count && history == []
      ensures forall i :: 0 <= i < count ==> remotes[i] == Remote([], map[])
    {
      remotes := seq(count, _ => Remote([], map[]));
      history := [];
      NothingYet(count);
      assert QueuesOf(seq(count, _ => Remote([], map[]))) == seq(count, _ => map[]);
    }

    /** safeSendMsg */
    method SafeSendMsg(i: nat, key: Key, m: Msg)
      requires Valid() && i < |remotes|
      modifies this
      ensures Valid() && View() == Apply(old(View()), SafeSend(i, key, Prepare(m)))
      ensures |remotes| == |old(remotes)| && forall j :: 0 <= j < |remotes| ==> remotes[j].rxBuffer == old(remotes)[j].rxBuffer
      ensures remotes[i].safeSendMap == old(remotes[i].safeSendMap)[key := [m.kind] + m.data + [FRAME_END]]
    {
      CommandIsFaithful(View(), SafeSend(i, key, Prepare(m)));
      assert Prepare(m) == [m.kind] + m.data + [FRAME_END];
      hide Consistent, Faithful, Prepare;
      var r := remotes[i];
      remotes := remotes[i := r.(safeSendMap := r.safeSendMap[key := Prepare(m)])];
      history := history + [Requested(i, key, Prepare(m))];
      assert View() == Apply(old(View()), SafeSend(i, key, Prepare(m)));
    }

    /** XBeeRemote::tick */
    method TickRemote(i: nat) returns (sent: Option<bytes>)
      requires i < |remotes|
      modifies this
      ensures if old(remotes[i].safeSendMap) == map[] then
                sent.None? && remotes == old(remotes) && history == old(history)
              else
                var q := old(remotes[i].safeSendMap);
                var k := LeastKey(q.Keys);
                && sent == Some(q[k])
                && remotes == old(remotes)[i := old(remotes[i]).(safeSendMap := q - {k})]
                && history == old(history) + [Sent(i, k, q[k])]
    {
      var q := remotes[i].safeSendMap;
      if q == map[] {
        return None;
      }
      LeastExists(q.Keys);
      var k :| k in q && IsLeast(k, q.Keys);
      LeastIsUnique(k, LeastKey(q.Keys), q.Keys);
      sent := Some(q[k]);
      remotes := remotes[i := remotes[i].(safeSendMap := q - {k})];
      history := history + [Sent(i, k, q[k])];
    }

    /** The scheduling loop of standardRunTick: the first remote that sends ends the round. */
    method RunTick() returns (sent: Option<bytes>)
      requires Valid()
      modifies this
      ensures Valid() && View() == Apply(old(View()), Tick)
      ensures |remotes| == |old(remotes)| && forall j :: 0 <= j < |remotes| ==> remotes[j].rxBuffer == old(remotes)[j].rxBuffer
      ensures sent.Some? <==> Pending(old(Queues())) > 0
      ensures sent.Some? ==> history != [] && history[|history| - 1].msg == sent.value
    {
      hide Consistent, Faithful, Pending, FirstBusy, QueuesOf, Apply;
      ghost var qs := Queues();
      CommandIsFaithful(View(), Tick);
      PendingNone(qs);
      sent := None;
      for i := 0 to |remotes|
        invariant remotes == old(remotes) && history == old(history) && sent.None?
        invariant forall j :: 0 <= j < i ==> qs[j] == map[]
      {
        ReachedIsFirst(qs, i);
        sent := TickRemote(i);
        if sent.Some? {
          ServedIsTick(old(remotes), old(history), i);
          return;
        }
      }
      ReachedIsFirst(qs, |qs|);
      IdleTick(View());
    }

    /** receiveRX: the complete frames, and the rest kept for next time. */
    method ReceiveRX(i: nat, cmd: bytes) returns (msgs: seq<bytes>)
      requires Valid() && i < |remotes|
      modifies this`remotes
      ensures Valid() && View() == old(View())
      ensures msgs == Frames(old(remotes[i].rxBuffer) + cmd)
      ensures remotes == old(remotes)[i := old(remotes[i]).(rxBuffer := Tail(old(remotes[i].rxBuffer) + cmd))]
    {
      var s := remotes[i].rxBuffer + cmd;
      var buf;
      msgs, buf := SplitFrames(s);
      TailIsItsOwn(s);
      hide Consistent, Faithful, Frames, Tail;
      remotes := remotes[i := remotes[i].(rxBuffer := buf)];
      assert Queues() == old(Queues());
    }
  }

  lemma IdleTick(n: Net)
    requires FirstBusy(n.queues) == |n.queues|
    ensures Apply(n, Tick) == n
  {
  }

  /** The byte loop of receiveRX. */
  method SplitFrames(s: bytes) returns (msgs: seq<bytes>, buf: bytes)
    ensures msgs == Frames(s) && buf == Tail(s)
  {
    hide Frames, Tail;
    msgs, buf := [], [];
    NothingFramed();
    for i := 0 to |s|
      invariant msgs == Frames(s[..i]) && buf == Tail(s[..i])
    {
      assert s[..i + 1] == s[..i] + [s[i]];
      FramesSnoc(s[..i], s[i]);
      if s[i] == FRAME_END {
        if buf == [] {
          continue;
        }
        msgs, buf := msgs + [buf], [];
      } else {
        buf := buf + [s[i]];
      }
    }
    assert s[..|s|] == s;
  }

  /** Any number of receiveRX calls handle the frames of the bytes received, however they were cut. */
  method ReceiveAll(x: XBeeInterface, i: nat, chunks: seq<bytes>) returns (msgs: seq<bytes>)
    requires x.Valid() && i < |x.remotes|
    modifies x
    ensures x.Valid() && |x.remotes| == |old(x.remotes)|
    ensures msgs == Frames(old(x.remotes[i].rxBuffer) + Flatten(chunks))
    ensures x.remotes[i].rxBuffer == Tail(old(x.remotes[i].rxBuffer) + Flatten(chunks))
  {
    ghost var buffer := x.remotes[i].rxBuffer;
    msgs := [];
    ChunkingIsIrrelevant(buffer, chunks);
    hide Frames, Tail, Flatten;
    assert chunks[0..] == chunks;
    for j := 0 to |chunks|
      invariant x.Valid() && |x.remotes| == |old(x.remotes)|
      invariant msgs + Handled(x.remotes[i].rxBuffer, chunks[j..]) == Handled(buffer, chunks)
      invariant Kept(x.remotes[i].rxBuffer, chunks[j..]) == Kept(buffer, chunks)
    {
      hide XBeeInterface.Valid;
      assert chunks[j..][0] == chunks[j] && chunks[j..][1..] == chunks[j + 1..];
      var more := x.ReceiveRX(i, chunks[j]);
      msgs := msgs + more;
    }
    assert chunks[|chunks|..] == [];
  }
}
