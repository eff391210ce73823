/**
 * One engine sends, the bytes are cut up on their way, another engine
 * receives.
 */
module TelnetEndToEnd {
  import opened Bytes
  import opened QMethod
  import opened TelnetParser
  import opened TelnetChunks
  import opened TelnetWire
  import Telnet

  // ---------- sending ----------

  /** The library call for one item; an offer goes out as it is in proxy mode only. */
  method SendOp(t: Telnet.Telnet, op: Op)
    requires t.Valid() && (t.config.proxy || !op.Offer?)
    modifies t`q, t`qSize, t`events
    ensures t.Valid() && Emitted(old(t.events), t.events, Encode(op))
  {
    hide Emitted, Escape;
    match op
    case Text(s) => SendData(t, s);
    case Plain(cmd) => SendRaw(t, [IAC, cmd]);
    case Offer(v, o) =>
      NegotiationEmits(t.events, VerbByte(v), o);
      t.NegotiateLocally(VerbByte(v), o);
    case Sub(o, payload) => SendSubnegotiation(t, o, payload);
  }

  lemma NegotiationEmits(es: seq<Event>, cmd: byte, o: byte)
    ensures Emitted(es, es + [Send([IAC, cmd, o])], [IAC, cmd, o])
  {
    WireOne(es, Send([IAC, cmd, o]));
  }

  method SendAll(t: Telnet.Telnet, ops: seq<Op>)
    requires t.Valid() && Reportable(t.config, ops)
    modifies t`q, t`qSize, t`events
    ensures t.Valid() && Emitted(old(t.events), t.events, EncodeAll(ops))
  {
    ghost var e0 := t.events;
    EmittedNothing(e0);
    hide Emitted, Encode;
    for i := 0 to |ops|
      invariant t.Valid() && Emitted(e0, t.events, EncodeAll(ops[..i]))
    {
      ghost var e1 := t.events;
      SendOp(t, ops[i]);
      EmittedOnward(e0, e1, t.events, EncodeAll(ops[..i]), Encode(ops[i]));
      assert ops[..i + 1][..i] == ops[..i];
    }
    assert ops[..|ops|] == ops;
  }

  // ---------- what is sent holds no marker ----------

  lemma MarkerInEither(c: Config, p: Parser, a: bytes, b: bytes)
    requires Ready(p) && !HasMarker(c, p, a) && !HasMarker(c, Run(c, p, a).parser, b)
    ensures !HasMarker(c, p, a + b)
  {
    hide Run;
    var q := Run(c, p, a).parser;
    forall k | 0 <= k < |a + b|
      ensures !MarkerAt(c, p, a + b, k)
    {
      if k < |a| {
        assert (a + b)[..k] == a[..k];
        assert !MarkerAt(c, p, a, k);
      } else {
        var j := k - |a|;
        assert (a + b)[..k] == a + b[..j];
        RunAppend(c, p, a, b[..j]);
        assert !MarkerAt(c, q, b, j);
      }
    }
  }

  lemma NoMarkerWithoutWill(c: Config, p: Parser, s: bytes)
    requires Ready(p) && WILL !in s
    ensures !HasMarker(c, p, s)
  {
    hide Run;
  }

  lemma NoMarkerInOne(c: Config, p: Parser, b: byte)
    requires Ready(p) && !(p.state.InSbData? && p.sbOpt == COMPRESS && b == WILL)
    ensures !HasMarker(c, p, [b])
  {
    hide Step;
    assert [b][..0] == [];
    assert Run(c, p, []).parser == p;
    assert !MarkerAt(c, p, [b], 0);
  }

  /** One escaped byte, in a state where it cannot be a marker. */
  lemma NoMarkerInEscaped(c: Config, p: Parser, b: byte)
    requires Ready(p) && !(p.state.InSbData? && p.sbOpt == COMPRESS && b == WILL)
    ensures !HasMarker(c, p, if b == IAC then [IAC, IAC] else [b])
  {
    hide Run, HasMarker;
    if b == IAC {
      NoMarkerWithoutWill(c, p, [IAC, IAC]);
    } else {
      NoMarkerInOne(c, p, b);
    }
  }

  lemma {:induction false} NoMarkerInText(c: Config, p: Parser, s: bytes)
    requires Idle(p)
    ensures !HasMarker(c, p, Escape(s))
  {
    hide Run, HasMarker;
    if s == [] {
      NoMarkerWithoutWill(c, p, []);
    } else {
      var s', b := s[..|s| - 1], s[|s| - 1];
      NoMarkerInText(c, p, s');
      TextIsReceived(c, p, s');
      NoMarkerInEscaped(c, p, b);
      MarkerInEither(c, p, Escape(s'), if b == IAC then [IAC, IAC] else [b]);
    }
  }

  lemma {:induction false} NoMarkerInBody(c: Config, p: Parser, s: bytes)
    requires InBody(p) && p.sb == [] && SubFits(p.sbOpt, s)
    ensures !HasMarker(c, p, Escape(s))
  {
    hide Run, HasMarker;
    if s == [] {
      NoMarkerWithoutWill(c, p, []);
    } else {
      var s', b := s[..|s| - 1], s[|s| - 1];
      assert s == s' + [b];
      NoMarkerInBody(c, p, s');
      BodyIsBuffered(c, p, s');
      NoMarkerInEscaped(c, p.(sb := s'), b);
      MarkerInEither(c, p, Escape(s'), if b == IAC then [IAC, IAC] else [b]);
    }
  }

  lemma NoMarkerInSub(c: Config, p: Parser, o: byte, payload: bytes)
    requires Idle(p) && SubFits(o, payload)
    ensures !HasMarker(c, p, Encode(Sub(o, payload)))
  {
    hide Run, HasMarker, Escape;
    var head, body := [IAC, SB, o], Escape(payload);
    BeforeMisfit(c, p, o, payload);
    BeforeMisfit(c, p, o, []);
    NothingEscaped();
    assert head + [] == head;
    NoMarkerInHead(c, p, o);
    NoMarkerInBody(c, p.(state := InSbData, sbOpt := o, sb := []), payload);
    MarkerInEither(c, p, head, body);
    NoMarkerWithoutWill(c, Run(c, p, head + body).parser, [IAC, SE]);
    MarkerInEither(c, p, head + body, [IAC, SE]);
  }

  lemma NothingEscaped()
    ensures Escape([]) == []
  {
  }

  /** The option byte itself is read outside the body. */
  lemma NoMarkerInHead(c: Config, p: Parser, o: byte)
    requires Idle(p)
    ensures !HasMarker(c, p, [IAC, SB, o])
  {
    hide HasMarker;
    RunTwo(c, p, IAC, SB);
    NoMarkerWithoutWill(c, p, [IAC, SB]);
    NoMarkerInOne(c, Run(c, p, [IAC, SB]).parser, o);
    MarkerInEither(c, p, [IAC, SB], [o]);
    assert [IAC, SB] + [o] == [IAC, SB, o];
  }

  lemma NoMarkerInOffer(c: Config, p: Parser, v: Verb, o: byte)
    requires Idle(p)
    ensures !HasMarker(c, p, [IAC, VerbByte(v), o])
  {
    hide HasMarker;
    RunOne(c, p, IAC);
    RunTwo(c, p, IAC, VerbByte(v));
    NoMarkerWithoutWill(c, p, [IAC]);
    NoMarkerInOne(c, Run(c, p, [IAC]).parser, VerbByte(v));
    MarkerInEither(c, p, [IAC], [VerbByte(v)]);
    assert [IAC] + [VerbByte(v)] == [IAC, VerbByte(v)];
    NoMarkerInOne(c, Run(c, p, [IAC, VerbByte(v)]).parser, o);
    MarkerInEither(c, p, [IAC, VerbByte(v)], [o]);
    assert [IAC, VerbByte(v)] + [o] == [IAC, VerbByte(v), o];
  }

  lemma NoMarkerInOp(c: Config, p: Parser, op: Op)
    requires Idle(p) && Sendable(op)
    ensures !HasMarker(c, p, Encode(op))
  {
    hide Run, HasMarker, Escape;
    match op
    case Text(s) => NoMarkerInText(c, p, s);
    case Plain(cmd) => NoMarkerWithoutWill(c, p, [IAC, cmd]);
    case Offer(v, o) => NoMarkerInOffer(c, p, v, o);
    case Sub(o, payload) => NoMarkerInSub(c, p, o, payload);
  }

  lemma {:induction false} NoMarkerInAll(c: Config, p: Parser, ops: seq<Op>)
    requires Idle(p) && Reportable(c, ops) && forall i :: 0 <= i < |ops| ==> Sendable(ops[i])
    ensures !HasMarker(c, p, EncodeAll(ops))
  {
    hide Run, HasMarker, Encode, Sendable, DeliveredAll;
    if ops == [] {
      NoMarkerWithoutWill(c, p, []);
    } else {
      var n := |ops| - 1;
      NoMarkerInAll(c, p, ops[..n]);
      RoundTrip(c, p, ops[..n]);
      NoMarkerInOp(c, Run(c, p, EncodeAll(ops[..n])).parser, ops[n]);
      MarkerInEither(c, p, EncodeAll(ops[..n]), Encode(ops[n]));
    }
  }

  // ---------- the conversation ----------

  /** Any split of the bytes of any sequence of sends makes the receiving engine raise that sequence of
      events and return to state DATA. */
  lemma SplitRoundTrip(c: Config, p: Parser, ops: seq<Op>, chunks: seq<bytes>)
    requires Idle(p) && Reportable(c, ops) && forall i :: 0 <= i < |ops| ==> Sendable(ops[i])
    requires Flatten(chunks) == EncodeAll(ops)
    ensures RunChunks(c, p, chunks).events == DeliveredAll(c, ops)
    ensures Idle(RunChunks(c, p, chunks).parser)
  {
    hide Run, HasMarker, EncodeAll, DeliveredAll, Flatten, RunChunks, Sendable;
    NoMarkerInAll(c, p, ops);
    SplitsAreFaithful(c, p, chunks);
    RoundTrip(c, p, ops);
  }

  /** The same for the two objects; how the bytes are cut is the network's choice. */
  method Converse(sender: Telnet.Telnet, receiver: Telnet.Telnet, ops: seq<Op>, chunks: seq<bytes>)
    requires sender.Valid() && receiver.Valid() && sender != receiver && sender.buffer != receiver.buffer
    requires Reportable(sender.config, ops) && Reportable(receiver.config, ops) && receiver.state.InData?
    requires forall i :: 0 <= i < |ops| ==> Sendable(ops[i])
    requires Flatten(chunks) == EncodeAll(ops)
    modifies sender`q, sender`qSize, sender`events, receiver, receiver.buffer
    ensures Wire(sender.events) == Wire(old(sender.events)) + Flatten(chunks)
    ensures receiver.Valid() && receiver.state.InData?
    ensures Flat(receiver.events) == Flat(old(receiver.events)) + DeliveredAll(receiver.config, ops)
  {
    hide Run, HasMarker, EncodeAll, DeliveredAll, Flatten, RunChunks, Sendable, Flat, Wire, OnlySends;
    SendAll(sender, ops);
    SplitRoundTrip(receiver.config, receiver.Abs(), ops, chunks);
    ReceiveAll(receiver, chunks);
  }
}
