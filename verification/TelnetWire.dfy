/**
 * The send side of libtelnet and the round trip through the receive side.
 */
module TelnetWire {
  import opened Bytes
  import opened QMethod
  import opened TelnetParser
  import Environ
  import EnvironRoundTrip
  import OptionTable
  import Telnet

  // ---------- what is sent ----------

  /** The bytes put on the wire. */
  function Wire(es: seq<Event>): bytes {
    if es == [] then []
    else Wire(es[..|es| - 1]) + if es[|es| - 1].Send? then es[|es| - 1].bytes else []
  }

  lemma WireOne(es: seq<Event>, e: Event)
    ensures Wire(es + [e]) == Wire(es) + if e.Send? then e.bytes else []
  {
    assert (es + [e])[..|es|] == es;
  }

  /** IAC is doubled. */
  function Escape(s: bytes): bytes {
    if s == [] then []
    else Escape(s[..|s| - 1]) + if s[|s| - 1] == IAC then [IAC, IAC] else [s[|s| - 1]]
  }

  lemma {:induction false} EscapeAppend(a: bytes, b: bytes)
    ensures Escape(a + b) == Escape(a) + Escape(b)
  {
    if b == [] {
      assert a + b == a;
    } else {
      assert (a + b)[..|a + b| - 1] == a + b[..|b| - 1];
      EscapeAppend(a, b[..|b| - 1]);
    }
  }

  predicate OnlySends(before: seq<Event>, after: seq<Event>) {
    before <= after && forall k :: |before| <= k < |after| ==> after[k].Send?
  }

  lemma OnlySendsOnward(a: seq<Event>, b: seq<Event>, c: seq<Event>)
    requires OnlySends(a, b) && OnlySends(b, c)
    ensures OnlySends(a, c)
  {
  }

  /** The two facts about a stretch of sending: the bytes that went out, and that nothing else happened. */
  predicate Emitted(before: seq<Event>, after: seq<Event>, bytes: bytes) {
    OnlySends(before, after) && Wire(after) == Wire(before) + bytes
  }

  lemma EmittedOnward(a: seq<Event>, b: seq<Event>, c: seq<Event>, x: bytes, y: bytes)
    requires Emitted(a, b, x) && Emitted(b, c, y)
    ensures Emitted(a, c, x + y)
  {
    hide OnlySends, Wire;
    OnlySendsOnward(a, b, c);
    assert Wire(a) + x + y == Wire(a) + (x + y);
  }

  lemma EmittedNothing(es: seq<Event>)
    ensures Emitted(es, es, [])
  {
    hide Wire;
    assert Wire(es) + [] == Wire(es);
  }

  /** telnet_iac and the other fixed sequences. */
  method SendRaw(t: Telnet.Telnet, bytes: bytes)
    modifies t`events
    ensures Emitted(old(t.events), t.events, bytes)
  {
    WireOne(t.events, Send(bytes));
    t.Raise(Send(bytes));
  }

  /** `out` followed by the pending s[l..i] is the escaped form of s[..i]. */
  predicate Escaping(s: bytes, l: nat, i: nat, out: bytes) {
    l <= i <= |s| && out + s[l..i] == Escape(s[..i])
  }

  lemma EscapingStep(s: bytes, l: nat, i: nat, out: bytes)
    requires i < |s| && Escaping(s, l, i, out)
    ensures s[i] != IAC ==> Escaping(s, l, i + 1, out)
    ensures s[i] == IAC ==> Escaping(s, i + 1, i + 1, out + s[l..i] + [IAC, IAC])
  {
    assert s[..i + 1][..i] == s[..i];
    assert s[l..i + 1] == s[l..i] + [s[i]];
    assert out + s[l..i + 1] == out + s[l..i] + [s[i]];
    assert out + s[l..i] + [IAC, IAC] + s[i + 1..i + 1] == out + s[l..i] + [IAC, IAC];
  }

  /** telnet_send: plain runs are passed on in one piece, IAC bytes escaped. */
  method SendData(t: Telnet.Telnet, s: bytes)
    modifies t`events
    ensures Emitted(old(t.events), t.events, Escape(s))
  {
    ghost var e0, out: bytes := t.events, [];
    EmittedNothing(e0);
    assert Escaping(s, 0, 0, out);
    assert s[..|s|] == s;
    hide Emitted, Escape;
    var l, i := 0, 0;
    while i != |s|
      invariant 0 <= l <= i <= |s|
      invariant Escaping(s, l, i, out)
      invariant Emitted(e0, t.events, out)
    {
      EscapingStep(s, l, i, out);
      if s[i] == IAC {
        if i != l {
          out := SendPart(t, s[l..i], e0, out);
        } else {
          assert out + s[l..i] == out;
        }
        out := SendPart(t, [IAC, IAC], e0, out);
        l := i + 1;
      }
      i := i + 1;
    }
    if i != l {
      out := SendPart(t, s[l..i], e0, out);
    } else {
      assert out + s[l..i] == out;
    }
  }

  method SendPart(t: Telnet.Telnet, bytes: bytes, ghost e0: seq<Event>, ghost out: bytes) returns (ghost out': bytes)
    requires Emitted(e0, t.events, out)
    modifies t`events
    ensures out' == out + bytes && Emitted(e0, t.events, out')
  {
    ghost var e1 := t.events;
    SendRaw(t, bytes);
    EmittedOnward(e0, e1, t.events, out, bytes);
    out' := out + bytes;
  }

  method SendText(t: Telnet.Telnet, s: bytes, ghost e0: seq<Event>, ghost out: bytes) returns (ghost out': bytes)
    requires Emitted(e0, t.events, out)
    modifies t`events
    ensures out' == out + Escape(s) && Emitted(e0, t.events, out')
  {
    ghost var e1 := t.events;
    SendData(t, s);
    EmittedOnward(e0, e1, t.events, out, Escape(s));
    out' := out + Escape(s);
  }

  /** telnet_subnegotiation */
  method SendSubnegotiation(t: Telnet.Telnet, o: byte, payload: bytes)
    modifies t`events
    ensures Emitted(old(t.events), t.events, Encode(Sub(o, payload)))
  {
    hide Emitted, Escape;
    ghost var e0 := t.events;
    SendRaw(t, [IAC, SB, o]);
    ghost var out := SendText(t, payload, e0, [IAC, SB, o]);
    out := SendPart(t, [IAC, SE], e0, out);
  }

  /** telnet_newenviron_value for one variable. */
  method SendSetting(t: Telnet.Telnet, v: EnvironRoundTrip.Setting)
    modifies t`events
    ensures Emitted(old(t.events), t.events, Escape(EnvironRoundTrip.Encode(v)))
  {
    hide Emitted, Escape;
    ghost var e0 := t.events;
    SendData(t, [v.kind]);
    ghost var out := SendText(t, v.name, e0, Escape([v.kind]));
    EscapeAppend([v.kind], v.name);
    if v.value.Some? {
      out := SendText(t, [Environ.VALUE], e0, out);
      out := SendText(t, v.value.value, e0, out);
      EscapeAppend([v.kind] + v.name, [Environ.VALUE]);
      EscapeAppend([v.kind] + v.name + [Environ.VALUE], v.value.value);
      assert EnvironRoundTrip.Encode(v) == [v.kind] + v.name + [Environ.VALUE] + v.value.value;
    } else {
      assert EnvironRoundTrip.Encode(v) == [v.kind] + v.name;
    }
  }

  /** telnet_begin_newenviron, the variables, telnet_finish_newenviron. */
  method SendEnviron(t: Telnet.Telnet, cmd: byte, vs: seq<EnvironRoundTrip.Setting>)
    modifies t`events
    ensures Emitted(old(t.events), t.events, Encode(Sub(NEW_ENVIRON, [cmd] + EnvironRoundTrip.Payload(vs))))
  {
    hide Emitted, Escape, EnvironRoundTrip.Encode;
    ghost var e0, head := t.events, [IAC, SB, NEW_ENVIRON];
    SendRaw(t, [IAC, SB, NEW_ENVIRON]);
    ghost var out := SendText(t, [cmd], e0, head);
    ghost var sent := [cmd];
    for i := 0 to |vs|
      invariant out == head + Escape(sent)
      invariant Emitted(e0, t.events, out)
      invariant sent + EnvironRoundTrip.Payload(vs[i..]) == [cmd] + EnvironRoundTrip.Payload(vs)
    {
      ghost var e1, more := t.events, EnvironRoundTrip.Encode(vs[i]);
      SendSetting(t, vs[i]);
      EmittedOnward(e0, e1, t.events, out, Escape(more));
      EscapeAppend(sent, more);
      assert head + Escape(sent) + Escape(more) == head + (Escape(sent) + Escape(more));
      assert sent + (more + EnvironRoundTrip.Payload(vs[i + 1..])) == (sent + more) + EnvironRoundTrip.Payload(vs[i + 1..]);
      out, sent := out + Escape(more), sent + more;
    }
    assert EnvironRoundTrip.Payload(vs[|vs|..]) == [];
    assert sent + [] == sent;
    out := SendPart(t, [IAC, SE], e0, out);
  }

  // ---------- sending, then receiving ----------

  /** What a caller can send in proxy mode. */
  datatype Op = Text(bytes: bytes) | Plain(cmd: byte) | Offer(verb: Verb, telopt: byte) | Sub(telopt: byte, payload: bytes)

  function Encode(op: Op): bytes {
    match op
    case Text(s) => Escape(s)
    case Plain(cmd) => [IAC, cmd]
    case Offer(v, o) => [IAC, VerbByte(v), o]
    case Sub(o, payload) => [IAC, SB, o] + Escape(payload) + [IAC, SE]
  }

  function EncodeAll(ops: seq<Op>): bytes {
    if ops == [] then [] else EncodeAll(ops[..|ops| - 1]) + Encode(ops[|ops| - 1])
  }

  /** What the receiver's handler is told. */
  function Delivered(c: Config, op: Op): seq<Event> {
    match op
    case Text(s) => Cut(s)
    case Plain(cmd) => [Command(cmd)]
    case Offer(v, o) => [Negotiation(v, o)]
    case Sub(o, payload) => SubEvents(c, o, payload)
  }

  function DeliveredAll(c: Config, ops: seq<Op>): seq<Event> {
    if ops == [] then [] else DeliveredAll(c, ops[..|ops| - 1]) + Delivered(c, ops[|ops| - 1])
  }

  predicate SubFits(o: byte, payload: bytes) {
    |payload| <= SB_LIMIT && !(o == COMPRESS && WILL in payload)
  }

  predicate Sendable(op: Op) {
    && (op.Plain? ==> op.cmd !in {SB, WILL, WONT, DO, DONT, IAC})
    && (op.Sub? ==> SubFits(op.telopt, op.payload))
  }

  /** Offers are answered, not reported, unless the receiver only passes them on. */
  predicate Reportable(c: Config, ops: seq<Op>) { c.proxy || forall i :: 0 <= i < |ops| ==> !ops[i].Offer? }

  predicate Idle(p: Parser) { Ready(p) && p.state.InData? && !p.skip }

  lemma RunTwo(c: Config, p: Parser, x: byte, y: byte)
    requires Ready(p)
    ensures
      var r := Step(c, p, x);
      var r' := Step(c, r.parser, y);
      Run(c, p, [x, y]) == Out(r'.parser, r.events + r'.events)
  {
    hide Step;
    RunOne(c, p, x);
    RunSnoc(c, p, [x], y);
    assert [x, y] == [x] + [y];
  }

  /** The steps of escaped bytes, in data and in a sub-negotiation. */
  lemma EscapedByteInData(c: Config, p: Parser, b: byte)
    requires Idle(p)
    ensures Run(c, p, if b == IAC then [IAC, IAC] else [b]) == Out(p, [Data([b])])
  {
    if b == IAC {
      RunTwo(c, p, IAC, IAC);
    } else {
      RunOne(c, p, b);
    }
  }

  predicate InBody(p: Parser) { Ready(p) && p.state.InSbData? && !p.skip }

  lemma EscapedByteInSub(c: Config, p: Parser, b: byte)
    requires InBody(p) && !(p.sbOpt == COMPRESS && b == WILL)
    ensures Run(c, p, if b == IAC then [IAC, IAC] else [b]) == Pushed(p, b)
  {
    if b == IAC {
      RunTwo(c, p, IAC, IAC);
    } else {
      RunOne(c, p, b);
    }
  }

  lemma {:induction false} TextIsReceived(c: Config, p: Parser, s: bytes)
    requires Idle(p)
    ensures Run(c, p, Escape(s)) == Out(p, Cut(s))
  {
    hide Step;
    if s != [] {
      var s', b := s[..|s| - 1], s[|s| - 1];
      TextIsReceived(c, p, s');
      RunAppend(c, p, Escape(s'), if b == IAC then [IAC, IAC] else [b]);
      EscapedByteInData(c, p, b);
      assert Cut(s) == Cut(s') + [Data([b])];
    }
  }

  lemma {:induction false} BodyIsBuffered(c: Config, p: Parser, s: bytes)
    requires InBody(p) && p.sb == [] && SubFits(p.sbOpt, s)
    ensures Run(c, p, Escape(s)) == Out(p.(sb := s), [])
  {
    hide Step;
    if s != [] {
      var s', b := s[..|s| - 1], s[|s| - 1];
      assert s == s' + [b];
      BodyIsBuffered(c, p, s');
      RunAppend(c, p, Escape(s'), if b == IAC then [IAC, IAC] else [b]);
      EscapedByteInSub(c, p.(sb := s'), b);
    }
  }

  lemma SubStarts(c: Config, p: Parser, o: byte)
    requires Idle(p)
    ensures Run(c, p, [IAC, SB, o]) == Out(p.(state := InSbData, sbOpt := o, sb := []), [])
  {
    RunTwo(c, p, IAC, SB);
    RunSnoc(c, p, [IAC, SB], o);
    assert [IAC, SB, o] == [IAC, SB] + [o];
  }

  lemma SubEnds(c: Config, p: Parser)
    requires InBody(p)
    ensures Run(c, p, [IAC, SE]) == Out(p.(state := InData, sb := []), SubEvents(c, p.sbOpt, p.sb))
  {
    RunTwo(c, p, IAC, SE);
    assert [] + SubEvents(c, p.sbOpt, p.sb) == SubEvents(c, p.sbOpt, p.sb);
  }

  lemma SubIsReceived(c: Config, p: Parser, o: byte, payload: bytes)
    requires Idle(p) && SubFits(o, payload)
    ensures Run(c, p, Encode(Sub(o, payload))) == Out(p.(sbOpt := o, sb := []), SubEvents(c, o, payload))
  {
    hide Step, Escape, SubEvents;
    var q := p.(state := InSbData, sbOpt := o, sb := []);
    SubStarts(c, p, o);
    BodyIsBuffered(c, q, payload);
    RunAppend(c, p, [IAC, SB, o], Escape(payload));
    SubEnds(c, q.(sb := payload));
    RunAppend(c, p, [IAC, SB, o] + Escape(payload), [IAC, SE]);
    assert [] + SubEvents(c, o, payload) == SubEvents(c, o, payload);
  }

  lemma PlainIsReceived(c: Config, p: Parser, cmd: byte)
    requires Idle(p) && Sendable(Plain(cmd))
    ensures Run(c, p, Encode(Plain(cmd))) == Out(p, Delivered(c, Plain(cmd)))
  {
    RunTwo(c, p, IAC, cmd);
  }

  lemma OfferIsReceived(c: Config, p: Parser, v: Verb, o: byte)
    requires c.proxy && Idle(p)
    ensures Run(c, p, Encode(Offer(v, o))) == Out(p, Delivered(c, Offer(v, o)))
  {
    RunTwo(c, p, IAC, VerbByte(v));
    RunSnoc(c, p, [IAC, VerbByte(v)], o);
    assert [IAC, VerbByte(v), o] == [IAC, VerbByte(v)] + [o];
  }

  lemma OpIsReceived(c: Config, p: Parser, op: Op)
    requires Idle(p) && Sendable(op) && (c.proxy || !op.Offer?)
    ensures Run(c, p, Encode(op)).events == Delivered(c, op)
    ensures Idle(Run(c, p, Encode(op)).parser) && Run(c, p, Encode(op)).parser.table == p.table
  {
    hide Step, Run, Escape, SubEvents;
    match op
    case Text(s) => TextIsReceived(c, p, s);
    case Plain(cmd) => PlainIsReceived(c, p, cmd);
    case Offer(v, o) => OfferIsReceived(c, p, v, o);
    case Sub(o, payload) => SubIsReceived(c, p, o, payload);
  }

  /** The bytes of any sequence of sends come out as that sequence; offers among them, if the receiver is in
      proxy mode. */
  lemma {:induction false} RoundTrip(c: Config, p: Parser, ops: seq<Op>)
    requires Idle(p) && Reportable(c, ops) && forall i :: 0 <= i < |ops| ==> Sendable(ops[i])
    ensures Run(c, p, EncodeAll(ops)).events == DeliveredAll(c, ops)
    ensures Idle(Run(c, p, EncodeAll(ops)).parser) && Run(c, p, EncodeAll(ops)).parser.table == p.table
  {
    if ops != [] {
      hide Step, Delivered, Encode;
      var n := |ops| - 1;
      RoundTrip(c, p, ops[..n]);
      OpIsReceived(c, Run(c, p, EncodeAll(ops[..n])).parser, ops[n]);
      RunAppend(c, p, EncodeAll(ops[..n]), Encode(ops[n]));
    }
  }

  // ---------- exactly when a sub-negotiation survives ----------

  /** Nothing but data after the sub-negotiation has been given up. */
  predicate NoSub(es: seq<Event>) { forall i :: 0 <= i < |es| ==> !es[i].Subnegotiation? }

  lemma NoSubAppend(a: seq<Event>, b: seq<Event>)
    requires NoSub(a) && NoSub(b)
    ensures NoSub(a + b)
  {
  }

  lemma LeftoverByte(c: Config, p: Parser, x: byte, y: byte)
    requires Ready(p) && p.state.InData?
    requires x == IAC ==> y == IAC || y == SE
    ensures
      var r := Run(c, p, if x == IAC then [x, y] else [x]);
      NoSub(r.events) && Ready(r.parser) && r.parser.state.InData?
  {
    hide Run, Negotiated, SubEvents, Pushed;
    if x == IAC {
      RunTwo(c, p, x, y);
    } else {
      RunOne(c, p, x);
    }
  }

  lemma {:induction false} LeftoverIsData(c: Config, p: Parser, s: bytes)
    requires Ready(p) && p.state.InData?
    ensures
      var r := Run(c, p, Escape(s));
      NoSub(r.events) && Ready(r.parser) && r.parser.state.InData?
  {
    if s != [] {
      hide Step, NoSub;
      var s', b := s[..|s| - 1], s[|s| - 1];
      LeftoverIsData(c, p, s');
      var q := Run(c, p, Escape(s'));
      var eb := if b == IAC then [b, IAC] else [b];
      RunAppend(c, p, Escape(s'), eb);
      LeftoverByte(c, q.parser, b, IAC);
      NoSubAppend(q.events, Run(c, q.parser, eb).events);
    }
  }

  /** The first byte that does not fit. */
  lemma {:induction false} FirstMisfit(o: byte, payload: bytes) returns (n: nat)
    requires !SubFits(o, payload)
    ensures n < |payload| && SubFits(o, payload[..n])
    ensures n == SB_LIMIT || (o == COMPRESS && payload[n] == WILL)
    decreases |payload|
  {
    var n' := |payload| - 1;
    if SubFits(o, payload[..n']) {
      n := n';
      assert payload == payload[..n] + [payload[n]];
    } else {
      n := FirstMisfit(o, payload[..n']);
      assert payload[..n'][..n] == payload[..n];
    }
  }

  /** The wire form around byte n of the payload. */
  lemma EncodingAround(o: byte, payload: bytes, n: nat)
    requires n < |payload|
    ensures
      var eb := if payload[n] == IAC then [IAC, IAC] else [payload[n]];
      Encode(Sub(o, payload)) ==
      [IAC, SB, o] + Escape(payload[..n]) + eb + (Escape(payload[n + 1..]) + [IAC, SE])
  {
    assert payload[..n + 1][..n] == payload[..n];
    assert payload == payload[..n + 1] + payload[n + 1..];
    EscapeAppend(payload[..n + 1], payload[n + 1..]);
  }

  /** The parser after everything before byte n, when all of that fits. */
  lemma BeforeMisfit(c: Config, p: Parser, o: byte, s: bytes)
    requires Idle(p) && SubFits(o, s)
    ensures Run(c, p, [IAC, SB, o] + Escape(s)) == Out(p.(state := InSbData, sbOpt := o, sb := s), [])
  {
    hide Step;
    SubStarts(c, p, o);
    BodyIsBuffered(c, p.(state := InSbData, sbOpt := o, sb := []), s);
    RunAppend(c, p, [IAC, SB, o], Escape(s));
  }

  lemma MisfitIsLost(c: Config, p: Parser, o: byte, payload: bytes)
    requires Idle(p) && !SubFits(o, payload)
    ensures Run(c, p, Encode(Sub(o, payload))).events != SubEvents(c, o, payload)
  {
    var n := FirstMisfit(o, payload);
    hide Step, SubFits, Encode, Run, Escape;
    var b, after := payload[n], payload[n + 1..];
    EncodingAround(o, payload, n);
    BeforeMisfit(c, p, o, payload[..n]);
    var q := p.(state := InSbData, sbOpt := o, sb := payload[..n]);
    var eb := if b == IAC then [IAC, IAC] else [b];
    var start, tail := [IAC, SB, o] + Escape(payload[..n]), Escape(after) + [IAC, SE];
    RunAppend(c, p, start, eb);
    RunAppend(c, p, start + eb, tail);
    if o == COMPRESS && b == WILL {
      MarkerThenLeftover(c, q, after);
    } else {
      EscapedByteInSub(c, q, b);
      assert Run(c, p, start + eb).events == [Warning(SbOverflow)];
    }
    assert SubEvents(c, o, payload)[0].Subnegotiation?;
  }

  lemma MarkerStep(c: Config, q: Parser)
    requires InBody(q) && q.sbOpt == COMPRESS
    ensures Run(c, q, [WILL]).events == [] && Run(c, q, [WILL]).parser.state.InData?
  {
    RunOne(c, q, WILL);
  }

  lemma MarkerThenLeftover(c: Config, q: Parser, after: bytes)
    requires InBody(q) && q.sbOpt == COMPRESS
    ensures Run(c, q, [WILL]).events == []
    ensures NoSub(Run(c, Run(c, q, [WILL]).parser, Escape(after) + [IAC, SE]).events)
  {
    hide Step, Run, NoSub, Escape;
    MarkerStep(c, q);
    var m := Run(c, q, [WILL]).parser;
    LeftoverIsData(c, m, after);
    RunAppend(c, m, Escape(after), [IAC, SE]);
    LeftoverByte(c, Run(c, m, Escape(after)).parser, IAC, SE);
    NoSubAppend(Run(c, m, Escape(after)).events, Run(c, Run(c, m, Escape(after)).parser, [IAC, SE]).events);
  }

  /** A sub-negotiation reaches the handler unchanged if and only if it has at most 16384 bytes and
      is not an option-85 payload containing WILL. */
  lemma SubSurvivesExactlyIfItFits(c: Config, p: Parser, o: byte, payload: bytes)
    requires Idle(p)
    ensures Run(c, p, Encode(Sub(o, payload))).events == SubEvents(c, o, payload) <==> SubFits(o, payload)
  {
    if SubFits(o, payload) {
      SubIsReceived(c, p, o, payload);
    } else {
      MisfitIsLost(c, p, o, payload);
    }
  }

  /** NEW-ENVIRON end to end: a list that fits, sent by SendEnviron and received in state DATA, is
      reported to the handler unchanged if and only if its strings are plain. */
  lemma EnvironSurvivesExactlyIfPlain(c: Config, p: Parser, cmd: byte, vs: seq<EnvironRoundTrip.Setting>)
    requires Idle(p) && cmd <= 2 && EnvironRoundTrip.AllSendable(vs)
    requires 1 + |EnvironRoundTrip.Payload(vs)| <= SB_LIMIT
    ensures
      var payload := [cmd] + EnvironRoundTrip.Payload(vs);
      Run(c, p, Encode(Sub(NEW_ENVIRON, payload))).events ==
        [Subnegotiation(NEW_ENVIRON, payload), EnvironList(cmd, EnvironRoundTrip.Expected(vs))]
      <==> EnvironRoundTrip.AllPlain(vs)
  {
    var payload := [cmd] + EnvironRoundTrip.Payload(vs);
    SubIsReceived(c, p, NEW_ENVIRON, payload);
    EnvironRoundTrip.ListSurvivesExactlyIfPlain(cmd, vs);
    hide Environ.Meaning, Run, Encode;
    var events := SubEvents(c, NEW_ENVIRON, payload);
    var want := EnvironList(cmd, EnvironRoundTrip.Expected(vs));
    assert events == [Subnegotiation(NEW_ENVIRON, payload)] + EnvironEvents(NEW_ENVIRON, Environ.Meaning(payload));
    assert events == [Subnegotiation(NEW_ENVIRON, payload), want] <==> |events| == 2 && events[1] == want;
  }
}
