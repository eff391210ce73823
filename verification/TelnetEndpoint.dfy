/**
 * The engine is an endpoint of the two-party system: a negotiation message
 * taken off the wire, and a local request, act on the option table as
 * TwoParty says they act on a map of option states.
 */
module TelnetEndpoint {
  import opened Bytes
  import opened QMethod
  import opened OptionTable
  import opened TelnetParser
  import opened TelnetWire
  import TwoParty

  /** What the support table of a configuration says. */
  function SupportOf(c: Config): TwoParty.Support {
    TwoParty.Support((o: byte) => CheckTelopt(c.telopts, o, true), (o: byte) => CheckTelopt(c.telopts, o, false))
  }

  /** The wire form of messages in flight. */
  function OnWire(ms: seq<TwoParty.Msg>): bytes {
    if ms == [] then []
    else OnWire(ms[..|ms| - 1]) + [IAC, VerbByte(ms[|ms| - 1].verb), ms[|ms| - 1].opt]
  }

  predicate HasRoom(t: Table, o: byte)
    requires WellFormed(t)
  {
    Grows(t, o) ==> t.size + 4 < 256
  }

  lemma UpdateRepresents(t: Table, m: map<byte, Pair>, o: byte, p: Pair)
    requires WellFormed(t) && Represents(t, m) && HasRoom(t, o)
    ensures Represents(Update(t, o, p), m[o := p])
  {
    hide Store, Lookup, Find, WellFormed;
    forall o': byte
      ensures Lookup(Update(t, o, p), o') == if o' in m[o := p] then m[o := p][o'] else Off
    {
      assert Lookup(t, o') == if o' in m then m[o'] else Off;
      StoreThenLookup(t, o, p, o');
    }
  }

  lemma MessageRuns(c: Config, p: Parser, v: Verb, o: byte)
    requires Idle(p)
    ensures
      var r := Negotiated(c, p.(state := InNegotiation(v)), v, o);
      Run(c, p, [IAC, VerbByte(v), o]) == r.(parser := r.parser.(state := InData))
  {
    hide Negotiated;
    RunTwo(c, p, IAC, VerbByte(v));
    RunSnoc(c, p, [IAC, VerbByte(v)], o);
    assert [IAC, VerbByte(v), o] == [IAC, VerbByte(v)] + [o];
    var r := Negotiated(c, p.(state := InNegotiation(v)), v, o);
    assert [] + r.events == r.events;
  }

  lemma {:induction false} WireAppend(a: seq<Event>, b: seq<Event>)
    ensures Wire(a + b) == Wire(a) + Wire(b)
  {
    if b == [] {
      assert a + b == a;
    } else {
      assert (a + b)[..|a + b| - 1] == a + b[..|b| - 1];
      WireAppend(a, b[..|b| - 1]);
    }
  }

  lemma {:induction false} NothingSent(es: seq<Event>)
    requires forall i :: 0 <= i < |es| ==> !es[i].Send?
    ensures Wire(es) == []
  {
    if es != [] {
      NothingSent(es[..|es| - 1]);
    }
  }

  lemma {:induction false} VerbsSent(vs: seq<Verb>, o: byte)
    ensures Wire(AllSent(vs, o)) == OnWire(TwoParty.Tag(vs, o))
  {
    var sends, ms := AllSent(vs, o), TwoParty.Tag(vs, o);
    if vs != [] {
      var n := |vs| - 1;
      VerbsSent(vs[..n], o);
      assert sends[..n] == AllSent(vs[..n], o);
      assert ms[..n] == TwoParty.Tag(vs[..n], o);
    }
  }

  lemma SentForReaction(r: Reaction, v: Verb, o: byte)
    ensures Wire(ReactionEvents(r, v, o)) == OnWire(TwoParty.Tag(r.send, o))
  {
    hide Wire, OnWire;
    var sends := AllSent(r.send, o);
    var notes := seq(|r.events|, i requires 0 <= i < |r.events| => Negotiation(r.events[i], o))
                 + if r.protocolError then [Warning(AnsweredBy(v))] else [];
    assert ReactionEvents(r, v, o) == sends + notes;
    VerbsSent(r.send, o);
    NothingSent(notes);
    WireAppend(sends, notes);
  }

  /** The reaction of an endpoint of TwoParty to a message. */
  function Reacts(c: Config, m: map<byte, Pair>, msg: TwoParty.Msg): Reaction {
    Receive(TwoParty.End(m, []).Get(msg.opt), msg.verb, SupportOf(c).us(msg.opt), SupportOf(c).him(msg.opt))
  }

  lemma ReceptionReacts(c: Config, p: Parser, m: map<byte, Pair>, msg: TwoParty.Msg)
    requires !c.proxy && Idle(p) && Represents(p.table, m)
    ensures
      var r, run := Reacts(c, m, msg), Run(c, p, OnWire([msg]));
      && run.events == ReactionEvents(r, msg.verb, msg.opt)
      && run.parser == p.(table := Update(p.table, msg.opt, r.pair))
  {
    hide Receive, Run, Lookup, Update, WellFormed;
    var ms := [msg];
    assert OnWire(ms[..0]) == [];
    var wire := [IAC, VerbByte(msg.verb), msg.opt];
    assert OnWire(ms) == [] + wire == wire;
    MessageRuns(c, p, msg.verb, msg.opt);
    assert Lookup(p.table, msg.opt) == TwoParty.End(m, []).Get(msg.opt);
  }

  /** Delivering a message to an endpoint of TwoParty is what the engine does with its three bytes:
      the same new option states, and the same answer on the wire. */
  lemma DeliveryIsReception(c: Config, p: Parser, m: map<byte, Pair>, msg: TwoParty.Msg)
    requires !c.proxy && Idle(p) && Represents(p.table, m) && HasRoom(p.table, msg.opt)
    ensures
      var r, run := Reacts(c, m, msg), Run(c, p, OnWire([msg]));
      && Idle(run.parser)
      && Represents(run.parser.table, m[msg.opt := r.pair])
      && Wire(run.events) == OnWire(TwoParty.Tag(r.send, msg.opt))
  {
    hide Reacts, Wire, OnWire, Represents, Run, Update;
    ReceptionReacts(c, p, m, msg);
    UpdateRepresents(p.table, m, msg.opt, Reacts(c, m, msg).pair);
    SentForReaction(Reacts(c, m, msg), msg.verb, msg.opt);
  }

  /** A local request, as telnet_negotiate carries it out, is a call of TwoParty: the same new option
      states, and the same command on the wire. */
  lemma CallIsRequest(t: Table, m: map<byte, Pair>, v: Verb, o: byte)
    requires WellFormed(t) && Represents(t, m) && HasRoom(t, o)
    ensures
      var (p, vs) := Request(TwoParty.End(m, []).Get(o), v);
      && Request(Lookup(t, o), v) == (p, vs)
      && Represents(Update(t, o, p), m[o := p])
      && Wire(if vs == [] then [] else [NegotiationSent(v, o)]) == OnWire(TwoParty.Tag(vs, o))
  {
    hide Lookup, Update, WellFormed, Wire, OnWire;
    assert Lookup(t, o) == TwoParty.End(m, []).Get(o);
    var (p, vs) := Request(TwoParty.End(m, []).Get(o), v);
    UpdateRepresents(t, m, o, p);
    VerbsSent(vs, o);
    assert vs == [] || vs == [v];
    assert AllSent(vs, o) == if vs == [] then [] else [NegotiationSent(v, o)];
  }
}
