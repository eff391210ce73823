/**
 * What the event handler is told about options, against what the table says:
 * when each event is raised, and whether the last one heard still holds.
 */
module HandlerTold {
  import opened Bytes
  import opened QMethod
  import opened OptionTable
  import opened TelnetParser
  import opened TelnetWire
  import opened TelnetEndpoint
  import opened TelnetPair

  // ---------- one reception ----------

  /** One side of an option comes on, or was wanted off again before it came on. */
  predicate ComesOn(before: Q, after: Q) {
    (before != Yes && after == Yes) || (before == WantYesOp && after == WantNo)
  }

  /** One side goes off that was on or on its way off. */
  predicate GoesOff(before: Q, after: Q) { (before == Yes || before == WantNo) && after == No }

  /** When the handler is told what: WILL and WONT about the other side, DO and DONT about this one; and
      three cases in which the code says something else: WONT in WANTNO_OP is reported as DO, DONT in
      WANTNO as WONT, DONT in WANTNO_OP as WILL. */
  lemma ToldExactly(p: Pair, v: Verb, supportUs: bool, supportHim: bool)
    ensures
      var r := Receive(p, v, supportUs, supportHim);
      && |r.events| <= 1
      && (Will in r.events <==> (v == Will && ComesOn(p.him, r.pair.him)) || (v == Dont && p.us == WantNoOp))
      && (Wont in r.events <==>
            || ((v == Wont || v == Will) && GoesOff(p.him, r.pair.him))
            || (v == Dont && p.us == WantNo))
      && (Do in r.events <==> (v == Do && ComesOn(p.us, r.pair.us)) || (v == Wont && p.him == WantNoOp))
      && (Dont in r.events <==>
            || (v == Do && GoesOff(p.us, r.pair.us))
            || (v == Dont && p.us == Yes && r.pair.us == No))
  {
  }

  /** The warning that a refusal was answered by consent. */
  lemma WarnedExactly(p: Pair, v: Verb, supportUs: bool, supportHim: bool)
    ensures
      var q := if v == Will then p.him else p.us;
      Receive(p, v, supportUs, supportHim).protocolError <==> (v == Will || v == Do) && (q == WantNo || q == WantNoOp)
  {
  }

  predicate Asks(v: Verb) { v == Will || v == Do }
  predicate AboutHim(v: Verb) { v == Will || v == Wont }

  /** The command that consents to v or does what it asks, and the one that refuses v or takes it back. */
  function Agreeing(v: Verb): Verb { if AboutHim(v) then Do else Will }
  function Refusing(v: Verb): Verb { if AboutHim(v) then Dont else Wont }

  /** What is answered: a new request, by the support table; one that is no longer wanted, by taking the own
      request back; the end of an option that is on, by confirming it; and DONT in WANTNO_OP by a new offer,
      while WONT in WANTNO_OP is answered by nothing. */
  lemma AnsweredExactly(p: Pair, v: Verb, supportUs: bool, supportHim: bool)
    ensures
      var r := Receive(p, v, supportUs, supportHim);
      var q, supported := if AboutHim(v) then p.him else p.us, if AboutHim(v) then supportHim else supportUs;
      r.send ==
      if Asks(v) && q == No then [if supported then Agreeing(v) else Refusing(v)]
      else if (Asks(v) && q == WantYesOp) || (!Asks(v) && q == Yes) then [Refusing(v)]
      else if v == Dont && q == WantNoOp then [Will] else []
  {
  }

  /** A request for what is already so is not answered, not reported, and changes nothing. */
  lemma NothingNewIsIgnored(p: Pair, v: Verb, supportUs: bool, supportHim: bool)
    requires (if AboutHim(v) then p.him else p.us) == if Asks(v) then Yes else No
    ensures Receive(p, v, supportUs, supportHim) == Reaction(p, [], [], false)
  {
  }

  // ---------- runs of one option ----------

  datatype Happening = Received(verb: Verb) | Wished(verb: Verb)

  /** What a handler takes to be on that believes the last event it heard. */
  datatype Belief = Belief(us: bool, him: bool)

  function Hear(b: Belief, e: Verb): Belief {
    match e
    case Will => b.(him := true)
    case Wont => b.(him := false)
    case Do => b.(us := true)
    case Dont => b.(us := false)
  }

  function HearAll(b: Belief, es: seq<Verb>): Belief
    decreases |es|
  {
    if es == [] then b else HearAll(Hear(b, es[0]), es[1..])
  }

  /** On, or refused and not yet answered. */
  predicate InForce(q: Q) { q == Yes || q == WantNo || q == WantNoOp }

  predicate Right(p: Pair, b: Belief) { (b.us <==> InForce(p.us)) && (b.him <==> InForce(p.him)) }

  /** The next pair, and the events. */
  function Next(p: Pair, h: Happening, supportUs: bool, supportHim: bool): (Pair, seq<Verb>) {
    match h
    case Received(v) => var r := Receive(p, v, supportUs, supportHim); (r.pair, r.events)
    case Wished(v) => (Request(p, v).0, [])
  }

  /** The three receptions that are reported as something else. */
  predicate Irregular(p: Pair, h: Happening) {
    h.Received? && ((h.verb == Wont && p.him == WantNoOp) || (h.verb == Dont && (p.us == WantNo || p.us == WantNoOp)))
  }

  lemma StepIsRightExactly(p: Pair, b: Belief, h: Happening, supportUs: bool, supportHim: bool)
    requires Right(p, b)
    ensures
      var (p', es) := Next(p, h, supportUs, supportHim);
      Right(p', HearAll(b, es)) <==> !Irregular(p, h)
  {
    if h.Received? {
      ToldExactly(p, h.verb, supportUs, supportHim);
      hide InForce;
      var r := Receive(p, h.verb, supportUs, supportHim);
      assert r.events != [] ==> r.events == [r.events[0]] && r.events[1..] == [];
    }
  }

  ghost predicate AlwaysRight(p: Pair, b: Belief, hs: seq<Happening>, supportUs: bool, supportHim: bool)
    decreases |hs|
  {
    Right(p, b) &&
    (hs != [] ==>
       var (p', es) := Next(p, hs[0], supportUs, supportHim);
       AlwaysRight(p', HearAll(b, es), hs[1..], supportUs, supportHim))
  }

  predicate NeverIrregular(p: Pair, hs: seq<Happening>, supportUs: bool, supportHim: bool)
    decreases |hs|
  {
    hs != [] ==>
      !Irregular(p, hs[0]) && NeverIrregular(Next(p, hs[0], supportUs, supportHim).0, hs[1..], supportUs, supportHim)
  }

  /** Over any run of receptions and local requests, what the handler was last told about each side holds
      at every moment if and only if none of the three irregular receptions happens. */
  lemma {:induction false} ToldRightThroughoutExactly(p: Pair, b: Belief, hs: seq<Happening>, supportUs: bool, supportHim: bool)
    requires Right(p, b)
    ensures AlwaysRight(p, b, hs, supportUs, supportHim) <==> NeverIrregular(p, hs, supportUs, supportHim)
    decreases |hs|
  {
    if hs != [] {
      hide Next, HearAll, Irregular;
      var (p', es) := Next(p, hs[0], supportUs, supportHim);
      StepIsRightExactly(p, b, hs[0], supportUs, supportHim);
      if Right(p', HearAll(b, es)) {
        ToldRightThroughoutExactly(p', HearAll(b, es), hs[1..], supportUs, supportHim);
      } else {
        assert !AlwaysRight(p', HearAll(b, es), hs[1..], supportUs, supportHim);
      }
    }
  }

  /** It starts right: everything is off and nothing was said. */
  lemma SilenceIsRight()
    ensures Right(Off, Belief(false, false))
  {
  }

  // ---------- the engine ----------

  /** The negotiation events about o, in order. */
  function ToldAbout(es: seq<Event>, o: byte): seq<Verb> {
    if es == [] then []
    else
      var n := |es| - 1;
      ToldAbout(es[..n], o) + if es[n].Negotiation? && es[n].telopt == o then [es[n].verb] else []
  }

  lemma {:induction false} ToldAppend(a: seq<Event>, b: seq<Event>, o: byte)
    ensures ToldAbout(a + b, o) == ToldAbout(a, o) + ToldAbout(b, o)
  {
    if b == [] {
      assert a + b == a;
    } else {
      assert (a + b)[..|a + b| - 1] == a + b[..|b| - 1];
      ToldAppend(a, b[..|b| - 1], o);
    }
  }

  predicate Quiet(es: seq<Event>) { forall i :: 0 <= i < |es| ==> !es[i].Negotiation? }

  lemma {:induction false} QuietTellsNothing(es: seq<Event>, o: byte)
    requires Quiet(es)
    ensures ToldAbout(es, o) == []
  {
    if es != [] {
      QuietTellsNothing(es[..|es| - 1], o);
    }
  }

  function Notes(vs: seq<Verb>, o: byte): seq<Event> {
    seq(|vs|, i requires 0 <= i < |vs| => Negotiation(vs[i], o))
  }

  lemma {:induction false} NotesTell(vs: seq<Verb>, o: byte, o': byte)
    ensures ToldAbout(Notes(vs, o), o') == if o' == o then vs else []
  {
    if vs != [] {
      var n := |vs| - 1;
      NotesTell(vs[..n], o, o');
      assert Notes(vs, o)[..n] == Notes(vs[..n], o);
    }
  }

  function Cautions(r: Reaction, v: Verb): seq<Event> { if r.protocolError then [Warning(AnsweredBy(v))] else [] }

  lemma ReactionParts(r: Reaction, v: Verb, o: byte)
    ensures ReactionEvents(r, v, o) == AllSent(r.send, o) + Notes(r.events, o) + Cautions(r, v)
    ensures Quiet(AllSent(r.send, o)) && Quiet(Cautions(r, v))
  {
  }

  /** A reaction tells the handler exactly its events. */
  lemma ReactionTells(r: Reaction, v: Verb, o: byte, o': byte)
    ensures ToldAbout(ReactionEvents(r, v, o), o') == if o' == o then r.events else []
  {
    hide ToldAbout, Notes, Quiet, ReactionEvents, Cautions;
    ReactionParts(r, v, o);
    QuietTellsNothing(AllSent(r.send, o), o');
    NotesTell(r.events, o, o');
    QuietTellsNothing(Cautions(r, v), o');
    ToldAppend(AllSent(r.send, o), Notes(r.events, o), o');
    ToldAppend(AllSent(r.send, o) + Notes(r.events, o), Cautions(r, v), o');
  }

  /** It warns exactly of its error. */
  lemma ReactionWarns(r: Reaction, v: Verb, o: byte)
    ensures Warning(AnsweredBy(v)) in ReactionEvents(r, v, o) <==> r.protocolError
  {
    hide ReactionEvents;
    ReactionParts(r, v, o);
    NotesWarnNothing(r.events, o);
    assert forall e :: e in AllSent(r.send, o) ==> e.Send?;
  }

  /** The answer is sent before the handler hears of the change, and the warning comes last. */
  lemma AnswerComesFirst(r: Reaction, v: Verb, o: byte)
    ensures
      var es := ReactionEvents(r, v, o);
      && (forall i, j :: 0 <= i < j < |es| && es[j].Send? ==> es[i].Send?)
      && (forall i, j :: 0 <= i < j < |es| && es[i].Warning? ==> es[j].Warning?)
  {
    hide ReactionEvents;
    ReactionParts(r, v, o);
    NotesWarnNothing(r.events, o);
    var a, n, w := AllSent(r.send, o), Notes(r.events, o), Cautions(r, v);
    assert forall e :: e in a ==> e.Send?;
    assert forall e :: e in w ==> e.Warning?;
    hide AllSent, Notes, Cautions;
    InOrder(a, n, w);
  }

  lemma InOrder(a: seq<Event>, n: seq<Event>, w: seq<Event>)
    requires forall e :: e in a ==> e.Send?
    requires forall e :: e in n ==> e.Negotiation?
    requires forall e :: e in w ==> e.Warning?
    ensures
      var es := a + n + w;
      && (forall i, j :: 0 <= i < j < |es| && es[j].Send? ==> es[i].Send?)
      && (forall i, j :: 0 <= i < j < |es| && es[i].Warning? ==> es[j].Warning?)
  {
    var es := a + n + w;
    forall i | 0 <= i < |es|
      ensures es[i].Send? <==> i < |a|
      ensures es[i].Warning? <==> i >= |a| + |n|
    {
      if i < |a| {
        assert es[i] == a[i] && a[i] in a;
      } else if i < |a| + |n| {
        assert es[i] == n[i - |a|] && n[i - |a|] in n;
      } else {
        assert es[i] == w[i - |a| - |n|] && w[i - |a| - |n|] in w;
      }
    }
  }

  lemma NotesWarnNothing(vs: seq<Verb>, o: byte)
    ensures forall e :: e in Notes(vs, o) ==> e.Negotiation?
  {
  }

  /** Outside a negotiation message nothing is told, whatever the byte. */
  lemma OtherBytesTellNothing(c: Config, p: Parser, b: byte, o: byte)
    requires Ready(p) && !p.state.InNegotiation?
    ensures ToldAbout(Step(c, p, b).events, o) == []
  {
    hide Environ.Meaning;
    assert Quiet(Step(c, p, b).events);
    QuietTellsNothing(Step(c, p, b).events, o);
  }

  /** Something happens to one option of an engine. */
  datatype Act = Act(what: Happening, opt: byte)

  function EngineAct(c: Config, p: Parser, a: Act): (r: Out)
    requires Idle(p)
    ensures Ready(r.parser)
  {
    match a.what
    case Received(v) => Run(c, p, [IAC, VerbByte(v), a.opt])
    case Wished(v) => Out(p.(table := Update(p.table, a.opt, Request(Lookup(p.table, a.opt), v).0)), [])
  }

  /** For the option it is about, an act is the step of the pair; to all others it is nothing. */
  lemma ActIsStep(c: Config, p: Parser, a: Act, o: byte)
    requires !c.proxy && Idle(p) && HasRoom(p.table, a.opt)
    ensures
      var r := EngineAct(c, p, a);
      var (q, es) := Next(Lookup(p.table, o), a.what, CheckTelopt(c.telopts, o, true), CheckTelopt(c.telopts, o, false));
      && Idle(r.parser)
      && Lookup(r.parser.table, o) == (if a.opt == o then q else Lookup(p.table, o))
      && ToldAbout(r.events, o) == (if a.opt == o then es else [])
  {
    hide Run, Lookup, Store, WellFormed, CheckTelopt, Receive, Request, ToldAbout, ReactionEvents;
    var t, pair := p.table, Lookup(p.table, a.opt);
    match a.what
    case Received(v) =>
      var r := Receive(pair, v, CheckTelopt(c.telopts, a.opt, true), CheckTelopt(c.telopts, a.opt, false));
      MessageRuns(c, p, v, a.opt);
      ReactionTells(r, v, a.opt, o);
      UpdateThenLookup(t, a.opt, r.pair, o);
    case Wished(v) =>
      QuietTellsNothing([], o);
      UpdateThenLookup(t, a.opt, Request(pair, v).0, o);
  }

  lemma UpdateThenLookup(t: Table, o: byte, p: Pair, o': byte)
    requires WellFormed(t) && HasRoom(t, o)
    ensures Lookup(Update(t, o, p), o') == if o' == o then p else Lookup(t, o')
  {
    StoreThenLookup(t, o, p, o');
    hide Store;
  }

  function EngineActs(c: Config, p: Parser, acts: seq<Act>): Out
    requires Idle(p)
    decreases |acts|
  {
    if acts == [] then Out(p, [])
    else
      var r := EngineAct(c, p, acts[0]);
      if !Idle(r.parser) then r
      else
        var rest := EngineActs(c, r.parser, acts[1..]);
        Out(rest.parser, r.events + rest.events)
  }

  /** What happens to o. */
  function Concerning(acts: seq<Act>, o: byte): seq<Happening> {
    if acts == [] then []
    else (if acts[0].opt == o then [acts[0].what] else []) + Concerning(acts[1..], o)
  }

  lemma ActKeepsStores(c: Config, p: Parser, a: Act, K: set<byte>)
    requires !c.proxy && Idle(p) && Stores(p.table, K) && a.opt in K
    ensures Stores(EngineAct(c, p, a).parser.table, K)
  {
    hide Run, Lookup, Store, WellFormed, CheckTelopt, Receive, Request, ReactionEvents, Stores, Update;
    var pair := Lookup(p.table, a.opt);
    match a.what
    case Received(v) =>
      var r := Receive(pair, v, CheckTelopt(c.telopts, a.opt, true), CheckTelopt(c.telopts, a.opt, false));
      MessageRuns(c, p, v, a.opt);
      UpdateStores(p.table, K, a.opt, r.pair);
    case Wished(v) =>
      UpdateStores(p.table, K, a.opt, Request(pair, v).0);
  }

  /** An engine that negotiates about at most 63 options: while nothing irregular is received about an
      option, what its handler was last told about it is what the table says. */
  lemma {:induction false} HandlerKnows(c: Config, p: Parser, acts: seq<Act>, K: set<byte>, o: byte, b: Belief)
    requires !c.proxy && Idle(p) && |K| <= 63 && Stores(p.table, K)
    requires forall i :: 0 <= i < |acts| ==> acts[i].opt in K
    requires Right(Lookup(p.table, o), b)
    requires NeverIrregular(Lookup(p.table, o), Concerning(acts, o), CheckTelopt(c.telopts, o, true), CheckTelopt(c.telopts, o, false))
    ensures
      var r := EngineActs(c, p, acts);
      Idle(r.parser) && Right(Lookup(r.parser.table, o), HearAll(b, ToldAbout(r.events, o)))
    decreases |acts|
  {
    hide EngineAct, Lookup, Stores, CheckTelopt, Next, Irregular, Right, WellFormed, ToldAbout;
    if acts == [] {
      QuietTellsNothing([], o);
    } else {
      var a, us, him := acts[0], CheckTelopt(c.telopts, o, true), CheckTelopt(c.telopts, o, false);
      var pair, r := Lookup(p.table, o), EngineAct(c, p, acts[0]);
      var b' := HearAll(b, ToldAbout(r.events, o));
      RoomFor(p.table, K, a.opt);
      ActIsStep(c, p, a, o);
      ActKeepsStores(c, p, a, K);
      ConcerningUnfolds(acts, o);
      if a.opt == o {
        StepIsRightExactly(pair, b, a.what, us, him);
      }
      HandlerKnows(c, r.parser, acts[1..], K, o, b');
      var rest := EngineActs(c, r.parser, acts[1..]);
      ToldAppend(r.events, rest.events, o);
      HearAllAppend(b, ToldAbout(r.events, o), ToldAbout(rest.events, o));
    }
  }

  lemma ConcerningUnfolds(acts: seq<Act>, o: byte)
    requires acts != []
    ensures acts[0].opt == o ==>
              Concerning(acts, o) != [] && Concerning(acts, o)[0] == acts[0].what && Concerning(acts, o)[1..] == Concerning(acts[1..], o)
    ensures acts[0].opt != o ==> Concerning(acts, o) == Concerning(acts[1..], o)
  {
  }

  lemma {:induction false} HearAllAppend(b: Belief, es: seq<Verb>, fs: seq<Verb>)
    ensures HearAll(b, es + fs) == HearAll(HearAll(b, es), fs)
    decreases |es|
  {
    if es == [] {
      assert es + fs == fs;
    } else {
      assert (es + fs)[1..] == es[1..] + fs;
      HearAllAppend(Hear(b, es[0]), es[1..], fs);
    }
  }
}
