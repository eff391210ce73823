/**
 * libtelnet's protocol engine as a byte-at-a-time transducer: the meaning of
 * a received stream, independent of how it is cut into chunks and slices.
 */
module TelnetParser {
  import opened Bytes
  import opened QMethod
  import opened OptionTable
  import Environ

  const IAC: byte := 255
  const SB: byte := 250
  const SE: byte := 240
  const WILL: byte := 251
  const WONT: byte := 252
  const DO: byte := 253
  const DONT: byte := 254

  const TTYPE: byte := 24
  const ENVIRON: byte := 36
  const NEW_ENVIRON: byte := 39
  const MSSP: byte := 70
  const COMPRESS: byte := 85
  const ZMP: byte := 93

  /** The largest sub-negotiation that is buffered. */
  const SB_LIMIT := 16384

  const SIZE_MAX := 0x1_0000_0000_0000_0000 - 1

  datatype State = InData | InIac | InNegotiation(verb: Verb) | InSb | InSbData | InSbDataIac

  datatype WarningKind =
    | AnsweredBy(verb: Verb)
    | UnexpectedInSb(b: byte)
    | SbOverflow
    | EnvironBadCommand(telopt: byte)
    | EnvironMissingKind(telopt: byte)
    | EnvironEndsWithEsc(telopt: byte)

  /** A call of the event handler. WildData is a DATA event whose size has wrapped below zero. */
  datatype Event =
    | Data(bytes: bytes)
    | WildData(size: nat)
    | Command(cmd: byte)
    | Negotiation(verb: Verb, telopt: byte)
    | Subnegotiation(telopt: byte, payload: bytes)
    | EnvironList(cmd: byte, vars: seq<Environ.Variable>)
    | Special(telopt: byte, code: int)
    | Warning(kind: WarningKind)
    | Send(bytes: bytes)

  datatype TelOpt = TelOpt(telopt: byte, us: byte, him: byte)

  /** The settings of a telnet_t; `special` stands for what the ZMP, TTYPE and MSSP
      decoders, all of which return 0, tell the handler about a buffer. */
  datatype Config = Config(proxy: bool, telopts: seq<TelOpt>, special: (byte, bytes) -> seq<int>)

  /** The engine between two bytes. `skip` is set while the byte after an MCCPv1 marker is to be swallowed. */
  datatype Parser = Parser(state: State, skip: bool, sbOpt: byte, sb: bytes, table: Table)

  datatype Out = Out(parser: Parser, events: seq<Event>)

  const Fresh := Parser(InData, false, 0, [], Empty)

  predicate Ready(p: Parser) { WellFormed(p.table) && |p.sb| <= SB_LIMIT }

  // ---------- negotiation ----------

  function VerbByte(v: Verb): byte {
    match v
    case Will => WILL
    case Wont => WONT
    case Do => DO
    case Dont => DONT
  }

  /** The first table row for `o` decides. */
  function CheckTelopt(rows: seq<TelOpt>, o: byte, us: bool): bool {
    if rows == [] then false
    else if rows[0].telopt == o then if us then rows[0].us == WILL else rows[0].him == DO
    else CheckTelopt(rows[1..], o, us)
  }

  /** Our side is supported if and only if the first row for the option says WILL, the other side if and
      only if it says DO; without a row neither is. */
  lemma {:induction false} SupportIsInFirstRow(rows: seq<TelOpt>, o: byte, i: nat)
    requires i <= |rows| && forall j :: 0 <= j < i ==> rows[j].telopt != o
    requires i < |rows| ==> rows[i].telopt == o
    ensures CheckTelopt(rows, o, true) <==> i < |rows| && rows[i].us == WILL
    ensures CheckTelopt(rows, o, false) <==> i < |rows| && rows[i].him == DO
    decreases i
  {
    if i > 0 {
      SupportIsInFirstRow(rows[1..], o, i - 1);
    }
  }

  function NegotiationSent(v: Verb, o: byte): Event { Send([IAC, VerbByte(v), o]) }

  function AllSent(vs: seq<Verb>, o: byte): (es: seq<Event>)
    ensures |es| == |vs|
  {
    seq(|vs|, i requires 0 <= i < |vs| => NegotiationSent(vs[i], o))
  }

  function ReactionEvents(r: Reaction, v: Verb, o: byte): seq<Event> {
    AllSent(r.send, o)
    + seq(|r.events|, i requires 0 <= i < |r.events| => Negotiation(r.events[i], o))
    + if r.protocolError then [Warning(AnsweredBy(v))] else []
  }

  function Update(t: Table, o: byte, p: Pair): (t': Table)
    requires WellFormed(t)
    ensures WellFormed(t')
  {
    if Lookup(t, o) == p then t else Store(t, o, p)
  }

  /** _negotiate */
  function Negotiated(c: Config, p: Parser, v: Verb, o: byte): (r: Out)
    requires Ready(p)
    ensures Ready(r.parser)
  {
    if c.proxy then Out(p, [Negotiation(v, o)])
    else
      var r := Receive(Lookup(p.table, o), v, CheckTelopt(c.telopts, o, true), CheckTelopt(c.telopts, o, false));
      Out(p.(table := Update(p.table, o, r.pair)), ReactionEvents(r, v, o))
  }

  // ---------- sub-negotiation ----------

  function EnvironEvents(o: byte, meaning: Environ.Outcome): seq<Event> {
    match meaning
    case Ignored => []
    case BadCommand => [Warning(EnvironBadCommand(o))]
    case MissingKind => [Warning(EnvironMissingKind(o))]
    case EndsWithEsc => [Warning(EnvironEndsWithEsc(o))]
    case Accepted(cmd, vars) => [EnvironList(cmd, vars)]
  }

  function SpecialEvents(c: Config, o: byte, sb: bytes): seq<Event> {
    var codes := c.special(o, sb);
    seq(|codes|, i requires 0 <= i < |codes| => Special(o, codes[i]))
  }

  /** The events of _subnegotiate. */
  function SubEvents(c: Config, o: byte, sb: bytes): seq<Event> {
    [Subnegotiation(o, sb)] +
    if o == ENVIRON || o == NEW_ENVIRON then EnvironEvents(o, Environ.Meaning(sb))
    else if o == ZMP || o == TTYPE || o == MSSP then SpecialEvents(c, o, sb)
    else []
  }

  /** Its result: non-zero after an accepted environment list. */
  predicate SubAborts(o: byte, sb: bytes) {
    (o == ENVIRON || o == NEW_ENVIRON) && Environ.Meaning(sb).Accepted?
  }

  /** _buffer_byte with its callers' error branch. */
  function Pushed(p: Parser, b: byte): (r: Out)
    requires Ready(p)
    ensures Ready(r.parser)
  {
    if |p.sb| == SB_LIMIT then Out(p.(state := InData, sb := []), [Warning(SbOverflow)])
    else Out(p.(state := InSbData, sb := p.sb + [b]), [])
  }

  // ---------- one byte ----------

  function IacStep(p: Parser, b: byte): Out {
    if b == SB then Out(p.(state := InSb), [])
    else if b == WILL then Out(p.(state := InNegotiation(Will)), [])
    else if b == WONT then Out(p.(state := InNegotiation(Wont)), [])
    else if b == DO then Out(p.(state := InNegotiation(Do)), [])
    else if b == DONT then Out(p.(state := InNegotiation(Dont)), [])
    else if b == IAC then Out(p.(state := InData), [Data([b])])
    else Out(p.(state := InData), [Command(b)])
  }

  function Step(c: Config, p: Parser, b: byte): (r: Out)
    requires Ready(p)
    ensures Ready(r.parser)
  {
    match p.state
    case InData =>
      if b == IAC then Out(p.(state := InIac, skip := false), if p.skip then [WildData(SIZE_MAX)] else [])
      else Out(p.(skip := false), if p.skip then [] else [Data([b])])
    case InIac => IacStep(p, b)
    case InNegotiation(v) =>
      var r := Negotiated(c, p, v, b);
      r.(parser := r.parser.(state := InData))
    case InSb => Out(p.(state := InSbData, sbOpt := b, sb := []), [])
    case InSbData =>
      if b == IAC then Out(p.(state := InSbDataIac), [])
      else if p.sbOpt == COMPRESS && b == WILL then Out(p.(state := InData, sb := [], skip := true), [])
      else Pushed(p, b)
    case InSbDataIac =>
      var events := SubEvents(c, p.sbOpt, p.sb);
      if b == SE then Out(p.(state := InData, sb := []), events)
      else if b == IAC then Pushed(p, IAC)
      else
        var warned := [Warning(UnexpectedInSb(b))] + events;
        var p' := p.(state := InIac, sb := []);
        // after an accepted environment list the command byte itself is lost
        if SubAborts(p.sbOpt, p.sb) then Out(p', warned)
        else Out(IacStep(p', b).parser, warned + IacStep(p', b).events)
  }

  // ---------- many bytes ----------

  function Run(c: Config, p: Parser, s: bytes): (r: Out)
    requires Ready(p)
    ensures Ready(r.parser)
  {
    if s == [] then Out(p, [])
    else
      var r := Run(c, p, s[..|s| - 1]);
      var r' := Step(c, r.parser, s[|s| - 1]);
      Out(r'.parser, r.events + r'.events)
  }

  /** The end of a chunk: a marker that was its last byte leaves a DATA event of size -1. */
  function Flush(r: Out): Out {
    if r.parser.skip && r.parser.state.InData? then Out(r.parser.(skip := false), r.events + [WildData(SIZE_MAX)])
    else r
  }

  /** One call of telnet_recv. */
  function Chunk(c: Config, p: Parser, s: bytes): (r: Out)
    requires Ready(p)
    ensures Ready(r.parser)
  {
    Flush(Run(c, p, s))
  }

  /** The same events with every DATA event cut into single bytes: equality of two such
      lists is equality up to how runs of data are sliced. */
  function Flat(es: seq<Event>): seq<Event> {
    if es == [] then []
    else Flat(es[..|es| - 1]) + Atoms(es[|es| - 1])
  }

  function Atoms(e: Event): seq<Event> {
    match e
    case Data(bytes) => Cut(bytes)
    case _ => [e]
  }

  function Cut(s: bytes): (r: seq<Event>)
    ensures |r| == |s|
  {
    seq(|s|, i requires 0 <= i < |s| => Data([s[i]]))
  }

  lemma {:induction false} FlatAppend(a: seq<Event>, b: seq<Event>)
    ensures Flat(a + b) == Flat(a) + Flat(b)
  {
    hide Atoms;
    if b == [] {
      assert a + b == a;
    } else {
      assert (a + b)[..|a + b| - 1] == a + b[..|b| - 1];
      FlatAppend(a, b[..|b| - 1]);
    }
  }

  lemma FlatOne(a: seq<Event>, e: Event)
    ensures Flat(a + [e]) == Flat(a) + Atoms(e)
  {
    assert (a + [e])[..|a|] == a;
  }

  predicate IsFlat(es: seq<Event>) {
    forall i :: 0 <= i < |es| && es[i].Data? ==> |es[i].bytes| == 1
  }

  lemma AtomOfOne(e: Event)
    requires e.Data? ==> |e.bytes| == 1
    ensures Atoms(e) == [e]
  {
    if e.Data? {
      assert e.bytes == [e.bytes[0]];
    }
  }

  lemma {:induction false} FlatOfFlat(es: seq<Event>)
    requires IsFlat(es)
    ensures Flat(es) == es
  {
    if es != [] {
      FlatOfFlat(es[..|es| - 1]);
      AtomOfOne(es[|es| - 1]);
      hide Atoms;
      assert es == es[..|es| - 1] + [es[|es| - 1]];
    }
  }

  lemma {:induction false} RunAppend(c: Config, p: Parser, a: bytes, b: bytes)
    requires Ready(p)
    ensures Run(c, p, a + b).parser == Run(c, Run(c, p, a).parser, b).parser
    ensures Run(c, p, a + b).events == Run(c, p, a).events + Run(c, Run(c, p, a).parser, b).events
    decreases |b|
  {
    hide Step;
    if b == [] {
      assert a + b == a;
    } else {
      var b', last := b[..|b| - 1], b[|b| - 1];
      RunAppend(c, p, a, b');
      RunSnoc(c, p, a + b', last);
      assert a + b == (a + b') + [last];
      RunSnoc(c, Run(c, p, a).parser, b', last);
      assert b == b' + [last];
    }
  }

  lemma RunSnoc(c: Config, p: Parser, s: bytes, b: byte)
    requires Ready(p)
    ensures Run(c, p, s + [b]).parser == Step(c, Run(c, p, s).parser, b).parser
    ensures Run(c, p, s + [b]).events == Run(c, p, s).events + Step(c, Run(c, p, s).parser, b).events
  {
    hide Step;
    assert (s + [b])[..|s|] == s;
  }

  lemma ChunkAppend(c: Config, p: Parser, a: bytes, b: bytes)
    requires Ready(p)
    ensures Chunk(c, p, a + b).parser == Chunk(c, Run(c, p, a).parser, b).parser
    ensures Chunk(c, p, a + b).events == Run(c, p, a).events + Chunk(c, Run(c, p, a).parser, b).events
  {
    hide Run;
    RunAppend(c, p, a, b);
  }

  lemma RunNone(c: Config, p: Parser, s: bytes)
    requires Ready(p)
    ensures Run(c, p, s[..0]) == Out(p, [])
    ensures Run(c, p, s[..|s|]) == Run(c, p, s)
  {
    hide Step;
    assert s[..|s|] == s;
  }

  lemma RunOne(c: Config, p: Parser, b: byte)
    requires Ready(p)
    ensures Run(c, p, [b]) == Step(c, p, b)
  {
    assert [b][..0] == [];
    assert Run(c, p, []) == Out(p, []);
  }

  lemma IsFlatAppend(a: seq<Event>, b: seq<Event>)
    requires IsFlat(a) && IsFlat(b)
    ensures IsFlat(a + b)
  {
  }

  lemma SubEventsAreFlat(c: Config, o: byte, sb: bytes)
    ensures IsFlat(SubEvents(c, o, sb))
  {
    hide Environ.Meaning;
  }

  lemma NegotiatedIsFlat(c: Config, p: Parser, v: Verb, o: byte)
    requires Ready(p)
    ensures IsFlat(Negotiated(c, p, v, o).events)
  {
    hide Receive, Lookup, Update, CheckTelopt;
  }

  /** The transducer passes data on byte by byte. */
  lemma StepIsFlat(c: Config, p: Parser, b: byte)
    requires Ready(p)
    ensures IsFlat(Step(c, p, b).events)
  {
    hide SubEvents, Negotiated, SubAborts;
    SubEventsAreFlat(c, p.sbOpt, p.sb);
    if p.state.InNegotiation? {
      NegotiatedIsFlat(c, p, p.state.verb, b);
    } else if p.state.InSbDataIac? {
      var warned := [Warning(UnexpectedInSb(b))];
      IsFlatAppend(warned, SubEvents(c, p.sbOpt, p.sb));
      IsFlatAppend(warned + SubEvents(c, p.sbOpt, p.sb), IacStep(p.(state := InIac, sb := []), b).events);
    }
  }

  lemma ChunkOfCommand(c: Config, p: Parser, b: byte)
    requires Ready(p) && p.state.InIac? && !p.skip
    ensures Chunk(c, p, [b]) == IacStep(p, b)
  {
    RunOne(c, p, b);
  }

  /** The state and events at the end of a sub-negotiation, before the command byte is looked at. */
  function Closed(c: Config, p: Parser, b: byte): Out {
    Out(p.(state := if b == SE then InData else InIac, sb := []),
        (if b == SE then [] else [Warning(UnexpectedInSb(b))]) + SubEvents(c, p.sbOpt, p.sb))
  }

  lemma StepInSbDataIac(c: Config, p: Parser, b: byte)
    requires Ready(p) && p.state.InSbDataIac? && !p.skip
    ensures Ready(Closed(c, p, b).parser)
    ensures IsFlat(Closed(c, p, b).events)
    ensures Step(c, p, b) ==
            if b == IAC then Pushed(p, IAC)
            else if b == SE || SubAborts(p.sbOpt, p.sb) then Closed(c, p, b)
            else
              var r := IacStep(Closed(c, p, b).parser, b);
              r.(events := Closed(c, p, b).events + r.events)
  {
    SubEventsAreFlat(c, p.sbOpt, p.sb);
    hide SubEvents, SubAborts;
    assert [] + SubEvents(c, p.sbOpt, p.sb) == SubEvents(c, p.sbOpt, p.sb);
  }
}
