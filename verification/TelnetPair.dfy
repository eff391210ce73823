/**
 * Two whole engines joined by byte channels that deliver in pieces of any
 * size: every run is a run of the two-party system, so the option tables agree
 * whenever nothing is in flight.
 */
module TelnetPair {
  import opened Bytes
  import opened QMethod
  import opened OptionTable
  import opened TelnetParser
  import opened TelnetWire
  import opened TelnetEndpoint
  import TwoParty
  import Telnet

  // ---------- the two engines ----------

  type Side = TwoParty.Side

  /** An engine and the bytes on their way to it. */
  datatype Engine = Engine(parser: Parser, inbound: bytes)

  datatype Net = Net(left: Engine, right: Engine) {
    function At(side: Side): Engine { if side.Left? then left else right }
    function With(side: Side, e: Engine): Net { if side.Left? then this.(left := e) else this.(right := e) }
  }

  datatype Setup = Setup(left: Config, right: Config) {
    function At(side: Side): Config { if side.Left? then left else right }
  }

  /** One end calls telnet_negotiate, or the next n bytes reach an end in one telnet_recv. */
  datatype Move = Ask(side: Side, verb: Verb, opt: byte) | Hear(side: Side, n: nat)

  const Begin := Net(Engine(Fresh, []), Engine(Fresh, []))

  predicate Sane(net: Net) { Ready(net.left.parser) && Ready(net.right.parser) }

  predicate CanMove(net: Net, mv: Move) {
    mv.Hear? ==> 0 < mv.n <= |net.At(mv.side).inbound|
  }

  /** The engine on `side` is now `p`, with `left` bytes still to come, and has sent `out`. */
  function Moved(net: Net, side: Side, p: Parser, inbound: bytes, out: bytes): Net {
    var peer := net.At(side.Other());
    net.With(side, Engine(p, inbound)).With(side.Other(), peer.(inbound := peer.inbound + out))
  }

  function Sending(vs: seq<Verb>, v: Verb, o: byte): bytes { if vs == [] then [] else [IAC, VerbByte(v), o] }

  /** What a move does to the engine that makes it, and the bytes it sends. */
  function EngineNext(c: Config, e: Engine, mv: Move): (r: (Engine, bytes))
    requires Ready(e.parser) && (mv.Hear? ==> mv.n <= |e.inbound|)
    ensures Ready(r.0.parser)
  {
    match mv
    case Ask(_, v, o) =>
      var (p, vs) := Request(Lookup(e.parser.table, o), v);
      (e.(parser := e.parser.(table := Update(e.parser.table, o, p))), Sending(vs, v, o))
    case Hear(_, n) =>
      var r := Chunk(c, e.parser, e.inbound[..n]);
      (Engine(r.parser, e.inbound[n..]), Wire(r.events))
  }

  function NetNext(s: Setup, net: Net, mv: Move): (net': Net)
    requires Sane(net) && CanMove(net, mv)
    ensures Sane(net')
  {
    var (e, out) := EngineNext(s.At(mv.side), net.At(mv.side), mv);
    Moved(net, mv.side, e.parser, e.inbound, out)
  }

  predicate Playable(s: Setup, net: Net, moves: seq<Move>)
    requires Sane(net)
    decreases |moves|
  {
    moves != [] ==> CanMove(net, moves[0]) && Playable(s, NetNext(s, net, moves[0]), moves[1..])
  }

  function Play(s: Setup, net: Net, moves: seq<Move>): (net': Net)
    requires Sane(net) && Playable(s, net, moves)
    ensures Sane(net')
    decreases |moves|
  {
    if moves == [] then net else Play(s, NetNext(s, net, moves[0]), moves[1..])
  }

  /** The call the code does not handle, as the caller sees it in its own table. */
  predicate Hasty(net: Net, mv: Move)
    requires Sane(net)
  {
    mv.Ask? && mv.verb == Do && Lookup(net.At(mv.side).parser.table, mv.opt).him == WantNo
  }

  /** Calls name options of K only and, if `careful`, no hasty call is made. */
  predicate Within(s: Setup, net: Net, moves: seq<Move>, K: set<byte>, careful: bool)
    requires Sane(net) && Playable(s, net, moves)
    decreases |moves|
  {
    moves != [] ==>
      && (careful ==> !Hasty(net, moves[0])) && (moves[0].Ask? ==> moves[0].opt in K)
      && Within(s, NetNext(s, net, moves[0]), moves[1..], K, careful)
  }

  // ---------- how it follows the two-party system ----------

  function Support(s: Setup): TwoParty.Config { TwoParty.Config(SupportOf(s.left), SupportOf(s.right)) }

  /** The part of a message that the parser has already taken. */
  function Begun(state: State): bytes {
    match state
    case InIac => [IAC]
    case InNegotiation(v) => [IAC, VerbByte(v)]
    case _ => []
  }

  /** The table has been filled with options of K only. */
  ghost predicate Stores(t: Table, K: set<byte>) {
    exists ops :: t == After(ops) && Options(ops) <= K
  }

  predicate OnlyAbout(ms: seq<TwoParty.Msg>, K: set<byte>) { forall i :: 0 <= i < |ms| ==> ms[i].opt in K }

  ghost predicate EndFollows(e: Engine, d: TwoParty.End, K: set<byte>) {
    && Ready(e.parser) && !e.parser.skip
    && (e.parser.state.InData? || e.parser.state.InIac? || e.parser.state.InNegotiation?)
    && Represents(e.parser.table, d.options) && Stores(e.parser.table, K)
    && Begun(e.parser.state) + e.inbound == OnWire(d.inbox) && OnlyAbout(d.inbox, K)
  }

  ghost predicate Follows(net: Net, sys: TwoParty.System, K: set<byte>) {
    EndFollows(net.left, sys.left, K) && EndFollows(net.right, sys.right, K)
  }

  lemma {:induction false} OnWireAppend(a: seq<TwoParty.Msg>, b: seq<TwoParty.Msg>)
    ensures OnWire(a + b) == OnWire(a) + OnWire(b)
  {
    if b == [] {
      assert a + b == a;
    } else {
      assert (a + b)[..|a + b| - 1] == a + b[..|b| - 1];
      OnWireAppend(a, b[..|b| - 1]);
    }
  }

  lemma OnWireCons(ms: seq<TwoParty.Msg>)
    requires ms != []
    ensures OnWire(ms) == [IAC, VerbByte(ms[0].verb), ms[0].opt] + OnWire(ms[1..])
  {
    var one := [ms[0]];
    OnWireAppend(one, ms[1..]);
    assert ms == one + ms[1..];
    assert one[..0] == [] && OnWire(one) == [IAC, VerbByte(ms[0].verb), ms[0].opt];
  }

  // ---------- room in the table ----------

  lemma UpdateStores(t: Table, K: set<byte>, o: byte, p: Pair)
    requires WellFormed(t) && Stores(t, K) && o in K
    ensures Stores(Update(t, o, p), K)
  {
    hide Lookup, Store, WellFormed;
    var ops :| t == After(ops) && Options(ops) <= K;
    var more := ops + [Op(o, p)];
    assert more[..|ops|] == ops;
    assert After(more) == Store(t, o, p) && Options(more) <= K;
  }

  /** While at most 63 options are in use the table never wraps. */
  lemma RoomFor(t: Table, K: set<byte>, o: byte)
    requires WellFormed(t) && Stores(t, K) && o in K && |K| <= 63
    ensures HasRoom(t, o)
  {
    hide Store, Lookup, After, Growths, Represents, Find, WellFormed, Grows, Options;
    var ops :| t == After(ops) && Options(ops) <= K;
    SubsetSize(Options(ops), K);
    GrowthsBoundedByOptions(ops);
    TableRefinesMap(ops);
    if Grows(t, o) {
      assert o !in Options(ops);
      SubsetSize(Options(ops) + {o}, K);
    }
  }

  lemma SubsetSize(a: set<byte>, b: set<byte>)
    requires a <= b
    ensures |a| <= |b|
  {
    if a != {} {
      var x :| x in a;
      SubsetSize(a - {x}, b - {x});
    }
  }

  // ---------- one byte ----------

  function HearByte(s: Setup, net: Net, side: Side): (net': Net)
    requires Sane(net) && net.At(side).inbound != []
    ensures Sane(net')
  {
    var e := net.At(side);
    var r := Step(s.At(side), e.parser, e.inbound[0]);
    Moved(net, side, r.parser, e.inbound[1..], Wire(r.events))
  }

  lemma SomethingInFlight(e: Engine, d: TwoParty.End, K: set<byte>)
    requires EndFollows(e, d, K) && e.inbound != []
    ensures d.inbox != []
    ensures Begun(e.parser.state) + e.inbound ==
            [IAC, VerbByte(d.inbox[0].verb), d.inbox[0].opt] + OnWire(d.inbox[1..])
  {
    assert d.inbox == [] ==> OnWire(d.inbox) == [];
    OnWireCons(d.inbox);
  }

  /** The first and second byte of a message are only remembered. */
  lemma PartIsHeard(c: Config, e: Engine, d: TwoParty.End, K: set<byte>)
    requires EndFollows(e, d, K) && e.inbound != [] && !e.parser.state.InNegotiation?
    ensures
      var r := Step(c, e.parser, e.inbound[0]);
      && r.events == [] && EndFollows(Engine(r.parser, e.inbound[1..]), d, K)
      && |Begun(r.parser.state)| == |Begun(e.parser.state)| + 1
  {
    hide Represents, Stores, OnlyAbout, WellFormed;
    SomethingInFlight(e, d, K);
    var all := Begun(e.parser.state) + e.inbound;
    var v := d.inbox[0].verb;
    if e.parser.state.InData? {
      assert e.inbound[0] == all[0] == IAC;
      assert [IAC] + e.inbound[1..] == [] + e.inbound;
    } else {
      assert e.inbound[0] == all[1] == VerbByte(v);
      assert [IAC, VerbByte(v)] + e.inbound[1..] == [IAC] + e.inbound;
    }
  }

  lemma MessageIsWhole(e: Engine, d: TwoParty.End, K: set<byte>)
    requires EndFollows(e, d, K) && e.inbound != [] && e.parser.state.InNegotiation?
    ensures d.inbox != [] && e.parser.state.verb == d.inbox[0].verb && e.inbound[0] == d.inbox[0].opt
    ensures e.inbound[1..] == OnWire(d.inbox[1..])
  {
    SomethingInFlight(e, d, K);
    var all := Begun(e.parser.state) + e.inbound;
    assert all[1] == VerbByte(e.parser.state.verb) && all[2] == e.inbound[0];
    assert all[3..] == e.inbound[1..];
  }

  /** The third completes it: the engine reacts as the two-party endpoint does. */
  lemma WholeIsHeard(c: Config, e: Engine, d: TwoParty.End, K: set<byte>)
    requires EndFollows(e, d, K) && e.inbound != [] && e.parser.state.InNegotiation? && !c.proxy && |K| <= 63
    ensures d.inbox != []
    ensures
      var m, r := d.inbox[0], Step(c, e.parser, e.inbound[0]);
      var x := Reacts(c, d.options, m);
      && EndFollows(Engine(r.parser, e.inbound[1..]), TwoParty.End(d.options[m.opt := x.pair], d.inbox[1..]), K)
      && Wire(r.events) == OnWire(TwoParty.Tag(x.send, m.opt))
      && r.parser.state.InData? && m.opt in K
  {
    hide Wire, OnWire, Lookup, Update, WellFormed, Receive, Stores;
    MessageIsWhole(e, d, K);
    var m, t := d.inbox[0], e.parser.table;
    var x := Reacts(c, d.options, m);
    assert Lookup(t, m.opt) == TwoParty.End(d.options, []).Get(m.opt);
    assert Step(c, e.parser, e.inbound[0]) ==
           Out(e.parser.(state := InData, table := Update(t, m.opt, x.pair)), ReactionEvents(x, m.verb, m.opt));
    hide Step, Represents, Reacts;
    RoomFor(t, K, m.opt);
    UpdateRepresents(t, d.options, m.opt, x.pair);
    UpdateStores(t, K, m.opt, x.pair);
    SentForReaction(x, m.verb, m.opt);
    assert [] + e.inbound[1..] == e.inbound[1..];
  }

  /** More messages for an end, as bytes. */
  lemma MoreInbound(e: Engine, d: TwoParty.End, K: set<byte>, ms: seq<TwoParty.Msg>)
    requires EndFollows(e, d, K) && OnlyAbout(ms, K)
    ensures EndFollows(e.(inbound := e.inbound + OnWire(ms)), d.(inbox := d.inbox + ms), K)
  {
    hide Represents, Stores, WellFormed, OnWire;
    OnWireAppend(d.inbox, ms);
    assert Begun(e.parser.state) + (e.inbound + OnWire(ms)) == Begun(e.parser.state) + e.inbound + OnWire(ms);
  }

  lemma FollowsAt(net: Net, sys: TwoParty.System, K: set<byte>, side: Side)
    requires EndFollows(net.At(side), sys.At(side), K) && EndFollows(net.At(side.Other()), sys.At(side.Other()), K)
    ensures Follows(net, sys, K)
  {
    hide EndFollows;
  }

  /** Hearing one byte is nothing, or one delivery, for the two-party system. */
  lemma ByteFollows(s: Setup, net: Net, side: Side, sys: TwoParty.System, K: set<byte>)
    returns (sys': TwoParty.System)
    requires Follows(net, sys, K) && net.At(side).inbound != []
    requires !s.left.proxy && !s.right.proxy && |K| <= 63
    ensures Sane(net) && Follows(HearByte(s, net, side), sys', K)
    ensures
      var net' := HearByte(s, net, side);
      if net.At(side).parser.state.InNegotiation? then
        && TwoParty.Enabled(sys, TwoParty.Deliver(side))
        && sys' == TwoParty.Next(Support(s), sys, TwoParty.Deliver(side))
        && net'.At(side).parser.state.InData?
      else sys' == sys && |Begun(net'.At(side).parser.state)| == |Begun(net.At(side).parser.state)| + 1
    ensures HearByte(s, net, side).At(side.Other()).parser == net.At(side.Other()).parser
  {
    hide EndFollows, Step, OnWire, Wire, Begun, Receive;
    var c, e, d := s.At(side), net.At(side), sys.At(side);
    BothReady(net, sys, K);
    var peer, far := net.At(side.Other()), sys.At(side.Other());
    if e.parser.state.InNegotiation? {
      WholeIsHeard(c, e, d, K);
      var m, x := d.inbox[0], Reacts(c, d.options, d.inbox[0]);
      sys' := TwoParty.Next(Support(s), sys, TwoParty.Deliver(side));
      assert x == TwoParty.ReactionTo(Support(s), sys, side);
      MoreInbound(peer, far, K, TwoParty.Tag(x.send, m.opt));
      FollowsAt(HearByte(s, net, side), sys', K, side);
    } else {
      PartIsHeard(c, e, d, K);
      sys' := sys;
      NothingOnWire();
      assert peer.inbound + [] == peer.inbound;
      FollowsAt(HearByte(s, net, side), sys', K, side);
    }
  }

  lemma BothReady(net: Net, sys: TwoParty.System, K: set<byte>)
    requires Follows(net, sys, K)
    ensures Sane(net)
  {
  }

  lemma NothingOnWire()
    ensures Wire([]) == []
  {
  }

  // ---------- one move ----------

  /** The two-party system can come to sys from its start. */
  ghost predicate Reached(c: TwoParty.Config, sys: TwoParty.System, careful: bool) {
    exists steps :: ReachedBy(c, sys, careful, steps)
  }

  ghost predicate ReachedBy(c: TwoParty.Config, sys: TwoParty.System, careful: bool, steps: seq<TwoParty.Step>) {
    && TwoParty.Legal(c, TwoParty.Start, steps)
    && (careful ==> TwoParty.Disciplined(c, TwoParty.Start, steps))
    && TwoParty.Run(c, TwoParty.Start, steps) == sys
  }

  lemma ReachedNext(c: TwoParty.Config, sys: TwoParty.System, careful: bool, step: TwoParty.Step)
    requires Reached(c, sys, careful) && TwoParty.Enabled(sys, step)
    requires careful ==> !TwoParty.QueuesDoBehindDont(sys, step)
    ensures Reached(c, TwoParty.Next(c, sys, step), careful)
  {
    hide TwoParty.Next;
    var steps :| ReachedBy(c, sys, careful, steps);
    TwoParty.RunOneMore(c, TwoParty.Start, steps, step);
    assert ReachedBy(c, TwoParty.Next(c, sys, step), careful, steps + [step]);
  }

  lemma ReachedSettles(c: TwoParty.Config, sys: TwoParty.System, careful: bool, side: Side, o: byte)
    requires Reached(c, sys, careful)
    ensures TwoParty.Settling(sys, side, o)
  {
    hide TwoParty.Next;
    var steps :| ReachedBy(c, sys, careful, steps);
    TwoParty.RunKeepsSettling(c, TwoParty.Start, steps, side, o);
  }

  /** What is left to happen: three bytes per unit of rank, less what the parsers hold. */
  function Energy(net: Net, sys: TwoParty.System): int {
    3 * TwoParty.TotalRank(sys) - |Begun(net.left.parser.state)| - |Begun(net.right.parser.state)|
  }

  lemma ByteLowersEnergy(s: Setup, net: Net, side: Side, sys: TwoParty.System, K: set<byte>, careful: bool)
    returns (sys': TwoParty.System)
    requires Follows(net, sys, K) && net.At(side).inbound != [] && Reached(Support(s), sys, careful)
    requires !s.left.proxy && !s.right.proxy && |K| <= 63
    ensures Sane(net) && Follows(HearByte(s, net, side), sys', K) && Reached(Support(s), sys', careful)
    ensures Energy(HearByte(s, net, side), sys') < Energy(net, sys)
    ensures sys' == sys || (TwoParty.Enabled(sys, TwoParty.Deliver(side)) && sys' == TwoParty.Next(Support(s), sys, TwoParty.Deliver(side)))
  {
    hide TwoParty.Next, TwoParty.TotalRank, HearByte, Follows, Reached, TwoParty.Settling;
    sys' := ByteFollows(s, net, side, sys, K);
    if net.At(side).parser.state.InNegotiation? {
      ReachedNext(Support(s), sys, careful, TwoParty.Deliver(side));
      forall sd, p: byte
        ensures TwoParty.Settling(sys, sd, p)
      {
        ReachedSettles(Support(s), sys, careful, sd, p);
      }
      TwoParty.DeliveryLowersRank(Support(s), sys, side);
    }
  }

  /** n bytes, one after the other. */
  ghost function Heard(s: Setup, net: Net, side: Side, n: nat): (net': Net)
    requires Sane(net) && n <= |net.At(side).inbound|
    ensures Sane(net') && net'.At(side).inbound == net.At(side).inbound[n..]
  {
    if n == 0 then net else HearByte(s, Heard(s, net, side, n - 1), side)
  }

  lemma MovedTwice(net: Net, side: Side, p: Parser, inbound: bytes, out: bytes, p': Parser, inbound': bytes, out': bytes)
    ensures Moved(Moved(net, side, p, inbound, out), side, p', inbound', out') == Moved(net, side, p', inbound', out + out')
  {
    var peer := net.At(side.Other());
    assert peer.inbound + out + out' == peer.inbound + (out + out');
  }

  lemma {:induction false} HeardRuns(s: Setup, net: Net, side: Side, n: nat)
    requires Sane(net) && n <= |net.At(side).inbound|
    ensures
      var e := net.At(side);
      var r := Run(s.At(side), e.parser, e.inbound[..n]);
      Heard(s, net, side, n) == Moved(net, side, r.parser, e.inbound[n..], Wire(r.events))
  {
    hide Step, Wire;
    var e, c := net.At(side), s.At(side);
    if n == 0 {
      NothingOnWire();
      assert net.At(side.Other()).inbound + [] == net.At(side.Other()).inbound;
    } else {
      var b, r := e.inbound[n - 1], Run(c, e.parser, e.inbound[..n - 1]);
      HeardRuns(s, net, side, n - 1);
      hide Run, Heard;
      HeardUnfolds(s, net, side, n);
      RunSnoc(c, e.parser, e.inbound[..n - 1], b);
      assert e.inbound[..n] == e.inbound[..n - 1] + [b];
      assert e.inbound[n - 1..][0] == b && e.inbound[n - 1..][1..] == e.inbound[n..];
      var r' := Step(c, r.parser, b);
      WireAppend(r.events, r'.events);
      MovedTwice(net, side, r.parser, e.inbound[n - 1..], Wire(r.events), r'.parser, e.inbound[n..], Wire(r'.events));
    }
  }

  lemma HeardUnfolds(s: Setup, net: Net, side: Side, n: nat)
    requires Sane(net) && 0 < n <= |net.At(side).inbound|
    ensures Heard(s, net, side, n) == HearByte(s, Heard(s, net, side, n - 1), side)
  {
    hide HearByte;
  }

  /** Deliveries alone lead from sys to sys'. */
  ghost predicate Drifts(c: TwoParty.Config, sys: TwoParty.System, sys': TwoParty.System) {
    exists ds :: DriftsBy(c, sys, sys', ds)
  }

  predicate DriftsBy(c: TwoParty.Config, sys: TwoParty.System, sys': TwoParty.System, ds: seq<TwoParty.Step>) {
    TwoParty.Legal(c, sys, ds) && TwoParty.OnlyDeliveries(ds) && TwoParty.Run(c, sys, ds) == sys'
  }

  lemma DriftsNowhere(c: TwoParty.Config, sys: TwoParty.System)
    ensures Drifts(c, sys, sys)
  {
    assert DriftsBy(c, sys, sys, []);
  }

  lemma DriftsOn(c: TwoParty.Config, sys: TwoParty.System, sys': TwoParty.System, side: Side)
    requires Drifts(c, sys, sys') && TwoParty.Enabled(sys', TwoParty.Deliver(side))
    ensures Drifts(c, sys, TwoParty.Next(c, sys', TwoParty.Deliver(side)))
  {
    hide TwoParty.Next;
    var ds :| DriftsBy(c, sys, sys', ds);
    TwoParty.RunOneMore(c, sys, ds, TwoParty.Deliver(side));
    assert DriftsBy(c, sys, TwoParty.Next(c, sys', TwoParty.Deliver(side)), ds + [TwoParty.Deliver(side)]);
  }

  lemma {:induction false} HeardFollows(s: Setup, net: Net, side: Side, n: nat, sys: TwoParty.System, K: set<byte>, careful: bool)
    returns (sys': TwoParty.System)
    requires Sane(net) && n <= |net.At(side).inbound| && Follows(net, sys, K) && Reached(Support(s), sys, careful)
    requires !s.left.proxy && !s.right.proxy && |K| <= 63
    ensures Follows(Heard(s, net, side, n), sys', K) && Reached(Support(s), sys', careful)
    ensures Energy(Heard(s, net, side, n), sys') <= Energy(net, sys) - n
    ensures Drifts(Support(s), sys, sys')
  {
    hide Follows, Reached, Energy, HearByte, Drifts, TwoParty.Next, TwoParty.Enabled;
    if n == 0 {
      sys' := sys;
      DriftsNowhere(Support(s), sys);
    } else {
      var before := HeardFollows(s, net, side, n - 1, sys, K, careful);
      sys' := ByteLowersEnergy(s, Heard(s, net, side, n - 1), side, before, K, careful);
      if sys' != before {
        DriftsOn(Support(s), sys, before, side);
      }
    }
  }

  /** One telnet_recv of any size. */
  lemma HearFollows(s: Setup, net: Net, side: Side, n: nat, sys: TwoParty.System, K: set<byte>, careful: bool)
    returns (sys': TwoParty.System)
    requires Sane(net) && CanMove(net, Hear(side, n)) && Follows(net, sys, K) && Reached(Support(s), sys, careful)
    requires !s.left.proxy && !s.right.proxy && |K| <= 63
    ensures Follows(NetNext(s, net, Hear(side, n)), sys', K) && Reached(Support(s), sys', careful)
    ensures Energy(NetNext(s, net, Hear(side, n)), sys') <= Energy(net, sys) - n
    ensures Drifts(Support(s), sys, sys')
  {
    hide Reached, Energy, Run, Wire, Drifts;
    sys' := HeardFollows(s, net, side, n, sys, K, careful);
    HeardRuns(s, net, side, n);
    NoSkip(Heard(s, net, side, n), sys', K, side);
  }

  lemma NoSkip(net: Net, sys: TwoParty.System, K: set<byte>, side: Side)
    requires Follows(net, sys, K)
    ensures !net.At(side).parser.skip
  {
  }

  lemma SendingIsWire(vs: seq<Verb>, v: Verb, o: byte)
    requires vs == [] || vs == [v]
    ensures Sending(vs, v, o) == Wire(if vs == [] then [] else [NegotiationSent(v, o)])
  {
    if vs != [] {
      var es := [NegotiationSent(v, o)];
      assert es[..0] == [];
      assert [] + [IAC, VerbByte(v), o] == [IAC, VerbByte(v), o];
    }
  }

  lemma EndAsks(e: Engine, d: TwoParty.End, K: set<byte>, v: Verb, o: byte)
    requires EndFollows(e, d, K) && o in K && |K| <= 63
    ensures
      var (p, vs) := Request(d.Get(o), v);
      && Request(Lookup(e.parser.table, o), v) == (p, vs)
      && EndFollows(e.(parser := e.parser.(table := Update(e.parser.table, o, p))), d.(options := d.options[o := p]), K)
      && Sending(vs, v, o) == OnWire(TwoParty.Tag(vs, o)) && OnlyAbout(TwoParty.Tag(vs, o), K)
  {
    hide Lookup, Update, WellFormed, Wire, OnWire, Represents, Stores;
    var t := e.parser.table;
    RoomFor(t, K, o);
    CallIsRequest(t, d.options, v, o);
    assert TwoParty.End(d.options, []).Get(o) == d.Get(o);
    var (p, vs) := Request(d.Get(o), v);
    UpdateStores(t, K, o, p);
    SendingIsWire(vs, v, o);
  }

  /** One local call. */
  lemma AskFollows(s: Setup, net: Net, mv: Move, sys: TwoParty.System, K: set<byte>, careful: bool)
    returns (sys': TwoParty.System)
    requires Sane(net) && mv.Ask? && Follows(net, sys, K) && Reached(Support(s), sys, careful)
    requires mv.opt in K && |K| <= 63 && (careful ==> !Hasty(net, mv))
    ensures Follows(NetNext(s, net, mv), sys', K) && Reached(Support(s), sys', careful)
    ensures sys' == TwoParty.Next(Support(s), sys, TwoParty.Call(mv.side, mv.verb, mv.opt))
  {
    hide EndFollows, OnWire, Update, Request, Lookup, Reached, Sending;
    var side, e, d := mv.side, net.At(mv.side), sys.At(mv.side);
    var step := TwoParty.Call(side, mv.verb, mv.opt);
    EndAsks(e, d, K, mv.verb, mv.opt);
    TableTells(e, d, K, mv.opt);
    sys' := TwoParty.Next(Support(s), sys, step);
    ReachedNext(Support(s), sys, careful, step);
    var (p, vs) := Request(d.Get(mv.opt), mv.verb);
    MoreInbound(net.At(side.Other()), sys.At(side.Other()), K, TwoParty.Tag(vs, mv.opt));
    FollowsAt(NetNext(s, net, mv), sys', K, side);
  }

  lemma TableTells(e: Engine, d: TwoParty.End, K: set<byte>, o: byte)
    requires EndFollows(e, d, K)
    ensures Lookup(e.parser.table, o) == d.Get(o)
  {
    hide Lookup, Stores, WellFormed;
  }

  // ---------- runs ----------

  /** The invariant: the engines are where a run of the two-party system has come. */
  ghost predicate Good(s: Setup, net: Net, K: set<byte>, careful: bool) {
    exists sys :: Reached(Support(s), sys, careful) && Follows(net, sys, K)
  }

  lemma BeginFollows(s: Setup, K: set<byte>, careful: bool)
    ensures Reached(Support(s), TwoParty.Start, careful) && Follows(Begin, TwoParty.Start, K)
  {
    assert After([]) == Empty && Options([]) <= K;
    assert OnWire([]) == [];
    var d := TwoParty.End(map[], []);
    assert EndFollows(Engine(Fresh, []), d, K);
    assert ReachedBy(Support(s), TwoParty.Start, careful, []);
    assert Follows(Begin, TwoParty.Start, K);
  }

  lemma BeginIsGood(s: Setup, K: set<byte>, careful: bool)
    ensures Good(s, Begin, K, careful)
  {
    hide Follows, Reached;
    BeginFollows(s, K, careful);
  }

  lemma {:induction false} PlayIsGood(s: Setup, net: Net, moves: seq<Move>, K: set<byte>, careful: bool)
    requires !s.left.proxy && !s.right.proxy && |K| <= 63
    requires Sane(net) && Playable(s, net, moves) && Within(s, net, moves, K, careful) && Good(s, net, K, careful)
    ensures Good(s, Play(s, net, moves), K, careful)
    decreases |moves|
  {
    hide Follows, Reached, NetNext, Energy;
    if moves != [] {
      var sys :| Reached(Support(s), sys, careful) && Follows(net, sys, K);
      var sys';
      match moves[0] {
        case Ask(_, _, _) => sys' := AskFollows(s, net, moves[0], sys, K, careful);
        case Hear(side, n) => sys' := HearFollows(s, net, side, n, sys, K, careful);
      }
      PlayIsGood(s, NetNext(s, net, moves[0]), moves[1..], K, careful);
    }
  }

  predicate Drained(net: Net) { net.left.inbound == [] && net.right.inbound == [] }

  lemma {:induction false} OnWireSize(ms: seq<TwoParty.Msg>)
    ensures |OnWire(ms)| == 3 * |ms|
  {
    if ms != [] {
      OnWireSize(ms[..|ms| - 1]);
    }
  }

  /** Two real engines, any calls on at most 63 options without DO behind an outstanding DONT, any
      cutting of the byte streams: whenever both channels are empty the two option tables agree on
      every option, on or off. */
  lemma EnginesAgree(s: Setup, moves: seq<Move>, K: set<byte>, side: Side, o: byte)
    requires !s.left.proxy && !s.right.proxy && |K| <= 63
    requires Playable(s, Begin, moves) && Within(s, Begin, moves, K, true) && Drained(Play(s, Begin, moves))
    ensures
      var net := Play(s, Begin, moves);
      var us := Lookup(net.At(side).parser.table, o).us;
      us == Lookup(net.At(side.Other()).parser.table, o).him && us in {No, Yes}
  {
    hide TwoParty.Next, Lookup, NetNext, EndFollows;
    BeginIsGood(s, K, true);
    PlayIsGood(s, Begin, moves, K, true);
    var net := Play(s, Begin, moves);
    var sys :| Reached(Support(s), sys, true) && Follows(net, sys, K);
    NothingLeft(net.left, sys.left, K);
    NothingLeft(net.right, sys.right, K);
    TableTells(net.At(side), sys.At(side), K, o);
    TableTells(net.At(side.Other()), sys.At(side.Other()), K, o);
    var steps :| ReachedBy(Support(s), sys, true, steps);
    TwoParty.Agreement(Support(s), steps, side, o);
  }

  lemma NothingLeft(e: Engine, d: TwoParty.End, K: set<byte>)
    requires EndFollows(e, d, K) && e.inbound == []
    ensures d.inbox == []
  {
    OnWireSize(d.inbox);
    assert Begun(e.parser.state) + [] == Begun(e.parser.state);
  }

  predicate OnlyHears(moves: seq<Move>) { forall i :: 0 <= i < |moves| ==> moves[i].Hear? }

  function BytesHeard(moves: seq<Move>): nat
    requires OnlyHears(moves)
  {
    if moves == [] then 0 else moves[0].n + BytesHeard(moves[1..])
  }

  lemma {:induction false} HearingIsBounded(s: Setup, net: Net, more: seq<Move>, sys: TwoParty.System, K: set<byte>, careful: bool)
    requires !s.left.proxy && !s.right.proxy && |K| <= 63
    requires Sane(net) && Playable(s, net, more) && OnlyHears(more)
    requires Follows(net, sys, K) && Reached(Support(s), sys, careful)
    ensures BytesHeard(more) <= Energy(net, sys) + 4
    decreases |more|
  {
    hide Follows, Reached, NetNext, TwoParty.TotalRank;
    if more != [] {
      var sys' := HearFollows(s, net, more[0].side, more[0].n, sys, K, careful);
      HearingIsBounded(s, NetNext(s, net, more[0]), more[1..], sys', K, careful);
    }
  }

  /** And once the calls stop the engines fall silent: after any run there is a bound on the bytes that
      can still be received, whatever the order and the pieces. */
  lemma EnginesFallSilent(s: Setup, moves: seq<Move>, K: set<byte>) returns (bound: nat)
    requires !s.left.proxy && !s.right.proxy && |K| <= 63
    requires Playable(s, Begin, moves) && Within(s, Begin, moves, K, false)
    ensures forall more :: Playable(s, Play(s, Begin, moves), more) && OnlyHears(more) ==> BytesHeard(more) <= bound
  {
    hide Follows, Reached, Energy, NetNext;
    BeginIsGood(s, K, false);
    PlayIsGood(s, Begin, moves, K, false);
    var net := Play(s, Begin, moves);
    var sys :| Reached(Support(s), sys, false) && Follows(net, sys, K);
    bound := if Energy(net, sys) + 4 < 0 then 0 else Energy(net, sys) + 4;
    forall more | Playable(s, net, more) && OnlyHears(more)
      ensures BytesHeard(more) <= bound
    {
      HearingIsBounded(s, net, more, sys, K, false);
    }
  }

  // ---------- the same with the objects ----------

  lemma {:induction false} WireOfFlat(es: seq<Event>)
    ensures Wire(Flat(es)) == Wire(es)
  {
    if es != [] {
      var n := |es| - 1;
      WireOfFlat(es[..n]);
      hide Flat, Wire;
      assert es == es[..n] + [es[n]];
      FlatOne(es[..n], es[n]);
      WireAppend(Flat(es[..n]), Atoms(es[n]));
      WireAppend(es[..n], [es[n]]);
      WireOfAtoms(es[n]);
    }
  }

  lemma WireOfAtoms(e: Event)
    ensures Wire(Atoms(e)) == Wire([e])
  {
    if e.Data? {
      NothingSent(Atoms(e));
      NothingSent([e]);
    }
  }

  /** What the handler was told after e0 puts the same bytes on the wire as what it should be told. */
  lemma SentSince(e0: seq<Event>, e1: seq<Event>, told: seq<Event>)
    requires e0 <= e1 && Flat(e1) == Flat(e0) + told
    ensures Wire(e1[|e0|..]) == Wire(told)
  {
    hide Flat, Wire;
    var more := e1[|e0|..];
    assert e1 == e0 + more;
    FlatAppend(e0, more);
    assert (Flat(e0) + Flat(more))[|Flat(e0)|..] == Flat(more) && (Flat(e0) + told)[|Flat(e0)|..] == told;
    WireOfFlat(more);
  }

  method Hears(t: Telnet.Telnet, chunk: bytes) returns (out: bytes)
    requires t.Valid()
    modifies t, t.buffer
    ensures t.Valid() && (t.buffer == old(t.buffer) || fresh(t.buffer))
    ensures t.Abs() == Chunk(t.config, old(t.Abs()), chunk).parser
    ensures out == Wire(Chunk(t.config, old(t.Abs()), chunk).events)
  {
    hide Chunk, Flat, Wire;
    var n := |t.events|;
    ghost var e0, told := t.events, Chunk(t.config, t.Abs(), chunk).events;
    t.Recv(chunk);
    SentSince(e0, t.events, told);
    out := Wire(t.events[n..]);
  }

  method Asks(t: Telnet.Telnet, v: Verb, o: byte) returns (out: bytes)
    requires t.Valid() && !t.config.proxy
    modifies t`q, t`qSize, t`events
    ensures t.Valid()
    ensures
      var p0 := old(t.Abs());
      var (p, vs) := Request(Lookup(p0.table, o), v);
      t.Abs() == p0.(table := Update(p0.table, o, p)) && out == Sending(vs, v, o)
  {
    hide Update, Lookup, Wire, WellFormed;
    var n := |t.events|;
    ghost var p0 := t.Abs();
    ghost var (p, vs) := Request(Lookup(p0.table, o), v);
    RequestSends(Lookup(p0.table, o), v);
    SendingIsWire(vs, v, o);
    t.NegotiateLocally(VerbByte(v), o);
    out := Wire(t.events[n..]);
  }

  lemma RequestSends(p: Pair, v: Verb)
    ensures Request(p, v).1 == [] || Request(p, v).1 == [v]
  {
  }

  method MakesMove(t: Telnet.Telnet, inbound: bytes, mv: Move) returns (rest: bytes, out: bytes)
    requires t.Valid() && !t.config.proxy && (mv.Hear? ==> mv.n <= |inbound|)
    modifies t, t.buffer
    ensures t.Valid() && (t.buffer == old(t.buffer) || fresh(t.buffer))
    ensures (Engine(t.Abs(), rest), out) == EngineNext(t.config, Engine(old(t.Abs()), inbound), mv)
  {
    hide Chunk, Update, Lookup, Wire, WellFormed;
    match mv
    case Ask(_, v, o) =>
      out := Asks(t, v, o);
      rest := inbound;
    case Hear(_, n) =>
      out := Hears(t, inbound[..n]);
      rest := inbound[n..];
  }

  /** The two objects and the two channels after any moves are the two engines after those moves. */
  method PlayOut(left: Telnet.Telnet, right: Telnet.Telnet, moves: seq<Move>) returns (toLeft: bytes, toRight: bytes)
    requires left.Valid() && right.Valid() && left != right && left.buffer != right.buffer
    requires !left.config.proxy && !right.config.proxy
    requires Playable(Setup(left.config, right.config), Net(Engine(left.Abs(), []), Engine(right.Abs(), [])), moves)
    modifies left, right, left.buffer, right.buffer
    ensures left.Valid() && right.Valid()
    ensures Net(Engine(left.Abs(), toLeft), Engine(right.Abs(), toRight)) ==
            Play(Setup(left.config, right.config), old(Net(Engine(left.Abs(), []), Engine(right.Abs(), []))), moves)
  {
    hide EngineNext, WellFormed;
    toLeft, toRight := [], [];
    ghost var s := Setup(left.config, right.config);
    ghost var net := Net(Engine(left.Abs(), []), Engine(right.Abs(), []));
    ghost var end := Play(s, net, moves);
    assert moves[0..] == moves;
    for i := 0 to |moves|
      invariant left.Valid() && right.Valid() && left.buffer != right.buffer
      invariant left.buffer == old(left.buffer) || fresh(left.buffer)
      invariant right.buffer == old(right.buffer) || fresh(right.buffer)
      invariant net == Net(Engine(left.Abs(), toLeft), Engine(right.Abs(), toRight))
      invariant Sane(net) && Playable(s, net, moves[i..]) && Play(s, net, moves[i..]) == end
    {
      assert moves[i..][0] == moves[i] && moves[i..][1..] == moves[i + 1..];
      ghost var next := NetNext(s, net, moves[i]);
      var out;
      if moves[i].side.Left? {
        toLeft, out := MakesMove(left, toLeft, moves[i]);
        toRight := toRight + out;
      } else {
        toRight, out := MakesMove(right, toRight, moves[i]);
        toLeft := toLeft + out;
      }
      net := next;
    }
    assert moves[|moves|..] == [];
  }

  /** Two new objects, played out: if nothing is in flight at the end, their tables agree. */
  method Negotiate(left: Telnet.Telnet, right: Telnet.Telnet, moves: seq<Move>, ghost K: set<byte>)
    returns (toLeft: bytes, toRight: bytes)
    requires left.Valid() && right.Valid() && left != right && left.buffer != right.buffer
    requires !left.config.proxy && !right.config.proxy && left.Abs() == Fresh && right.Abs() == Fresh
    requires
      var s := Setup(left.config, right.config);
      Playable(s, Begin, moves) && Within(s, Begin, moves, K, true) && |K| <= 63
    modifies left, right, left.buffer, right.buffer
    ensures left.Valid() && right.Valid()
    ensures toLeft == [] && toRight == [] ==>
              forall o: byte ::
                var l, r := Lookup(left.Abs().table, o), Lookup(right.Abs().table, o);
                l.us == r.him && r.us == l.him && l.us in {No, Yes} && l.him in {No, Yes}
  {
    hide Lookup, NetNext, Within;
    ghost var s := Setup(left.config, right.config);
    toLeft, toRight := PlayOut(left, right, moves);
    if toLeft == [] && toRight == [] {
      forall o: byte
        ensures
          var l, r := Lookup(left.Abs().table, o), Lookup(right.Abs().table, o);
          l.us == r.him && r.us == l.him && l.us in {No, Yes} && l.him in {No, Yes}
      {
        EnginesAgree(s, moves, K, TwoParty.Left, o);
        EnginesAgree(s, moves, K, TwoParty.Right, o);
      }
    }
  }
}
