/**
 * Why at most 63 options: requests for 64 options wrap the 8-bit length of
 * both option tables, each end forgets what it has agreed to, and the two
 * engines answer each other for ever.
 */
module TelnetOverflow {
  import opened Bytes
  import opened QMethod
  import opened OptionTable
  import opened TelnetParser
  import opened TelnetWire
  import opened TelnetEndpoint
  import opened TelnetPair
  import TwoParty

  /** Sixty-four different options. Option 0 may only be the first: behind any other it is found in the
      zeroed entries and does not make the table grow. */
  predicate Full(opts: seq<byte>) { |opts| == 64 && Fillers(opts) }

  predicate Fillers(opts: seq<byte>) {
    && (forall i :: 0 < i < |opts| ==> opts[i] != 0)
    && forall i, j :: 0 <= i < j < |opts| ==> opts[i] != opts[j]
  }

  function Members(opts: seq<byte>): set<byte> { set o | o in opts }

  // ---------- the table ----------

  /** The table after p has been stored for each of the options, in order. */
  function Filled(t: Table, opts: seq<byte>, p: Pair): (t': Table)
    requires WellFormed(t)
    ensures WellFormed(t')
  {
    if opts == [] then t else Update(Filled(t, opts[..|opts| - 1], p), opts[|opts| - 1], p)
  }

  /** Up to 63 options the table grows each time, and no other option is found in it. */
  lemma {:induction false} FillingGrows(t: Table, opts: seq<byte>, p: Pair)
    requires WellFormed(t) && t.size == 0 && p != Off && Fillers(opts) && |opts| <= 63
    ensures Filled(t, opts, p).size == 4 * |opts|
    ensures forall o: byte :: (o != 0 || opts == []) && o !in opts ==> Grows(Filled(t, opts, p), o)
  {
    if opts != [] {
      hide Store, WellFormed, Find;
      var n := |opts| - 1;
      var before, last := opts[..n], opts[n];
      FillingGrows(t, before, p);
      var u := Filled(t, before, p);
      assert last !in before && last in opts && (last != 0 || before == []);
      assert Grows(u, last);
      StoreThenLookup(u, last, p, last);
      forall o: byte | o != 0 && o !in opts
        ensures Grows(Filled(t, opts, p), o)
      {
        assert o !in before;
        assert Grows(u, o);
        StoreKeepsMissing(u, last, p, o);
      }
    }
  }

  /** Each option is still off when its turn comes. */
  lemma NextIsOff(t: Table, opts: seq<byte>, p: Pair, o: byte)
    requires WellFormed(t) && t.size == 0 && p != Off && Fillers(opts + [o]) && |opts| <= 63
    ensures Fillers(opts) && Lookup(Filled(t, opts, p), o) == Off
    ensures Grows(Filled(t, opts, p), o) && Filled(t, opts, p).size == 4 * |opts|
  {
    hide Store, WellFormed, Find, Filled;
    var all := opts + [o];
    assert forall i :: 0 <= i < |opts| ==> opts[i] == all[i];
    assert all[|opts|] == o;
    FillingGrows(t, opts, p);
    assert (o != 0 || opts == []) && o !in opts;
  }

  /** And with the 64th the table is empty again. */
  lemma FillingWraps(t: Table, opts: seq<byte>, p: Pair)
    requires WellFormed(t) && t.size == 0 && p != Off && Full(opts)
    ensures Filled(t, opts, p).size == 0
  {
    hide Store, WellFormed, Find;
    assert opts == opts[..63] + [opts[63]];
    NextIsOff(t, opts[..63], p, opts[63]);
    WrapForgetsEverything(Filled(t, opts[..63], p), opts[63], p, 0);
  }

  // ---------- one end hears all the messages ----------

  function Burst(v: Verb, opts: seq<byte>): (b: bytes)
    ensures |b| == 3 * |opts|
  {
    if opts == [] then [] else Burst(v, opts[..|opts| - 1]) + [IAC, VerbByte(v), opts[|opts| - 1]]
  }

  /** An engine that lets the other side turn on each of the options: WILL is taken as an offer for
      `him`, DO as a demand for `us`. */
  predicate Grants(c: Config, v: Verb, opts: seq<byte>) {
    !c.proxy && forall i :: 0 <= i < |opts| ==> CheckTelopt(c.telopts, opts[i], v == Do)
  }

  function Granted(v: Verb): Pair { if v == Do then Pair(Yes, No) else Pair(No, Yes) }
  function Answer(v: Verb): Verb { if v == Do then Will else Do }

  /** One message: the table and the answer, as the reaction says. */
  lemma OneIsHeard(c: Config, p: Parser, v: Verb, o: byte, r: Reaction)
    requires Idle(p) && !c.proxy
    requires r == Receive(Lookup(p.table, o), v, CheckTelopt(c.telopts, o, true), CheckTelopt(c.telopts, o, false))
    ensures Run(c, p, [IAC, VerbByte(v), o]).parser == p.(table := Update(p.table, o, r.pair))
    ensures Wire(Run(c, p, [IAC, VerbByte(v), o]).events) == OnWire(TwoParty.Tag(r.send, o))
  {
    hide Run, Wire, OnWire, Update, Lookup, WellFormed, CheckTelopt, Receive;
    MessageRuns(c, p, v, o);
    SentForReaction(r, v, o);
  }

  lemma OneIsGranted(c: Config, p: Parser, v: Verb, o: byte)
    requires Idle(p) && !c.proxy && (v == Will || v == Do) && CheckTelopt(c.telopts, o, v == Do)
    requires Lookup(p.table, o) == Off
    ensures Run(c, p, [IAC, VerbByte(v), o]).parser == p.(table := Update(p.table, o, Granted(v)))
    ensures Wire(Run(c, p, [IAC, VerbByte(v), o]).events) == [IAC, VerbByte(Answer(v)), o]
  {
    hide Run, Wire, Update, Lookup, WellFormed, CheckTelopt;
    var r := Receive(Off, v, CheckTelopt(c.telopts, o, true), CheckTelopt(c.telopts, o, false));
    assert r.pair == Granted(v) && r.send == [Answer(v)];
    OneIsHeard(c, p, v, o, r);
    TagOne(Answer(v), o);
  }

  lemma TagOne(v: Verb, o: byte)
    ensures OnWire(TwoParty.Tag([v], o)) == [IAC, VerbByte(v), o]
  {
    var ms := TwoParty.Tag([v], o);
    assert ms == [TwoParty.Msg(v, o)] && ms[..0] == [];
  }

  lemma {:induction false} BurstIsGranted(c: Config, p: Parser, v: Verb, opts: seq<byte>)
    requires Idle(p) && p.table.size == 0 && (v == Will || v == Do) && Fillers(opts) && |opts| <= 64 && Grants(c, v, opts)
    ensures Run(c, p, Burst(v, opts)).parser == p.(table := Filled(p.table, opts, Granted(v)))
    ensures Wire(Run(c, p, Burst(v, opts)).events) == Burst(Answer(v), opts)
    decreases |opts|
  {
    hide Update, Lookup, WellFormed, CheckTelopt, Step, Grows;
    if opts == [] {
      NothingOnWire();
    } else {
      var n := |opts| - 1;
      var before, o := opts[..n], opts[n];
      assert opts == before + [o];
      NextIsOff(p.table, before, Granted(v), o);
      BurstIsGranted(c, p, v, before);
      hide Run, Wire;
      var r := Run(c, p, Burst(v, before));
      RunAppend(c, p, Burst(v, before), [IAC, VerbByte(v), o]);
      OneIsGranted(c, r.parser, v, o);
      WireAppend(r.events, Run(c, r.parser, [IAC, VerbByte(v), o]).events);
    }
  }

  // ---------- the two engines ----------

  /** One end asks for each of the options with WILL. */
  function Wishes(opts: seq<byte>): (moves: seq<Move>)
    ensures |moves| == |opts|
  {
    seq(|opts|, i requires 0 <= i < |opts| => Ask(TwoParty.Left, Will, opts[i]))
  }

  /** Both tables are empty, and all 64 messages are on their way to `side`. */
  predicate Circling(net: Net, side: Side, opts: seq<byte>) {
    && Sane(net) && Idle(net.left.parser) && Idle(net.right.parser)
    && net.left.parser.table.size == 0 && net.right.parser.table.size == 0
    && net.At(side).inbound == Burst(if side.Left? then Do else Will, opts) && net.At(side.Other()).inbound == []
  }

  predicate Generous(s: Setup, opts: seq<byte>) {
    Grants(s.left, Do, opts) && Grants(s.right, Will, opts)
  }

  lemma CirclesOn(s: Setup, net: Net, side: Side, opts: seq<byte>)
    requires Full(opts) && Generous(s, opts) && Circling(net, side, opts)
    ensures CanMove(net, Hear(side, 192)) && Circling(NetNext(s, net, Hear(side, 192)), side.Other(), opts)
  {
    hide Run, Wire, WellFormed, Burst, Filled, Fillers;
    var v := if side.Left? then Do else Will;
    var e, c := net.At(side), s.At(side);
    assert e.inbound[..192] == e.inbound && e.inbound[192..] == [];
    BurstIsGranted(c, e.parser, v, opts);
    FillingWraps(e.parser.table, opts, Granted(v));
    assert [] + Burst(Answer(v), opts) == Burst(Answer(v), opts);
  }

  lemma {:induction false} CirclesForEver(s: Setup, net: Net, side: Side, opts: seq<byte>, n: nat) returns (more: seq<Move>)
    requires Full(opts) && Generous(s, opts) && Circling(net, side, opts)
    ensures Playable(s, net, more) && OnlyHears(more) && BytesHeard(more) >= n
    decreases n
  {
    hide NetNext, Circling, Full, Generous;
    assert Sane(net) by { CirclingIsSane(net, side, opts); }
    if n == 0 {
      more := [];
    } else {
      CirclesOn(s, net, side, opts);
      var rest := CirclesForEver(s, NetNext(s, net, Hear(side, 192)), side.Other(), opts, if n < 192 then 0 else n - 192);
      more := [Hear(side, 192)] + rest;
      assert more[1..] == rest;
    }
  }

  lemma CirclingIsSane(net: Net, side: Side, opts: seq<byte>)
    requires Circling(net, side, opts)
    ensures Sane(net)
  {
  }

  /** After some of the requests: the left table holds them, and the right end has yet to hear of them. */
  function Wished(opts: seq<byte>): Net {
    Net(Engine(Fresh.(table := Filled(Empty, opts, Pair(WantYes, No))), []), Engine(Fresh, Burst(Will, opts)))
  }

  lemma {:induction false} WishesArePlayed(s: Setup, opts: seq<byte>, k: nat)
    requires Fillers(opts) && k <= |opts| <= 64
    ensures Sane(Wished(opts[..k])) && Playable(s, Wished(opts[..k]), Wishes(opts)[k..])
    ensures Play(s, Wished(opts[..k]), Wishes(opts)[k..]) == Wished(opts)
    ensures Within(s, Wished(opts[..k]), Wishes(opts)[k..], Members(opts), true)
    decreases |opts| - k
  {
    hide Lookup, Update, WellFormed, Burst, Filled, Fillers;
    SaneAfterWishes(opts[..k]);
    if k == |opts| {
      assert opts[..k] == opts && Wishes(opts)[k..] == [];
    } else {
      WishIsPlayed(s, opts, k);
      WishesArePlayed(s, opts, k + 1);
      hide NetNext, Wished, Hasty;
      var ms := Wishes(opts)[k..];
      assert ms[0] == Ask(TwoParty.Left, Will, opts[k]) && ms[1..] == Wishes(opts)[k + 1..];
    }
  }

  lemma SaneAfterWishes(opts: seq<byte>)
    ensures Sane(Wished(opts))
  {
    hide Filled, Burst;
  }

  lemma WishIsPlayed(s: Setup, opts: seq<byte>, k: nat)
    requires Fillers(opts) && k < |opts| <= 64
    ensures Sane(Wished(opts[..k])) && NetNext(s, Wished(opts[..k]), Ask(TwoParty.Left, Will, opts[k])) == Wished(opts[..k + 1])
  {
    assert WellFormed(Empty);
    hide Lookup, Update, WellFormed, Grows;
    var before, o := opts[..k], opts[k];
    assert opts[..k + 1] == before + [o] && (before + [o])[..k] == before;
    NextIsOff(Empty, before, Pair(WantYes, No), o);
    SaneAfterWishes(before);
  }

  lemma EmptyIsWished()
    ensures Wished([]) == Begin
  {
  }

  /** The bound of 63 cannot be raised: let one end ask for each of 64 options with WILL, and let each end allow what the other asks. The engines then never fall silent: as many
      bytes as one likes can still be received without a further request. */
  lemma SixtyFourNeverFallSilent(s: Setup, opts: seq<byte>, n: nat) returns (more: seq<Move>)
    requires Full(opts) && Generous(s, opts)
    ensures Playable(s, Begin, Wishes(opts)) && Within(s, Begin, Wishes(opts), Members(opts), true)
    ensures Playable(s, Play(s, Begin, Wishes(opts)), more) && OnlyHears(more) && BytesHeard(more) >= n
  {
    hide NetNext, Generous, Within, Filled, Burst, Play, Playable;
    EmptyIsWished();
    assert opts[..0] == [] && Wishes(opts)[0..] == Wishes(opts);
    WishesArePlayed(s, opts, 0);
    FillingWraps(Empty, opts, Pair(WantYes, No));
    var net := Play(s, Begin, Wishes(opts));
    SaneAfterWishes(opts);
    assert Circling(net, TwoParty.Right, opts);
    more := CirclesForEver(s, net, TwoParty.Right, opts, n);
  }

  // ---------- such engines exist ----------

  /** Each of the options, supported on both sides. */
  function Rows(opts: seq<byte>): seq<TelOpt> {
    if opts == [] then [] else [TelOpt(opts[0], WILL, DO)] + Rows(opts[1..])
  }

  lemma {:induction false} RowsGrant(opts: seq<byte>, o: byte, us: bool)
    requires o in opts
    ensures CheckTelopt(Rows(opts), o, us)
  {
    assert Rows(opts)[1..] == Rows(opts[1..]);
    if o != opts[0] {
      RowsGrant(opts[1..], o, us);
    }
  }

  function Allowing(opts: seq<byte>): Setup {
    var c := Config(false, Rows(opts), (o: byte, sb: bytes) => []);
    Setup(c, c)
  }

  lemma AllowingIsGenerous(opts: seq<byte>)
    ensures Generous(Allowing(opts), opts)
  {
    hide CheckTelopt, Rows;
    forall i | 0 <= i < |opts|
      ensures CheckTelopt(Rows(opts), opts[i], true) && CheckTelopt(Rows(opts), opts[i], false)
    {
      RowsGrant(opts, opts[i], true);
      RowsGrant(opts, opts[i], false);
    }
  }

  /** n different options out of K, 0 first if it is among them. */
  lemma {:induction false} Choose(K: set<byte>, n: nat) returns (opts: seq<byte>)
    requires n <= |K|
    ensures |opts| == n && Fillers(opts) && forall i :: 0 <= i < n ==> opts[i] in K
    ensures n > 0 && 0 in K ==> opts[0] == 0
  {
    if n == 0 {
      opts := [];
    } else {
      var before := Choose(K, n - 1);
      var used := Members(before);
      ChosenSize(before);
      if K <= used {
        SubsetSize(K, used);
      }
      var o :| o in K && o !in used;
      if n == 1 && 0 in K {
        o := 0;
      }
      opts := before + [o];
    }
  }

  lemma {:induction false} ChosenSize(opts: seq<byte>)
    ensures |Members(opts)| <= |opts|
  {
    if opts != [] {
      ChosenSize(opts[1..]);
      assert Members(opts) == Members(opts[1..]) + {opts[0]};
    }
  }

  // ---------- exactly 63 ----------

  ghost predicate BoundsHearing(s: Setup, net: Net, bound: nat)
    requires Sane(net)
  {
    forall more :: Playable(s, net, more) && OnlyHears(more) ==> BytesHeard(more) <= bound
  }

  ghost predicate FallsSilent(s: Setup, net: Net)
    requires Sane(net)
  {
    exists bound: nat :: BoundsHearing(s, net, bound)
  }

  /** Whatever the two engines support and whatever is asked about options of K, they fall silent. */
  ghost predicate AlwaysFallSilent(K: set<byte>) {
    forall s: Setup, moves: seq<Move> ::
      !s.left.proxy && !s.right.proxy && Playable(s, Begin, moves) && Within(s, Begin, moves, K, false) ==>
        FallsSilent(s, Play(s, Begin, moves))
  }

  lemma {:induction false} WithinMore(s: Setup, net: Net, moves: seq<Move>, J: set<byte>, K: set<byte>, careful: bool)
    requires Sane(net) && Playable(s, net, moves) && Within(s, net, moves, J, true) && J <= K
    ensures Within(s, net, moves, K, careful)
    decreases |moves|
  {
    hide NetNext, Hasty;
    if moves != [] {
      WithinMore(s, NetNext(s, net, moves[0]), moves[1..], J, K, careful);
    }
  }

  /** Engines that are asked about options of K always fall silent if and only if K has at most 63. */
  lemma SilentExactlyUpTo63(K: set<byte>)
    ensures AlwaysFallSilent(K) <==> |K| <= 63
  {
    hide Play, Playable, Within, NetNext, Generous, Full;
    if |K| <= 63 {
      forall s: Setup, moves: seq<Move> |
        !s.left.proxy && !s.right.proxy && Playable(s, Begin, moves) && Within(s, Begin, moves, K, false)
        ensures FallsSilent(s, Play(s, Begin, moves))
      {
        var bound := EnginesFallSilent(s, moves, K);
        assert BoundsHearing(s, Play(s, Begin, moves), bound);
      }
    } else {
      var opts := Choose(K, 64);
      NeverSilent(opts, K);
    }
  }

  lemma NeverSilent(opts: seq<byte>, K: set<byte>)
    requires |opts| == 64 && Fillers(opts) && forall i :: 0 <= i < 64 ==> opts[i] in K
    ensures !AlwaysFallSilent(K)
  {
    hide Play, Playable, Within, NetNext;
    var s := Allowing(opts);
    AllowingIsGenerous(opts);
    var none := SixtyFourNeverFallSilent(s, opts, 0);
    WithinMore(s, Begin, Wishes(opts), Members(opts), K, false);
    var net := Play(s, Begin, Wishes(opts));
    forall bound: nat
      ensures !BoundsHearing(s, net, bound)
    {
      var more := SixtyFourNeverFallSilent(s, opts, bound + 1);
    }
    assert !FallsSilent(s, net);
  }

  // ---------- agreement ends there too ----------

  lemma StoreInPlace(t: Table, o: byte, p: Pair, o': byte)
    requires WellFormed(t) && !Grows(t, o)
    ensures Store(t, o, p).size == t.size && (Grows(Store(t, o, p), o') <==> Grows(t, o'))
    ensures Lookup(Store(t, o, p), o') == if o' == o then p else Lookup(t, o')
  {
    FindIsFirst(Store(t, o, p), o', Find(t, o', 0));
  }

  /** Storing for options that are in the table does not make it grow. */
  lemma {:induction false} FilledInPlace(t: Table, opts: seq<byte>, p: Pair, o: byte)
    requires WellFormed(t) && forall i :: 0 <= i < |opts| ==> !Grows(t, opts[i])
    ensures Filled(t, opts, p).size == t.size && (Grows(Filled(t, opts, p), o) <==> Grows(t, o))
    ensures o !in opts ==> Lookup(Filled(t, opts, p), o) == Lookup(t, o)
    decreases |opts|
  {
    if opts != [] {
      hide Store, WellFormed, Find, Grows, Lookup;
      var n := |opts| - 1;
      var u, last := Filled(t, opts[..n], p), opts[n];
      FilledInPlace(t, opts[..n], p, o);
      FilledInPlace(t, opts[..n], p, last);
      assert !Grows(t, opts[n]);
      StoreInPlace(u, last, p, o);
      assert opts == opts[..n] + [last];
      assert o !in opts ==> o !in opts[..n] && o != last;
    }
  }

  /** Up to 63 options are all remembered. */
  lemma {:induction false} FilledIsFound(t: Table, opts: seq<byte>, p: Pair, o: byte)
    requires WellFormed(t) && t.size == 0 && p != Off && Fillers(opts) && |opts| <= 63 && o in opts
    ensures Lookup(Filled(t, opts, p), o) == p && !Grows(Filled(t, opts, p), o)
    decreases |opts|
  {
    hide Store, WellFormed, Find, Grows, Lookup;
    var n := |opts| - 1;
    var before, last := opts[..n], opts[n];
    assert opts == before + [last];
    NextIsOff(t, before, p, last);
    var u := Filled(t, before, p);
    if o != last {
      FilledIsFound(t, before, p, o);
    }
    StoreThenLookup(u, last, p, o);
    StoreKeepsFound(u, last, p, o);
  }

  /** DO for options that were asked for: they are on, and nothing is sent. */
  lemma {:induction false} BurstIsAccepted(c: Config, p: Parser, opts: seq<byte>)
    requires Idle(p) && !c.proxy && Fillers(opts)
    requires forall i :: 0 <= i < |opts| ==> !Grows(p.table, opts[i]) && Lookup(p.table, opts[i]) == Pair(WantYes, No)
    ensures Run(c, p, Burst(Do, opts)).parser == p.(table := Filled(p.table, opts, Pair(Yes, No)))
    ensures Wire(Run(c, p, Burst(Do, opts)).events) == []
    decreases |opts|
  {
    hide Update, Lookup, WellFormed, CheckTelopt, Step, Grows;
    if opts == [] {
      NothingOnWire();
    } else {
      var n := |opts| - 1;
      var before, o := opts[..n], opts[n];
      BurstIsAccepted(c, p, before);
      hide Run, Wire;
      var r := Run(c, p, Burst(Do, before));
      FilledInPlace(p.table, before, Pair(Yes, No), o);
      assert o !in before && Lookup(p.table, opts[n]) == Pair(WantYes, No);
      var x := Receive(Pair(WantYes, No), Do, CheckTelopt(c.telopts, o, true), CheckTelopt(c.telopts, o, false));
      assert x.pair == Pair(Yes, No) && x.send == [] && OnWire(TwoParty.Tag(x.send, o)) == [];
      OneIsHeard(c, r.parser, Do, o, x);
      RunAppend(c, p, Burst(Do, before), [IAC, VerbByte(Do), o]);
      WireAppend(r.events, Run(c, r.parser, [IAC, VerbByte(Do), o]).events);
    }
  }

  /** 63 options are turned on, and then a 64th is asked for that the other end does not support. */
  function Forgetting(last: byte): seq<Move> {
    [Hear(TwoParty.Right, 189), Hear(TwoParty.Left, 189), Ask(TwoParty.Left, Will, last),
     Hear(TwoParty.Right, 3), Hear(TwoParty.Left, 3)]
  }

  function On(opts: seq<byte>): Table { Filled(Empty, opts, Pair(No, Yes)) }
  function Asked(opts: seq<byte>): Table { Filled(Empty, opts, Pair(WantYes, No)) }
  function Agreed(opts: seq<byte>): Table { Filled(Asked(opts), opts, Pair(Yes, No)) }

  /** The five states that follow. */
  function ForgetState(opts: seq<byte>, last: byte, i: nat): Net {
    var wrapped := Update(Agreed(opts), last, Pair(WantYes, No));
    if i == 0 then Wished(opts)
    else if i == 1 then Net(Engine(Fresh.(table := Asked(opts)), Burst(Do, opts)), Engine(Fresh.(table := On(opts)), []))
    else if i == 2 then Net(Engine(Fresh.(table := Agreed(opts)), []), Engine(Fresh.(table := On(opts)), []))
    else if i == 3 then Net(Engine(Fresh.(table := wrapped), []), Engine(Fresh.(table := On(opts)), [IAC, WILL, last]))
    else if i == 4 then Net(Engine(Fresh.(table := wrapped), [IAC, DONT, last]), Engine(Fresh.(table := On(opts)), []))
    else Net(Engine(Fresh.(table := wrapped), []), Engine(Fresh.(table := On(opts)), []))
  }

  predicate Sixty4th(s: Setup, opts: seq<byte>, last: byte) {
    && |opts| == 63 && Fillers(opts + [last]) && !s.left.proxy
    && Grants(s.right, Will, opts) && !CheckTelopt(s.right.telopts, last, false)
  }

  lemma FillersOfFront(opts: seq<byte>, last: byte)
    requires Fillers(opts + [last])
    ensures Fillers(opts) && last !in opts
  {
    var all := opts + [last];
    assert forall i :: 0 <= i < |opts| ==> opts[i] == all[i];
    assert all[|opts|] == last;
  }

  lemma BothSane(opts: seq<byte>, last: byte, i: nat)
    ensures Sane(ForgetState(opts, last, i))
  {
    hide Filled, Burst, Lookup;
  }

  lemma FirstHears(s: Setup, opts: seq<byte>, last: byte)
    requires Sixty4th(s, opts, last)
    ensures Sane(Wished(opts)) && CanMove(Wished(opts), Hear(TwoParty.Right, 189))
    ensures NetNext(s, Wished(opts), Hear(TwoParty.Right, 189)) == ForgetState(opts, last, 1)
  {
    hide Run, Wire, Filled, Burst, Fillers, Update, Lookup;
    BothSane(opts, last, 0);
    FillersOfFront(opts, last);
    var b := Burst(Will, opts);
    assert b[..189] == b && b[189..] == [];
    BurstIsGranted(s.right, Fresh, Will, opts);
    assert [] + Burst(Do, opts) == Burst(Do, opts);
  }

  lemma SecondHears(s: Setup, opts: seq<byte>, last: byte)
    requires Sixty4th(s, opts, last)
    ensures Sane(ForgetState(opts, last, 1)) && CanMove(ForgetState(opts, last, 1), Hear(TwoParty.Left, 189))
    ensures NetNext(s, ForgetState(opts, last, 1), Hear(TwoParty.Left, 189)) == ForgetState(opts, last, 2)
  {
    hide Run, Wire, Filled, Burst, Fillers, Update, Lookup, Grows;
    BothSane(opts, last, 1);
    FillersOfFront(opts, last);
    var b := Burst(Do, opts);
    assert b[..189] == b && b[189..] == [];
    forall i | 0 <= i < |opts|
      ensures !Grows(Asked(opts), opts[i]) && Lookup(Asked(opts), opts[i]) == Pair(WantYes, No)
    {
      FilledIsFound(Empty, opts, Pair(WantYes, No), opts[i]);
    }
    BurstIsAccepted(s.left, Fresh.(table := Asked(opts)), opts);
  }

  /** The 64th growth of the left table. */
  lemma ThirdForgets(opts: seq<byte>, last: byte, o: byte)
    requires |opts| == 63 && Fillers(opts + [last])
    ensures Lookup(Agreed(opts), last) == Off && Lookup(Update(Agreed(opts), last, Pair(WantYes, No)), o) == Off
  {
    assert WellFormed(Empty);
    hide Filled, Fillers, Store, WellFormed, Find;
    FillersOfFront(opts, last);
    NextIsOff(Empty, opts, Pair(WantYes, No), last);
    forall i | 0 <= i < |opts|
      ensures !Grows(Asked(opts), opts[i])
    {
      FilledIsFound(Empty, opts, Pair(WantYes, No), opts[i]);
    }
    FilledInPlace(Asked(opts), opts, Pair(Yes, No), last);
    WrapForgetsEverything(Agreed(opts), last, Pair(WantYes, No), o);
  }

  lemma ThirdAsks(s: Setup, opts: seq<byte>, last: byte)
    requires Sixty4th(s, opts, last)
    ensures Sane(ForgetState(opts, last, 2))
    ensures NetNext(s, ForgetState(opts, last, 2), Ask(TwoParty.Left, Will, last)) == ForgetState(opts, last, 3)
  {
    hide Filled, Fillers, Update, Lookup, Burst;
    BothSane(opts, last, 2);
    ThirdForgets(opts, last, last);
  }

  lemma FourthHears(s: Setup, opts: seq<byte>, last: byte)
    requires Sixty4th(s, opts, last)
    ensures Sane(ForgetState(opts, last, 3)) && CanMove(ForgetState(opts, last, 3), Hear(TwoParty.Right, 3))
    ensures NetNext(s, ForgetState(opts, last, 3), Hear(TwoParty.Right, 3)) == ForgetState(opts, last, 4)
  {
    hide Run, Wire, Filled, Fillers, Update, Lookup, Burst, Grows, CheckTelopt, OnWire;
    BothSane(opts, last, 3);
    NextIsOff(Empty, opts, Pair(No, Yes), last);
    var p, c := Fresh.(table := On(opts)), s.right;
    var r := Receive(Off, Will, CheckTelopt(c.telopts, last, true), CheckTelopt(c.telopts, last, false));
    assert r.pair == Off && r.send == [Dont];
    var b := [IAC, WILL, last];
    assert b[..3] == b == [IAC, VerbByte(Will), last] && b[3..] == [];
    OneIsHeard(c, p, Will, last, r);
    TagOne(Dont, last);
    SameStays(On(opts), last);
    assert [] + [IAC, DONT, last] == [IAC, DONT, last];
  }

  lemma SameStays(t: Table, o: byte)
    requires WellFormed(t)
    ensures Update(t, o, Lookup(t, o)) == t
  {
  }

  lemma FifthHears(s: Setup, opts: seq<byte>, last: byte)
    requires Sixty4th(s, opts, last)
    ensures Sane(ForgetState(opts, last, 4)) && CanMove(ForgetState(opts, last, 4), Hear(TwoParty.Left, 3))
    ensures NetNext(s, ForgetState(opts, last, 4), Hear(TwoParty.Left, 3)) == ForgetState(opts, last, 5)
  {
    hide Run, Wire, Filled, Fillers, Update, Lookup, Burst, Grows, CheckTelopt;
    BothSane(opts, last, 4);
    ThirdForgets(opts, last, last);
    var t, c := Update(Agreed(opts), last, Pair(WantYes, No)), s.left;
    var r := Receive(Off, Dont, CheckTelopt(c.telopts, last, true), CheckTelopt(c.telopts, last, false));
    assert r.pair == Off && r.send == [];
    var b := [IAC, DONT, last];
    assert b[..3] == b == [IAC, VerbByte(Dont), last] && b[3..] == [];
    OneIsHeard(c, Fresh.(table := t), Dont, last, r);
    assert OnWire(TwoParty.Tag([], last)) == [];
    SameStays(t, last);
  }

  lemma {:induction false} PlayAppend(s: Setup, net: Net, a: seq<Move>, b: seq<Move>, K: set<byte>)
    requires Sane(net) && Playable(s, net, a) && Within(s, net, a, K, true)
    requires Playable(s, Play(s, net, a), b) && Within(s, Play(s, net, a), b, K, true)
    ensures Playable(s, net, a + b) && Within(s, net, a + b, K, true) && Play(s, net, a + b) == Play(s, Play(s, net, a), b)
    decreases |a|
  {
    hide NetNext, Hasty;
    if a == [] {
      assert a + b == b;
    } else {
      assert (a + b)[1..] == a[1..] + b;
      PlayAppend(s, NetNext(s, net, a[0]), a[1..], b, K);
    }
  }

  /** One move in front of others. */
  lemma PlayFirst(s: Setup, net: Net, mv: Move, next: Net, rest: seq<Move>, end: Net, K: set<byte>)
    requires Sane(net) && CanMove(net, mv) && NetNext(s, net, mv) == next
    requires mv.Ask? ==> mv.verb == Will && mv.opt in K
    requires Playable(s, next, rest) && Within(s, next, rest, K, true) && Play(s, next, rest) == end
    ensures Playable(s, net, [mv] + rest) && Within(s, net, [mv] + rest, K, true) && Play(s, net, [mv] + rest) == end
  {
    hide NetNext, Lookup;
    assert ([mv] + rest)[1..] == rest;
  }

  lemma ForgettingIsPlayed(s: Setup, opts: seq<byte>, last: byte, K: set<byte>)
    requires Sixty4th(s, opts, last) && last in K
    ensures Sane(Wished(opts)) && Playable(s, Wished(opts), Forgetting(last))
    ensures Within(s, Wished(opts), Forgetting(last), K, true)
    ensures Play(s, Wished(opts), Forgetting(last)) == ForgetState(opts, last, 5)
  {
    hide NetNext, Sixty4th, Wished;
    var f, end := Forgetting(last), ForgetState(opts, last, 5);
    FirstHears(s, opts, last);
    SecondHears(s, opts, last);
    ThirdAsks(s, opts, last);
    FourthHears(s, opts, last);
    FifthHears(s, opts, last);
    assert Sane(end) by { BothSane(opts, last, 5); }
    hide ForgetState;
    PlayFirst(s, ForgetState(opts, last, 4), f[4], end, [], end, K);
    PlayFirst(s, ForgetState(opts, last, 3), f[3], ForgetState(opts, last, 4), [f[4]], end, K);
    PlayFirst(s, ForgetState(opts, last, 2), f[2], ForgetState(opts, last, 3), [f[3], f[4]], end, K);
    PlayFirst(s, ForgetState(opts, last, 1), f[1], ForgetState(opts, last, 2), [f[2], f[3], f[4]], end, K);
    PlayFirst(s, Wished(opts), f[0], ForgetState(opts, last, 1), [f[1], f[2], f[3], f[4]], end, K);
  }

  ghost predicate TablesAgree(net: Net)
    requires Sane(net)
  {
    forall side: Side, o: byte ::
      var us := Lookup(net.At(side).parser.table, o).us;
      us == Lookup(net.At(side.Other()).parser.table, o).him && us in {No, Yes}
  }

  /** With nothing in flight the right end takes an option to be on that the left end takes to be off. */
  lemma ForgottenApart(opts: seq<byte>, last: byte)
    requires |opts| == 63 && Fillers(opts + [last])
    ensures Sane(ForgetState(opts, last, 5)) && Drained(ForgetState(opts, last, 5)) && !TablesAgree(ForgetState(opts, last, 5))
  {
    hide Filled, Fillers, Update, Lookup, Burst;
    BothSane(opts, last, 5);
    var o, net := opts[0], ForgetState(opts, last, 5);
    FillersOfFront(opts, last);
    ThirdForgets(opts, last, o);
    FilledIsFound(Empty, opts, Pair(No, Yes), o);
    var side: Side := TwoParty.Left;
    assert Lookup(net.At(side).parser.table, o).us != Lookup(net.At(side.Other()).parser.table, o).him;
  }

  /** Whatever the two engines support and whatever is asked, carefully, about options of K: with both
      channels empty the tables agree. */
  ghost predicate AlwaysAgree(K: set<byte>) {
    forall s: Setup, moves: seq<Move> ::
      && !s.left.proxy && !s.right.proxy
      && Playable(s, Begin, moves) && Within(s, Begin, moves, K, true) && Drained(Play(s, Begin, moves)) ==>
        TablesAgree(Play(s, Begin, moves))
  }

  /** Engines that are carefully asked about options of K always come to agree if and only if K has at
      most 63. */
  lemma AgreeExactlyUpTo63(K: set<byte>)
    ensures AlwaysAgree(K) <==> |K| <= 63
  {
    hide Play, Playable, Within, NetNext, Lookup;
    if |K| <= 63 {
      forall s: Setup, moves: seq<Move>, side: Side, o: byte |
        && !s.left.proxy && !s.right.proxy
        && Playable(s, Begin, moves) && Within(s, Begin, moves, K, true) && Drained(Play(s, Begin, moves))
        ensures
          var net := Play(s, Begin, moves);
          var us := Lookup(net.At(side).parser.table, o).us;
          us == Lookup(net.At(side.Other()).parser.table, o).him && us in {No, Yes}
      {
        EnginesAgree(s, moves, K, side, o);
      }
    } else {
      var opts := Choose(K, 64);
      assert opts == opts[..63] + [opts[63]];
      NotAgreed(opts[..63], opts[63], K);
    }
  }

  /** The first 63 supported, the last not. */
  lemma AllowingRefuses(opts: seq<byte>, last: byte)
    requires |opts| == 63 && Fillers(opts + [last])
    ensures Sixty4th(Allowing(opts), opts, last)
  {
    hide Fillers, CheckTelopt, Rows;
    AllowingIsGenerous(opts);
    FillersOfFront(opts, last);
    RowsRefuse(opts, last);
  }

  lemma {:induction false} RowsRefuse(opts: seq<byte>, o: byte)
    requires o !in opts
    ensures !CheckTelopt(Rows(opts), o, false)
  {
    if opts != [] {
      assert Rows(opts)[1..] == Rows(opts[1..]);
      RowsRefuse(opts[1..], o);
    }
  }

  lemma NotAgreed(opts: seq<byte>, last: byte, K: set<byte>)
    requires |opts| == 63 && Fillers(opts + [last]) && last in K && forall i :: 0 <= i < 63 ==> opts[i] in K
    ensures !AlwaysAgree(K)
  {
    hide Play, Playable, Within, NetNext, TablesAgree, Drained, ForgetState, Fillers, Sixty4th, Filled, Burst;
    var s := Allowing(opts);
    AllowingRefuses(opts, last);
    FillersOfFront(opts, last);
    EmptyIsWished();
    assert opts[..0] == [] && Wishes(opts)[0..] == Wishes(opts);
    WishesArePlayed(s, opts, 0);
    WithinMore(s, Begin, Wishes(opts), Members(opts), K, true);
    ForgettingIsPlayed(s, opts, last, K);
    PlayAppend(s, Begin, Wishes(opts), Forgetting(last), K);
    ForgottenApart(opts, last);
  }
}
