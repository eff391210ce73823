/**
 * What two whole engines agree on: while one of them alone is asked about an
 * option, the last request decides, if the other engine supports the option.
 */
module TelnetOutcome {
  import opened Bytes
  import opened QMethod
  import opened OptionTable
  import opened TelnetParser
  import opened TelnetEndpoint
  import opened TelnetPair
  import opened LastCall
  import TwoParty

  /** The call that a request is. */
  function CallOf(mv: Move): TwoParty.Step
    requires mv.Ask?
  {
    TwoParty.Call(mv.side, mv.verb, mv.opt)
  }

  predicate OnlyAskedAt(moves: seq<Move>, side: Side, o: byte, caller: Side) {
    forall i :: 0 <= i < |moves| && moves[i].Ask? && About(CallOf(moves[i]), side, o) ==> moves[i].side == caller
  }

  function WishNext(mv: Move, side: Side, o: byte, wish: bool): bool {
    if mv.Ask? then WishAfter(CallOf(mv), side, o, wish) else wish
  }

  /** What the last request about the pair asked for; `wish` if there was none. */
  function LastAsked(moves: seq<Move>, side: Side, o: byte, wish: bool): bool {
    if moves == [] then wish else LastAsked(moves[1..], side, o, WishNext(moves[0], side, o, wish))
  }

  // ---------- deliveries ----------

  lemma {:induction false} DeliveriesAskNothing(ds: seq<TwoParty.Step>, side: Side, o: byte, wish: bool)
    requires TwoParty.OnlyDeliveries(ds)
    ensures LastWish(ds, side, o, wish) == wish
  {
    if ds != [] {
      DeliveriesAskNothing(ds[1..], side, o, wish);
    }
  }

  lemma {:induction false} DeliveriesAreDisciplined(c: TwoParty.Config, sys: TwoParty.System, ds: seq<TwoParty.Step>)
    requires TwoParty.Legal(c, sys, ds) && TwoParty.OnlyDeliveries(ds)
    ensures TwoParty.Disciplined(c, sys, ds)
    decreases |ds|
  {
    hide TwoParty.Next;
    if ds != [] {
      DeliveriesAreDisciplined(c, TwoParty.Next(c, sys, ds[0]), ds[1..]);
    }
  }

  lemma DriftIsDriven(c: TwoParty.Config, sys: TwoParty.System, sys': TwoParty.System, side: Side, o: byte, caller: Side, wish: bool)
    requires Drifts(c, sys, sys') && Driven(c, sys, side, o, caller, wish)
    ensures Driven(c, sys', side, o, caller, wish)
  {
    hide TwoParty.Next, Driven;
    var ds :| DriftsBy(c, sys, sys', ds);
    DeliveriesAskNothing(ds, side, o, wish);
    DeliveriesAreDisciplined(c, sys, ds);
    RunIsDriven(c, sys, ds, side, o, caller, wish);
  }

  // ---------- runs ----------

  ghost predicate Steered(s: Setup, net: Net, K: set<byte>, careful: bool, side: Side, o: byte, caller: Side, wish: bool) {
    exists sys ::
      Reached(Support(s), sys, careful) && Follows(net, sys, K) && Driven(Support(s), sys, side, o, caller, wish)
  }

  lemma BeginIsSteered(s: Setup, K: set<byte>, careful: bool, side: Side, o: byte, caller: Side)
    ensures Steered(s, Begin, K, careful, side, o, caller, false)
  {
    BeginFollows(s, K, careful);
    hide Follows, Reached;
    StartIsOff(side, o);
    assert Driven(Support(s), TwoParty.Start, side, o, caller, false);
  }

  lemma MoveIsSteered(s: Setup, net: Net, mv: Move, K: set<byte>, careful: bool, side: Side, o: byte, caller: Side, wish: bool)
    requires !s.left.proxy && !s.right.proxy && |K| <= 63 && (caller != side ==> careful)
    requires Sane(net) && CanMove(net, mv) && (careful ==> !Hasty(net, mv)) && (mv.Ask? ==> mv.opt in K)
    requires mv.Ask? && About(CallOf(mv), side, o) ==> mv.side == caller
    requires Steered(s, net, K, careful, side, o, caller, wish)
    ensures Steered(s, NetNext(s, net, mv), K, careful, side, o, caller, WishNext(mv, side, o, wish))
  {
    hide Follows, Reached, NetNext, Energy, Driven, TwoParty.Next, Drifts, Lookup;
    var c := Support(s);
    var sys :| Reached(c, sys, careful) && Follows(net, sys, K) && Driven(c, sys, side, o, caller, wish);
    if mv.Ask? {
      var sys' := AskFollows(s, net, mv, sys, K, careful);
      SameHaste(net, sys, K, mv);
      StepIsDriven(c, sys, CallOf(mv), side, o, caller, wish);
    } else {
      var sys' := HearFollows(s, net, mv.side, mv.n, sys, K, careful);
      DriftIsDriven(c, sys, sys', side, o, caller, wish);
    }
  }

  lemma SameHaste(net: Net, sys: TwoParty.System, K: set<byte>, mv: Move)
    requires Sane(net) && Follows(net, sys, K) && mv.Ask?
    ensures Hasty(net, mv) <==> TwoParty.QueuesDoBehindDont(sys, CallOf(mv))
  {
    hide Lookup, EndFollows;
    TableTells(net.At(mv.side), sys.At(mv.side), K, mv.opt);
  }

  lemma {:induction false} PlayIsSteered(s: Setup, net: Net, moves: seq<Move>, K: set<byte>, careful: bool, side: Side, o: byte, caller: Side, wish: bool)
    requires !s.left.proxy && !s.right.proxy && |K| <= 63 && (caller != side ==> careful)
    requires Sane(net) && Playable(s, net, moves) && Within(s, net, moves, K, careful) && OnlyAskedAt(moves, side, o, caller)
    requires Steered(s, net, K, careful, side, o, caller, wish)
    ensures Steered(s, Play(s, net, moves), K, careful, side, o, caller, LastAsked(moves, side, o, wish))
    decreases |moves|
  {
    hide Steered, NetNext, Hasty, WishNext, About;
    if moves != [] {
      MoveIsSteered(s, net, moves[0], K, careful, side, o, caller, wish);
      PlayIsSteered(s, NetNext(s, net, moves[0]), moves[1..], K, careful, side, o, caller, WishNext(moves[0], side, o, wish));
    }
  }

  /** Does the engine that is asked support the option? */
  function Grants(s: Setup, side: Side, o: byte, caller: Side): bool {
    if caller == side then CheckTelopt(s.At(side.Other()).telopts, o, false) else CheckTelopt(s.At(side).telopts, o, true)
  }

  /** Two engines, requests on at most 63 options, those about one direction of one option made at one
      end only: whenever both channels are empty that direction is on in both tables if and only if
      the last request was WILL or DO and the other engine supports it. */
  lemma EnginesObeyLastRequest(s: Setup, moves: seq<Move>, K: set<byte>, side: Side, o: byte, caller: Side)
    requires !s.left.proxy && !s.right.proxy && |K| <= 63
    requires Playable(s, Begin, moves) && Within(s, Begin, moves, K, caller != side) && OnlyAskedAt(moves, side, o, caller)
    requires Drained(Play(s, Begin, moves))
    ensures
      var net := Play(s, Begin, moves);
      var q := Settled(LastAsked(moves, side, o, false) && Grants(s, side, o, caller));
      Lookup(net.At(side).parser.table, o).us == q && Lookup(net.At(side.Other()).parser.table, o).him == q
  {
    hide Lookup, NetNext, EndFollows, Within, Reached, CheckTelopt;
    var careful, wish := caller != side, LastAsked(moves, side, o, false);
    BeginIsSteered(s, K, careful, side, o, caller);
    PlayIsSteered(s, Begin, moves, K, careful, side, o, caller, false);
    var net, c := Play(s, Begin, moves), Support(s);
    var sys :| Reached(c, sys, careful) && Follows(net, sys, K) && Driven(c, sys, side, o, caller, wish);
    NothingLeft(net.left, sys.left, K);
    NothingLeft(net.right, sys.right, K);
    TableTells(net.At(side), sys.At(side), K, o);
    TableTells(net.At(side.Other()), sys.At(side.Other()), K, o);
    QuietIsDecided(c, sys, side, o, caller, wish);
  }
}
