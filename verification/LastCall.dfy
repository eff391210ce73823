/**
 * Which value the two ends agree on: while only one of them makes calls about
 * an option, its last call decides, if the other end supports the option.
 */
module LastCall {
  import opened Bytes
  import opened QMethod
  import opened TwoParty

  // ---------- calls about one pair ----------

  predicate IsOffer(v: Verb) { v == Will || v == Wont }
  predicate TurnsOn(v: Verb) { v == Will || v == Do }

  /** A call about the `us` state at `side`, or the `him` state at the other end. */
  predicate About(step: Step, side: Side, o: byte) {
    step.Call? && step.opt == o && (step.side == side <==> IsOffer(step.verb))
  }

  predicate OnlyBy(steps: seq<Step>, side: Side, o: byte, caller: Side) {
    forall i :: 0 <= i < |steps| && About(steps[i], side, o) ==> steps[i].side == caller
  }

  function WishAfter(step: Step, side: Side, o: byte, wish: bool): bool {
    if About(step, side, o) then TurnsOn(step.verb) else wish
  }

  /** What the last call about the pair asked for; `wish` if there was none. */
  function LastWish(steps: seq<Step>, side: Side, o: byte, wish: bool): bool {
    if steps == [] then wish else LastWish(steps[1..], side, o, WishAfter(steps[0], side, o, wish))
  }

  /** Does the end that is asked support the option? */
  function Supports(c: Config, side: Side, o: byte, caller: Side): bool {
    if caller == side then c.At(side.Other()).him(o) else c.At(side).us(o)
  }

  // ---------- the invariant ----------

  /** An end that waits for an answer and last wished for `wish`. */
  function Asked(wish: bool): Q { if wish then WantYes else WantYesOp }
  function Refused(wish: bool): Q { if wish then WantNoOp else WantNo }
  function Settled(on: bool): Q { if on then Yes else No }

  predicate AtRest(h: Half, on: bool) { h == Half(Settled(on), Settled(on), Clear, Clear) }

  /** Every call came from the `us` end. */
  predicate DrivenByUs(h: Half, wish: bool, supported: bool) {
    match (h.toHim, h.toUs)
    case (Clear, Clear) => AtRest(h, wish && supported)
    case (Carry(Will, Clear), Clear) => h.him == No && h.us == Asked(wish)
    case (Carry(Wont, Clear), Clear) => supported && h.him == Yes && h.us == Refused(wish)
    case (Clear, Carry(Do, Clear)) => supported && h.him == Yes && h.us == Asked(wish)
    case (Clear, Carry(Dont, Clear)) => h.him == No && h.us == if supported then Refused(wish) else Asked(wish)
    case _ => false
  }

  /** Every call came from the `him` end, and none was DO behind an outstanding DONT. */
  predicate DrivenByHim(h: Half, wish: bool, supported: bool) {
    match (h.toHim, h.toUs)
    case (Clear, Clear) => AtRest(h, wish && supported)
    case (Clear, Carry(Do, Clear)) => h.us == No && h.him == Asked(wish)
    case (Clear, Carry(Dont, Clear)) => supported && !wish && h.us == Yes && h.him == WantNo
    case (Carry(Will, Clear), Clear) => supported && h.us == Yes && h.him == Asked(wish)
    case (Carry(Wont, Clear), Clear) =>
      h.us == No && if supported then !wish && h.him == WantNo else h.him == Asked(wish)
    case _ => false
  }

  predicate Driven(c: Config, s: System, side: Side, o: byte, caller: Side, wish: bool) {
    var h, supported := Project(s, side, o), Supports(c, side, o, caller);
    if caller == side then DrivenByUs(h, wish, supported) else DrivenByHim(h, wish, supported)
  }

  lemma UsWishes(h: Half, wish: bool, supported: bool, on: bool)
    requires DrivenByUs(h, wish, supported)
    ensures DrivenByUs(HalfNext(h, WishUs(on)), on, supported)
  {
    ThenNothing(h.toHim);
  }

  lemma UsAnswered(h: Half, wish: bool, supported: bool, t: HalfStep)
    requires DrivenByUs(h, wish, supported) && HalfEnabled(h, t)
    requires t.ToUs? || t == ToHim(supported)
    ensures DrivenByUs(HalfNext(h, t), wish, supported)
  {
  }

  lemma HimWishes(h: Half, wish: bool, supported: bool, on: bool)
    requires DrivenByHim(h, wish, supported) && !(on && h.him == WantNo)
    ensures DrivenByHim(HalfNext(h, WishHim(on)), on, supported)
  {
    ThenNothing(h.toUs);
  }

  lemma HimAnswered(h: Half, wish: bool, supported: bool, t: HalfStep)
    requires DrivenByHim(h, wish, supported) && HalfEnabled(h, t)
    requires t.ToHim? || t == ToUs(supported)
    ensures DrivenByHim(HalfNext(h, t), wish, supported)
  {
  }

  // ---------- steps and runs ----------

  lemma StepIsDriven(c: Config, s: System, step: Step, side: Side, o: byte, caller: Side, wish: bool)
    requires Enabled(s, step) && Driven(c, s, side, o, caller, wish)
    requires About(step, side, o) ==> step.side == caller
    requires caller != side ==> !QueuesDoBehindDont(s, step)
    ensures Driven(c, Next(c, s, step), side, o, caller, WishAfter(step, side, o, wish))
  {
    hide Next, DrivenByUs, DrivenByHim, HalfNext;
    var h, t, supported := Project(s, side, o), ProjectStep(c, s, step, side, o), Supports(c, side, o, caller);
    StepProjects(c, s, step, side, o);
    StutterKeeps(h);
    match t
    case Stutter =>
    case WishUs(on) => UsWishes(h, wish, supported, on);
    case WishHim(on) => HimWishes(h, wish, supported, on);
    case _ =>
      if caller == side {
        UsAnswered(h, wish, supported, t);
      } else {
        HimAnswered(h, wish, supported, t);
      }
  }

  lemma StutterKeeps(h: Half)
    ensures HalfNext(h, Stutter) == h
  {
  }

  lemma {:induction false} RunIsDriven(c: Config, s: System, steps: seq<Step>, side: Side, o: byte, caller: Side, wish: bool)
    requires Legal(c, s, steps) && Driven(c, s, side, o, caller, wish) && OnlyBy(steps, side, o, caller)
    requires caller != side ==> Disciplined(c, s, steps)
    ensures Driven(c, Run(c, s, steps), side, o, caller, LastWish(steps, side, o, wish))
    decreases |steps|
  {
    hide Next, Driven;
    if steps != [] {
      StepIsDriven(c, s, steps[0], side, o, caller, wish);
      RunIsDriven(c, Next(c, s, steps[0]), steps[1..], side, o, caller, WishAfter(steps[0], side, o, wish));
    }
  }

  lemma QuietIsDecided(c: Config, s: System, side: Side, o: byte, caller: Side, wish: bool)
    requires Driven(c, s, side, o, caller, wish) && Quiet(s)
    ensures
      var q := Settled(wish && Supports(c, side, o, caller));
      s.At(side).Get(o).us == q && s.At(side.Other()).Get(o).him == q
  {
    assert Pick(s.At(side).inbox, o, false) == Clear && Pick(s.At(side.Other()).inbox, o, true) == Clear;
  }

  /** From any moment at which an option is off and nothing about it is in flight: if from then on one
      end alone makes calls about it, then whenever nothing is in flight the option is on, at both
      ends, if and only if the last call asked for it and the other end supports it. */
  lemma LastCallDecides(c: Config, s: System, steps: seq<Step>, side: Side, o: byte, caller: Side)
    requires AtRest(Project(s, side, o), false)
    requires Legal(c, s, steps) && OnlyBy(steps, side, o, caller) && (caller != side ==> Disciplined(c, s, steps))
    requires Quiet(Run(c, s, steps))
    ensures
      var s' := Run(c, s, steps);
      var q := Settled(LastWish(steps, side, o, false) && Supports(c, side, o, caller));
      s'.At(side).Get(o).us == q && s'.At(side.Other()).Get(o).him == q
  {
    hide Next;
    RunIsDriven(c, s, steps, side, o, caller, false);
    QuietIsDecided(c, Run(c, s, steps), side, o, caller, LastWish(steps, side, o, false));
  }

  /** In particular from the start, where everything is off. */
  lemma StartIsOff(side: Side, o: byte)
    ensures AtRest(Project(Start, side, o), false)
  {
  }
}
