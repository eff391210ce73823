/**
 * Two endpoints running the negotiator against each other over FIFO channels,
 * for all options at once.
 */
module TwoParty {
  import opened Bytes
  import opened QMethod

  // ---------- the system ----------

  datatype Side = Left | Right {
    function Other(): Side { if Left? then Right else Left }
  }

  datatype Msg = Msg(verb: Verb, opt: byte)

  /** What an endpoint's telopt table says it supports. */
  datatype Support = Support(us: byte -> bool, him: byte -> bool)

  /** One endpoint: its option states and the messages on their way to it. */
  datatype End = End(options: map<byte, Pair>, inbox: seq<Msg>) {
    function Get(o: byte): Pair { if o in options then options[o] else Off }
  }

  datatype System = System(left: End, right: End) {
    function At(side: Side): End { if side == Left then left else right }
    function With(side: Side, e: End): System { if side == Left then this.(left := e) else this.(right := e) }
  }

  datatype Config = Config(left: Support, right: Support) {
    function At(side: Side): Support { if side == Left then left else right }
  }

  /** Either end calls telnet_negotiate, or the oldest message in flight to an end is delivered. */
  datatype Step = Call(side: Side, verb: Verb, opt: byte) | Deliver(side: Side)

  const Start := System(End(map[], []), End(map[], []))

  function Tag(vs: seq<Verb>, o: byte): seq<Msg> {
    seq(|vs|, i requires 0 <= i < |vs| => Msg(vs[i], o))
  }

  predicate Enabled(s: System, step: Step) {
    step.Call? || s.At(step.side).inbox != []
  }

  /** The end on `side` stores `p` for option `o` and sends `vs`. */
  function Put(s: System, side: Side, o: byte, p: Pair, vs: seq<Verb>): System {
    var me, peer := s.At(side), s.At(side.Other());
    s.With(side, me.(options := me.options[o := p]))
     .With(side.Other(), peer.(inbox := peer.inbox + Tag(vs, o)))
  }

  function Pop(s: System, side: Side): System
    requires s.At(side).inbox != []
  {
    s.With(side, s.At(side).(inbox := s.At(side).inbox[1..]))
  }

  function ReactionTo(c: Config, s: System, side: Side): Reaction
    requires s.At(side).inbox != []
  {
    var m := s.At(side).inbox[0];
    Receive(s.At(side).Get(m.opt), m.verb, c.At(side).us(m.opt), c.At(side).him(m.opt))
  }

  function Next(c: Config, s: System, step: Step): System
    requires Enabled(s, step)
  {
    match step
    case Call(side, v, o) =>
      var (p, vs) := Request(s.At(side).Get(o), v);
      Put(s, side, o, p, vs)
    case Deliver(side) =>
      var r := ReactionTo(c, s, side);
      Put(Pop(s, side), side, s.At(side).inbox[0].opt, r.pair, r.send)
  }

  /** `steps` can be taken one after the other from `s`. */
  predicate Legal(c: Config, s: System, steps: seq<Step>)
    decreases |steps|
  {
    steps != [] ==> Enabled(s, steps[0]) && Legal(c, Next(c, s, steps[0]), steps[1..])
  }

  function Run(c: Config, s: System, steps: seq<Step>): System
    requires Legal(c, s, steps)
    decreases |steps|
  {
    if steps == [] then s else Run(c, Next(c, s, steps[0]), steps[1..])
  }

  predicate Quiet(s: System) {
    s.left.inbox == [] && s.right.inbox == []
  }

  /** The one call that the code does not handle: DO queued behind an outstanding DONT. */
  predicate QueuesDoBehindDont(s: System, step: Step) {
    step.Call? && step.verb == Do && s.At(step.side).Get(step.opt).him == WantNo
  }

  predicate Disciplined(c: Config, s: System, steps: seq<Step>)
    requires Legal(c, s, steps)
    decreases |steps|
  {
    steps != [] ==>
      && !QueuesDoBehindDont(s, steps[0])
      && Disciplined(c, Next(c, s, steps[0]), steps[1..])
  }

  predicate OnlyDeliveries(steps: seq<Step>) {
    forall i :: 0 <= i < |steps| ==> steps[i].Deliver?
  }

  // ---------- one direction of one option ----------

  /** The messages in flight that concern one pair, oldest first. */
  datatype Wire = Clear | Carry(head: Verb, rest: Wire) {
    function Then(vs: seq<Verb>): Wire
      requires |vs| <= 1
    {
      match this
      case Clear => if vs == [] then Clear else Carry(vs[0], Clear)
      case Carry(v, rest) => Carry(v, rest.Then(vs))
    }
  }

  /** The `us` state of one end, the `him` state of the other, and the
      messages in flight between them that concern this pair. */
  datatype Half = Half(us: Q, him: Q, toHim: Wire, toUs: Wire)

  predicate Concerns(m: Msg, o: byte, aboutHim: bool) {
    m.opt == o && (m.verb == Will || m.verb == Wont) == aboutHim
  }

  function Pick(ms: seq<Msg>, o: byte, aboutHim: bool): Wire {
    if ms == [] then Clear
    else if Concerns(ms[0], o, aboutHim) then Carry(ms[0].verb, Pick(ms[1..], o, aboutHim))
    else Pick(ms[1..], o, aboutHim)
  }

  function Project(s: System, side: Side, o: byte): Half {
    Half(s.At(side).Get(o).us, s.At(side.Other()).Get(o).him,
         Pick(s.At(side.Other()).inbox, o, true), Pick(s.At(side).inbox, o, false))
  }

  datatype HalfStep = Stutter | WishUs(on: bool) | WishHim(on: bool) | ToHim(supported: bool) | ToUs(supported: bool)

  predicate HalfEnabled(h: Half, t: HalfStep) {
    && (t.ToHim? ==> h.toHim.Carry? && (h.toHim.head == Will || h.toHim.head == Wont))
    && (t.ToUs? ==> h.toUs.Carry? && (h.toUs.head == Do || h.toUs.head == Dont))
  }

  function HimReaction(h: Half, supported: bool): Reaction
    requires h.toHim.Carry?
  {
    if h.toHim.head == Will then ReceiveWill(Pair(No, h.him), supported) else ReceiveWont(Pair(No, h.him))
  }

  function UsReaction(h: Half, supported: bool): Reaction
    requires h.toUs.Carry?
  {
    if h.toUs.head == Do then ReceiveDo(Pair(h.us, No), supported) else ReceiveDont(Pair(h.us, No))
  }

  function HalfNext(h: Half, t: HalfStep): Half
    requires HalfEnabled(h, t)
  {
    match t
    case Stutter => h
    case WishUs(on) =>
      var (q, now) := Wish(h.us, on);
      h.(us := q, toHim := h.toHim.Then(if now then [if on then Will else Wont] else []))
    case WishHim(on) =>
      var (q, now) := Wish(h.him, on);
      h.(him := q, toUs := h.toUs.Then(if now then [if on then Do else Dont] else []))
    case ToHim(supported) =>
      var r := HimReaction(h, supported);
      h.(him := r.pair.him, toHim := h.toHim.rest, toUs := h.toUs.Then(r.send))
    case ToUs(supported) =>
      var r := UsReaction(h, supported);
      h.(us := r.pair.us, toUs := h.toUs.rest, toHim := h.toHim.Then(r.send))
  }

  /** What a system step is for the pair (side, o). */
  function ProjectStep(c: Config, s: System, step: Step, side: Side, o: byte): HalfStep
    requires Enabled(s, step)
  {
    match step
    case Call(at, v, p) =>
      if p != o then Stutter
      else if at == side && (v == Will || v == Wont) then WishUs(v == Will)
      else if at != side && (v == Do || v == Dont) then WishHim(v == Do)
      else Stutter
    case Deliver(at) =>
      var m := s.At(at).inbox[0];
      if !Concerns(m, o, at != side) then Stutter
      else if at == side then ToUs(c.At(at).us(o))
      else ToHim(c.At(at).him(o))
  }

  lemma {:induction false} PickSend(ms: seq<Msg>, vs: seq<Verb>, p: byte, o: byte, aboutHim: bool)
    requires |vs| <= 1
    ensures Pick(ms + Tag(vs, p), o, aboutHim) ==
            Pick(ms, o, aboutHim).Then(if vs != [] && Concerns(Msg(vs[0], p), o, aboutHim) then vs else [])
  {
    if ms == [] {
      assert ms + Tag(vs, p) == if vs == [] then [] else [Msg(vs[0], p)];
    } else {
      assert (ms + Tag(vs, p))[1..] == ms[1..] + Tag(vs, p);
      PickSend(ms[1..], vs, p, o, aboutHim);
    }
  }

  /** Storing and sending, seen from one pair. */
  lemma PutProjects(s: System, at: Side, p: byte, q: Pair, vs: seq<Verb>, side: Side, o: byte)
    requires |vs| <= 1
    ensures
      var h := Project(s, side, o);
      var picked := if vs != [] && Concerns(Msg(vs[0], p), o, at == side) then vs else [];
      Project(Put(s, at, p, q, vs), side, o) ==
      if at == side then h.(us := if p == o then q.us else h.us, toHim := h.toHim.Then(picked))
      else h.(him := if p == o then q.him else h.him, toUs := h.toUs.Then(picked))
  {
    PickSend(s.At(at.Other()).inbox, vs, p, o, at == side);
  }

  lemma {:induction false} ThenNothing(w: Wire)
    ensures w.Then([]) == w
  {
    if w.Carry? {
      ThenNothing(w.rest);
    }
  }

  lemma CallProjects(c: Config, s: System, at: Side, v: Verb, p: byte, side: Side, o: byte)
    ensures
      var t := ProjectStep(c, s, Call(at, v, p), side, o);
      Project(Next(c, s, Call(at, v, p)), side, o) == HalfNext(Project(s, side, o), t)
  {
    var (q, vs) := Request(s.At(at).Get(p), v);
    PutProjects(s, at, p, q, vs, side, o);
    ThenNothing(Project(s, side, o).toHim);
    ThenNothing(Project(s, side, o).toUs);
  }

  /** Removing the oldest message, seen from one pair. */
  lemma PopProjects(s: System, at: Side, side: Side, o: byte)
    requires s.At(at).inbox != []
    ensures
      var m, h := s.At(at).inbox[0], Project(s, side, o);
      var w := if at == side then h.toUs else h.toHim;
      && (Concerns(m, o, at != side) ==> w.Carry? && w.head == m.verb)
      && Project(Pop(s, at), side, o) ==
         if !Concerns(m, o, at != side) then h
         else if at == side then h.(toUs := w.rest) else h.(toHim := w.rest)
  {
  }

  /** WILL and WONT concern only `him`, DO and DONT only `us`. */
  lemma ReceiveIsLocal(p: Pair, v: Verb, supportUs: bool, supportHim: bool)
    ensures
      var r := Receive(p, v, supportUs, supportHim);
      && |r.send| <= 1
      && (v == Will || v == Wont ==>
            var r' := if v == Will then ReceiveWill(Pair(No, p.him), supportHim) else ReceiveWont(Pair(No, p.him));
            && r.pair == Pair(p.us, r'.pair.him) && r.send == r'.send && r.protocolError == r'.protocolError
            && (r.send != [] ==> r.send[0] == Do || r.send[0] == Dont))
      && (v == Do || v == Dont ==>
            var r' := if v == Do then ReceiveDo(Pair(p.us, No), supportUs) else ReceiveDont(Pair(p.us, No));
            && r.pair == Pair(r'.pair.us, p.him) && r.send == r'.send && r.protocolError == r'.protocolError
            && (r.send != [] ==> r.send[0] == Will || r.send[0] == Wont))
  {
  }

  lemma DeliverProjects(c: Config, s: System, at: Side, side: Side, o: byte)
    requires s.At(at).inbox != []
    ensures
      var t := ProjectStep(c, s, Deliver(at), side, o);
      && HalfEnabled(Project(s, side, o), t)
      && Project(Next(c, s, Deliver(at)), side, o) == HalfNext(Project(s, side, o), t)
  {
    hide ReceiveWill, ReceiveWont, ReceiveDo, ReceiveDont, Put, Pop, Pick;
    var m, h := s.At(at).inbox[0], Project(s, side, o);
    var r, s' := ReactionTo(c, s, at), Pop(s, at);
    ReceiveIsLocal(s.At(at).Get(m.opt), m.verb, c.At(at).us(m.opt), c.At(at).him(m.opt));
    PopProjects(s, at, side, o);
    PutProjects(s', at, m.opt, r.pair, r.send, side, o);
    var h' := Project(Put(s', at, m.opt, r.pair, r.send), side, o);
    ThenNothing(h.toHim);
    ThenNothing(h.toUs);
    if !Concerns(m, o, at != side) {
      assert r.send != [] ==> !Concerns(Msg(r.send[0], m.opt), o, at == side);
      assert h' == h;
    } else if at == side {
      assert h'.us == UsReaction(h, c.At(at).us(o)).pair.us;
      assert h' == h.(us := h'.us, toUs := h.toUs.rest, toHim := h.toHim.Then(r.send));
    } else {
      assert h'.him == HimReaction(h, c.At(at).him(o)).pair.him;
      assert h' == h.(him := h'.him, toHim := h.toHim.rest, toUs := h.toUs.Then(r.send));
    }
  }

  /** Every step of the system is a step, or nothing, for each pair. */
  lemma StepProjects(c: Config, s: System, step: Step, side: Side, o: byte)
    requires Enabled(s, step)
    ensures
      var t := ProjectStep(c, s, step, side, o);
      && HalfEnabled(Project(s, side, o), t)
      && Project(Next(c, s, step), side, o) == HalfNext(Project(s, side, o), t)
  {
    match step
    case Call(at, v, p) => CallProjects(c, s, at, v, p, side, o);
    case Deliver(at) => DeliverProjects(c, s, at, side, o);
  }

  // ---------- the invariant ----------

  predicate Asking(q: Q) { q == WantYes || q == WantYesOp }
  predicate Refusing(q: Q) { q == WantNo || q == WantNoOp }

  predicate Agree(h: Half) {
    (h.us == Yes && h.him == Yes) || (h.us == No && h.him == No)
  }

  /** The states from which the two ends come to agree. */
  predicate Sound(h: Half) {
    match (h.toHim, h.toUs)
    case (Clear, Clear) => Agree(h)
    case (Carry(Wont, Clear), Clear) =>
      (h.us == No && (h.him == WantNo || Asking(h.him))) || (Refusing(h.us) && h.him == Yes)
    case (Carry(Will, Clear), Clear) => (h.us == Yes && Asking(h.him)) || (Asking(h.us) && h.him == No)
    case (Clear, Carry(Do, Clear)) => (h.us == No && Asking(h.him)) || (Asking(h.us) && h.him == Yes)
    case (Clear, Carry(Dont, Clear)) =>
      ((Refusing(h.us) || Asking(h.us)) && h.him == No) || (h.us == Yes && h.him == WantNo)
    case (Carry(Wont, Clear), Carry(Dont, Clear)) => Refusing(h.us) && h.him == WantNo
    case (Carry(Will, Clear), Carry(Do, Clear)) => Asking(h.us) && Asking(h.him)
    case (Clear, Carry(Dont, Carry(Do, Clear))) => (Refusing(h.us) || Asking(h.us)) && Asking(h.him)
    case (Clear, Carry(Do, Carry(Dont, Clear))) => Asking(h.us) && h.him == WantNo
    case (Carry(Will, Carry(Wont, Clear)), Clear) => Refusing(h.us) && Asking(h.him)
    case (Carry(Wont, Carry(Will, Clear)), Clear) => Asking(h.us) && (h.him == WantNo || Asking(h.him))
    case _ => false
  }

  /** The states that a DO queued behind a DONT leads to: the ends settle apart. */
  predicate Lost(h: Half) {
    match (h.toHim, h.toUs)
    case (Clear, Clear) =>
      || (h.us == No && (Asking(h.him) || Refusing(h.him)))
      || (h.him == No && (Asking(h.us) || Refusing(h.us)))
      || (h.us == Yes && Asking(h.him))
      || (h.him == Yes && Asking(h.us))
    case (Carry(Wont, Clear), Clear) => (h.us == No && h.him == WantNoOp) || (Refusing(h.us) && Asking(h.him))
    case (Carry(Wont, Clear), Carry(Dont, Clear)) => Refusing(h.us) && h.him == WantNoOp
    case (Clear, Carry(Do, Clear)) => (Refusing(h.us) || Asking(h.us)) && Asking(h.him)
    case (Clear, Carry(Dont, Clear)) =>
      || (Refusing(h.us) && Asking(h.him))
      || (Asking(h.us) && Refusing(h.him))
      || (h.us == Yes && h.him == WantNoOp)
    case (Carry(Will, Clear), Clear) => Asking(h.us) && (Refusing(h.him) || Asking(h.him))
    case (Clear, Carry(Do, Carry(Dont, Clear))) => Asking(h.us) && h.him == WantNoOp
    case (Carry(Wont, Carry(Will, Clear)), Clear) => Asking(h.us) && h.him == WantNoOp
    case _ => false
  }

  /** How far one end is from having nothing left to do, given what is in flight to it. */
  function EndRank(q: Q, inbound: Wire, yes: Verb, no: Verb): nat {
    match q
    case No => 0
    case Yes => 0
    case WantNo => if inbound == Clear then 2 else 1
    case WantYes => if inbound == Clear then 2 else 1
    case WantYesOp => if inbound == Clear then 4 else if inbound == Carry(yes, Clear) then 3 else 1
    case WantNoOp =>
      if inbound == Clear then 4
      else if inbound == Carry(no, Clear) then 3
      else if inbound.head == no then 2 else 1
  }

  function Rank(h: Half): nat {
    EndRank(h.him, h.toHim, Will, Wont) + EndRank(h.us, h.toUs, Do, Dont)
  }

  predicate Kept(h: Half, t: HalfStep, h': Half) {
    && (Sound(h') || Lost(h'))
    && (Sound(h) ==> (Sound(h') <==> !(t == WishHim(true) && h.him == WantNo)))
    && (Lost(h) && (t.ToHim? || t.ToUs?) ==> Lost(h'))
    && (t.ToHim? || t.ToUs? ==> Rank(h') < Rank(h))
  }

  lemma WishUsKeeps(h: Half, on: bool)
    requires Sound(h) || Lost(h)
    ensures Kept(h, WishUs(on), HalfNext(h, WishUs(on)))
  {
    ThenNothing(h.toHim);
    var v := if on then Will else Wont;
    assert Clear.Then([v]) == Carry(v, Clear);
    assert h.toHim.Carry? && h.toHim.rest == Clear ==> h.toHim.Then([v]) == Carry(h.toHim.head, Carry(v, Clear));
  }

  lemma WishHimKeeps(h: Half, on: bool)
    requires Sound(h) || Lost(h)
    ensures Kept(h, WishHim(on), HalfNext(h, WishHim(on)))
  {
    ThenNothing(h.toUs);
    var v := if on then Do else Dont;
    assert Clear.Then([v]) == Carry(v, Clear);
    assert h.toUs.Carry? && h.toUs.rest == Clear ==> h.toUs.Then([v]) == Carry(h.toUs.head, Carry(v, Clear));
  }

  lemma ToHimFromSound(h: Half, supported: bool)
    requires Sound(h) && HalfEnabled(h, ToHim(supported))
    ensures Sound(HalfNext(h, ToHim(supported))) && Rank(HalfNext(h, ToHim(supported))) < Rank(h)
    ensures !HimReaction(h, supported).protocolError
  {
  }

  lemma ToHimFromLost(h: Half, supported: bool)
    requires Lost(h) && HalfEnabled(h, ToHim(supported))
    ensures Lost(HalfNext(h, ToHim(supported))) && Rank(HalfNext(h, ToHim(supported))) < Rank(h)
  {
  }

  lemma ToUsFromSound(h: Half, supported: bool)
    requires Sound(h) && HalfEnabled(h, ToUs(supported))
    ensures Sound(HalfNext(h, ToUs(supported))) && Rank(HalfNext(h, ToUs(supported))) < Rank(h)
    ensures !UsReaction(h, supported).protocolError
  {
  }

  lemma ToUsFromLost(h: Half, supported: bool)
    requires Lost(h) && HalfEnabled(h, ToUs(supported))
    ensures Lost(HalfNext(h, ToUs(supported))) && Rank(HalfNext(h, ToUs(supported))) < Rank(h)
  {
  }

  lemma SoundIsNotLost(h: Half)
    requires Sound(h)
    ensures !Lost(h)
  {
  }

  lemma HalfStepKeeps(h: Half, t: HalfStep)
    requires Sound(h) || Lost(h)
    requires HalfEnabled(h, t)
    ensures Kept(h, t, HalfNext(h, t))
  {
    match t
    case Stutter =>
    case WishUs(on) => WishUsKeeps(h, on);
    case WishHim(on) => WishHimKeeps(h, on);
    case ToHim(supported) =>
      if Sound(h) {
        ToHimFromSound(h, supported);
        SoundIsNotLost(h);
      } else {
        ToHimFromLost(h, supported);
      }
    case ToUs(supported) =>
      if Sound(h) {
        ToUsFromSound(h, supported);
        SoundIsNotLost(h);
      } else {
        ToUsFromLost(h, supported);
      }
  }

  // ---------- runs ----------

  predicate Settling(s: System, side: Side, o: byte) {
    Sound(Project(s, side, o)) || Lost(Project(s, side, o))
  }

  lemma StepKeeps(c: Config, s: System, step: Step, side: Side, o: byte)
    requires Enabled(s, step)
    requires Settling(s, side, o)
    ensures
      var s' := Next(c, s, step);
      && Settling(s', side, o)
      && (Sound(Project(s, side, o)) ==>
            (Sound(Project(s', side, o)) <==>
             !(step == Call(side.Other(), Do, o) && s.At(side.Other()).Get(o).him == WantNo)))
      && (step.Deliver? && Lost(Project(s, side, o)) ==> Lost(Project(s', side, o)))
      && (step.Deliver? ==> Rank(Project(s', side, o)) <= Rank(Project(s, side, o)))
  {
    StepProjects(c, s, step, side, o);
    HalfStepKeeps(Project(s, side, o), ProjectStep(c, s, step, side, o));
  }

  /** No run, disciplined or not, leaves the 94 states of Sound and Lost. */
  lemma {:induction false} RunKeepsSettling(c: Config, s: System, steps: seq<Step>, side: Side, o: byte)
    requires Legal(c, s, steps)
    requires Settling(s, side, o)
    ensures Settling(Run(c, s, steps), side, o)
    decreases |steps|
  {
    if steps != [] {
      StepKeeps(c, s, steps[0], side, o);
      RunKeepsSettling(c, Next(c, s, steps[0]), steps[1..], side, o);
    }
  }

  lemma {:induction false} DisciplinedRunIsSound(c: Config, s: System, steps: seq<Step>, side: Side, o: byte)
    requires Legal(c, s, steps) && Disciplined(c, s, steps)
    requires Sound(Project(s, side, o))
    ensures Sound(Project(Run(c, s, steps), side, o))
    decreases |steps|
  {
    if steps != [] {
      StepKeeps(c, s, steps[0], side, o);
      DisciplinedRunIsSound(c, Next(c, s, steps[0]), steps[1..], side, o);
    }
  }

  /** Section 7 of RFC 1143 for this code: after any interleaving of local calls and
      deliveries in which DO is never queued behind an outstanding DONT, whenever nothing
      is in flight both ends of every option are on or both are off. */
  lemma Agreement(c: Config, steps: seq<Step>, side: Side, o: byte)
    requires Legal(c, Start, steps) && Disciplined(c, Start, steps)
    requires Quiet(Run(c, Start, steps))
    ensures
      var s := Run(c, Start, steps);
      s.At(side).Get(o).us == s.At(side.Other()).Get(o).him && s.At(side).Get(o).us in {No, Yes}
  {
    DisciplinedRunIsSound(c, Start, steps, side, o);
  }

  /** The "answered by" warnings are never raised in such a run. */
  lemma NoProtocolError(c: Config, steps: seq<Step>, at: Side)
    requires Legal(c, Start, steps) && Disciplined(c, Start, steps)
    requires Run(c, Start, steps).At(at).inbox != []
    ensures !ReactionTo(c, Run(c, Start, steps), at).protocolError
  {
    var s := Run(c, Start, steps);
    var m := s.At(at).inbox[0];
    var aboutHim := m.verb == Will || m.verb == Wont;
    var side := if aboutHim then at.Other() else at;
    DisciplinedRunIsSound(c, Start, steps, side, m.opt);
    StepProjects(c, s, Deliver(at), side, m.opt);
    ReceiveIsLocal(s.At(at).Get(m.opt), m.verb, c.At(at).us(m.opt), c.At(at).him(m.opt));
    if aboutHim {
      ToHimFromSound(Project(s, side, m.opt), c.At(at).him(m.opt));
    } else {
      ToUsFromSound(Project(s, side, m.opt), c.At(at).us(m.opt));
    }
  }

  lemma {:induction false} DeliveriesKeep(c: Config, s: System, more: seq<Step>, side: Side, o: byte)
    requires Legal(c, s, more) && OnlyDeliveries(more)
    requires Settling(s, side, o)
    ensures Sound(Project(s, side, o)) ==> Sound(Project(Run(c, s, more), side, o))
    ensures Lost(Project(s, side, o)) ==> Lost(Project(Run(c, s, more), side, o))
    decreases |more|
  {
    if more != [] {
      StepKeeps(c, s, more[0], side, o);
      DeliveriesKeep(c, Next(c, s, more[0]), more[1..], side, o);
    }
  }

  /** Whatever calls were made before, once they stop the outcome is decided: every order of
      deliveries that empties the channels ends in agreement, or every one ends apart. */
  lemma OutcomeIsDecided(c: Config, steps: seq<Step>, more: seq<Step>, side: Side, o: byte)
    requires Legal(c, Start, steps)
    requires Legal(c, Run(c, Start, steps), more) && OnlyDeliveries(more)
    requires Quiet(Run(c, Run(c, Start, steps), more))
    ensures Agree(Project(Run(c, Run(c, Start, steps), more), side, o)) <==>
            Sound(Project(Run(c, Start, steps), side, o))
  {
    var s := Run(c, Start, steps);
    RunKeepsSettling(c, Start, steps, side, o);
    DeliveriesKeep(c, s, more, side, o);
  }

  /** Exactly when asking for an option with DO is safe: after a disciplined run, the call followed by
      deliveries until nothing is in flight ends in agreement if and only if no DONT was outstanding. */
  lemma DoIsSafeExactlyWithoutOutstandingDont(c: Config, steps: seq<Step>, at: Side, o: byte, more: seq<Step>)
    requires Legal(c, Start, steps) && Disciplined(c, Start, steps)
    requires
      var s' := Next(c, Run(c, Start, steps), Call(at, Do, o));
      Legal(c, s', more) && OnlyDeliveries(more) && Quiet(Run(c, s', more))
    ensures
      var s := Run(c, Start, steps);
      Agree(Project(Run(c, Next(c, s, Call(at, Do, o)), more), at.Other(), o)) <==> s.At(at).Get(o).him != WantNo
  {
    var s := Run(c, Start, steps);
    DisciplinedRunIsSound(c, Start, steps, at.Other(), o);
    StepKeeps(c, s, Call(at, Do, o), at.Other(), o);
    DeliveriesKeep(c, Next(c, s, Call(at, Do, o)), more, at.Other(), o);
  }

  // ---------- no negotiation loop ----------

  function RankBelow(s: System, n: nat): nat
    requires n <= 256
  {
    if n == 0 then 0
    else RankBelow(s, n - 1) + Rank(Project(s, Left, n - 1)) + Rank(Project(s, Right, n - 1))
  }

  /** A bound on the number of deliveries still to come. */
  function TotalRank(s: System): nat { RankBelow(s, 256) }

  lemma {:induction false} RankBelowDrops(s: System, s': System, n: nat, side: Side, o: byte)
    requires n <= 256
    requires forall sd, p: byte :: Rank(Project(s', sd, p)) <= Rank(Project(s, sd, p))
    requires Rank(Project(s', side, o)) < Rank(Project(s, side, o))
    ensures RankBelow(s', n) <= RankBelow(s, n) - if o < n then 1 else 0
  {
    if n > 0 {
      RankBelowDrops(s, s', n - 1, side, o);
      assert Rank(Project(s', Left, n - 1)) <= Rank(Project(s, Left, n - 1));
      assert Rank(Project(s', Right, n - 1)) <= Rank(Project(s, Right, n - 1));
    }
  }

  lemma DeliveryLowersRank(c: Config, s: System, at: Side)
    requires forall sd, p: byte :: Settling(s, sd, p)
    requires s.At(at).inbox != []
    ensures TotalRank(Next(c, s, Deliver(at))) < TotalRank(s)
  {
    var s' := Next(c, s, Deliver(at));
    forall sd, p: byte
      ensures Rank(Project(s', sd, p)) <= Rank(Project(s, sd, p))
    {
      StepKeeps(c, s, Deliver(at), sd, p);
    }
    var m := s.At(at).inbox[0];
    var side := if m.verb == Will || m.verb == Wont then at.Other() else at;
    StepProjects(c, s, Deliver(at), side, m.opt);
    assert Settling(s, side, m.opt);
    HalfStepKeeps(Project(s, side, m.opt), ProjectStep(c, s, Deliver(at), side, m.opt));
    RankBelowDrops(s, s', 256, side, m.opt);
  }

  lemma {:induction false} DeliveriesAreBounded(c: Config, s: System, more: seq<Step>)
    requires forall sd, p: byte :: Settling(s, sd, p)
    requires Legal(c, s, more) && OnlyDeliveries(more)
    ensures |more| <= TotalRank(s) - TotalRank(Run(c, s, more))
    decreases |more|
  {
    if more != [] {
      var s' := Next(c, s, more[0]);
      forall sd, p: byte
        ensures Settling(s', sd, p)
      {
        StepKeeps(c, s, more[0], sd, p);
      }
      DeliveryLowersRank(c, s, more[0].side);
      DeliveriesAreBounded(c, s', more[1..]);
    }
  }

  /** After any run whatever, deliveries alone cannot go on forever. */
  lemma NoNegotiationLoop(c: Config, steps: seq<Step>, more: seq<Step>)
    requires Legal(c, Start, steps)
    requires Legal(c, Run(c, Start, steps), more) && OnlyDeliveries(more)
    ensures |more| <= TotalRank(Run(c, Start, steps))
  {
    forall sd, p: byte
      ensures Settling(Run(c, Start, steps), sd, p)
    {
      RunKeepsSettling(c, Start, steps, sd, p);
    }
    DeliveriesAreBounded(c, Run(c, Start, steps), more);
  }

  /** Delivering until nothing is in flight. */
  lemma {:induction false} Drain(c: Config, s: System) returns (more: seq<Step>)
    requires forall sd, p: byte :: Settling(s, sd, p)
    ensures Legal(c, s, more) && OnlyDeliveries(more) && Quiet(Run(c, s, more))
    decreases TotalRank(s)
  {
    if Quiet(s) {
      more := [];
    } else {
      var at := if s.left.inbox != [] then Left else Right;
      var s' := Next(c, s, Deliver(at));
      forall sd, p: byte
        ensures Settling(s', sd, p)
      {
        StepKeeps(c, s, Deliver(at), sd, p);
      }
      DeliveryLowersRank(c, s, at);
      var rest := Drain(c, s');
      more := [Deliver(at)] + rest;
    }
  }

  /** So after any disciplined run the two ends can always be brought to agree, on every option at once. */
  lemma SettlesInAgreement(c: Config, steps: seq<Step>) returns (more: seq<Step>)
    requires Legal(c, Start, steps) && Disciplined(c, Start, steps)
    ensures Legal(c, Run(c, Start, steps), more) && OnlyDeliveries(more)
    ensures
      var s := Run(c, Run(c, Start, steps), more);
      Quiet(s) && forall side, o: byte :: Agree(Project(s, side, o))
  {
    var s := Run(c, Start, steps);
    forall sd, p: byte
      ensures Settling(s, sd, p)
    {
      RunKeepsSettling(c, Start, steps, sd, p);
    }
    more := Drain(c, s);
    forall side, o: byte
      ensures Agree(Project(Run(c, s, more), side, o))
    {
      DisciplinedRunIsSound(c, Start, steps, side, o);
      DeliveriesKeep(c, s, more, side, o);
    }
  }

  // ---------- the undisciplined case ----------

  lemma {:induction false} RunOneMore(c: Config, s: System, steps: seq<Step>, last: Step)
    requires Legal(c, s, steps) && Enabled(Run(c, s, steps), last)
    ensures Legal(c, s, steps + [last])
    ensures Run(c, s, steps + [last]) == Next(c, Run(c, s, steps), last)
    ensures Disciplined(c, s, steps) && !QueuesDoBehindDont(Run(c, s, steps), last) ==> Disciplined(c, s, steps + [last])
    decreases |steps|
  {
    if steps == [] {
      assert steps + [last] == [last];
    } else {
      assert (steps + [last])[1..] == steps[1..] + [last];
      RunOneMore(c, Next(c, s, steps[0]), steps[1..], last);
    }
  }

  /** A run given step by step together with the states it passes through. */
  predicate Trace(c: Config, states: seq<System>, steps: seq<Step>) {
    && |states| == |steps| + 1
    && forall i :: 0 <= i < |steps| ==> Enabled(states[i], steps[i]) && states[i + 1] == Next(c, states[i], steps[i])
  }

  lemma {:induction false} TraceIsRun(c: Config, states: seq<System>, steps: seq<Step>)
    requires Trace(c, states, steps)
    ensures Legal(c, states[0], steps) && Run(c, states[0], steps) == states[|steps|]
    decreases |steps|
  {
    if steps != [] {
      assert states[0 + 1] == Next(c, states[0], steps[0]);
      TraceIsRun(c, states[1..], steps[1..]);
    }
  }

  /** An option is turned on, then off and on again before the answer arrives. */
  function HastySteps(o: byte): seq<Step> {
    [Call(Right, Do, o), Deliver(Left), Deliver(Right), Call(Right, Dont, o),
     Call(Right, Do, o), Deliver(Left), Deliver(Right)]
  }

  function HastyState(o: byte, i: nat): System {
    var none, off, on := map[], map[o := Pair(No, No)], map[o := Pair(Yes, No)];
    if i == 0 then Start
    else if i == 1 then System(End(none, [Msg(Do, o)]), End(map[o := Pair(No, WantYes)], []))
    else if i == 2 then System(End(on, []), End(map[o := Pair(No, WantYes)], [Msg(Will, o)]))
    else if i == 3 then System(End(on, []), End(map[o := Pair(No, Yes)], []))
    else if i == 4 then System(End(on, [Msg(Dont, o)]), End(map[o := Pair(No, WantNo)], []))
    else if i == 5 then System(End(on, [Msg(Dont, o)]), End(map[o := Pair(No, WantNoOp)], []))
    else if i == 6 then System(End(off, []), End(map[o := Pair(No, WantNoOp)], [Msg(Wont, o)]))
    else System(End(off, []), End(map[o := Pair(No, WantYes)], []))
  }

  lemma HastyStep(c: Config, o: byte, i: nat)
    requires c.left.us(o) && i < 7
    ensures Enabled(HastyState(o, i), HastySteps(o)[i])
    ensures Next(c, HastyState(o, i), HastySteps(o)[i]) == HastyState(o, i + 1)
  {
    var s, s' := Next(c, HastyState(o, i), HastySteps(o)[i]), HastyState(o, i + 1);
    assert s.left.options == s'.left.options && s.left.inbox == s'.left.inbox;
    assert s.right.options == s'.right.options && s.right.inbox == s'.right.inbox;
  }

  /** Why the discipline is needed: such a run leaves the ends apart with nothing in flight. */
  lemma DoBehindDontSettlesApart(c: Config, o: byte)
    requires c.left.us(o)
    ensures Legal(c, Start, HastySteps(o))
    ensures
      var s := Run(c, Start, HastySteps(o));
      Quiet(s) && s.left.Get(o).us == No && s.right.Get(o).him == WantYes
  {
    var states := seq(8, i requires 0 <= i < 8 => HastyState(o, i));
    forall i | 0 <= i < 7
      ensures Enabled(states[i], HastySteps(o)[i]) && states[i + 1] == Next(c, states[i], HastySteps(o)[i])
    {
      HastyStep(c, o, i);
    }
    TraceIsRun(c, states, HastySteps(o));
  }
}
