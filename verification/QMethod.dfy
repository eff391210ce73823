/**
 * The option negotiator of libtelnet: the "Q method" of RFC 1143 for one
 * option, as coded in _negotiate and telnet_negotiate.
 */
module QMethod {
  datatype Q = No | Yes | WantNo | WantYes | WantNoOp | WantYesOp

  /** The four negotiation commands. */
  datatype Verb = Will | Wont | Do | Dont

  /** The state of one option at one endpoint. */
  datatype Pair = Pair(us: Q, him: Q)

  /** What the reception of one command makes an endpoint do, in this order:
      store `pair`, send `send`, raise the negotiation events `events`, and,
      when `protocolError`, the "... answered by ..." warning. */
  datatype Reaction = Reaction(pair: Pair, send: seq<Verb>, events: seq<Verb>, protocolError: bool)

  const Off := Pair(No, No)

  /** WILL or WONT received: acts on `him`. */
  function ReceiveWill(p: Pair, supported: bool): Reaction {
    match p.him
    case No =>
      if supported then Reaction(p.(him := Yes), [Do], [Will], false)
      else Reaction(p, [Dont], [], false)
    case Yes => Reaction(p, [], [], false)
    case WantNo => Reaction(p.(him := No), [], [Wont], true)
    case WantNoOp => Reaction(p.(him := Yes), [], [Will], true)
    case WantYes => Reaction(p.(him := Yes), [], [Will], false)
    case WantYesOp => Reaction(p.(him := WantNo), [Dont], [Will], false)
  }

  function ReceiveWont(p: Pair): Reaction {
    match p.him
    case No => Reaction(p, [], [], false)
    case Yes => Reaction(p.(him := No), [Dont], [Wont], false)
    case WantNo => Reaction(p.(him := No), [], [Wont], false)
    // unlike its mirror in ReceiveDont, this branch sends nothing
    case WantNoOp => Reaction(p.(him := WantYes), [], [Do], false)
    case WantYes => Reaction(p.(him := No), [], [], false)
    case WantYesOp => Reaction(p.(him := No), [], [], false)
  }

  /** DO or DONT received: acts on `us`. */
  function ReceiveDo(p: Pair, supported: bool): Reaction {
    match p.us
    case No =>
      if supported then Reaction(p.(us := Yes), [Will], [Do], false)
      else Reaction(p, [Wont], [], false)
    case Yes => Reaction(p, [], [], false)
    case WantNo => Reaction(p.(us := No), [], [Dont], true)
    case WantNoOp => Reaction(p.(us := Yes), [], [Do], true)
    case WantYes => Reaction(p.(us := Yes), [], [Do], false)
    case WantYesOp => Reaction(p.(us := WantNo), [Wont], [Do], false)
  }

  function ReceiveDont(p: Pair): Reaction {
    match p.us
    case No => Reaction(p, [], [], false)
    case Yes => Reaction(p.(us := No), [Wont], [Dont], false)
    case WantNo => Reaction(p.(us := No), [], [Wont], false)
    case WantNoOp => Reaction(p.(us := WantYes), [Will], [Will], false)
    case WantYes => Reaction(p.(us := No), [], [], false)
    case WantYesOp => Reaction(p.(us := No), [], [], false)
  }

  /** _negotiate outside proxy mode. */
  function Receive(p: Pair, v: Verb, supportUs: bool, supportHim: bool): Reaction {
    match v
    case Will => ReceiveWill(p, supportHim)
    case Wont => ReceiveWont(p)
    case Do => ReceiveDo(p, supportUs)
    case Dont => ReceiveDont(p)
  }

  /** A local wish to turn one side of an option on or off: the next state,
      and whether the corresponding command is sent now. */
  function Wish(q: Q, on: bool): (Q, bool) {
    if on then
      match q
      case No => (WantYes, true)
      case WantNo => (WantNoOp, false)
      case WantYesOp => (WantYes, false)
      case _ => (q, false)
    else
      match q
      case Yes => (WantNo, true)
      case WantYes => (WantYesOp, false)
      case WantNoOp => (WantNo, false)
      case _ => (q, false)
  }

  /** telnet_negotiate outside proxy mode: the next state and what is sent. */
  function Request(p: Pair, v: Verb): (Pair, seq<Verb>) {
    var on := v == Will || v == Do;
    if v == Will || v == Wont then
      var (q, now) := Wish(p.us, on);
      (p.(us := q), if now then [v] else [])
    else
      var (q, now) := Wish(p.him, on);
      (p.(him := q), if now then [v] else [])
  }
}
