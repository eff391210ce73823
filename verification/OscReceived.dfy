/**
 * oscpack's receiving side: a packet is validated once, then walked with
 * unchecked iterators and handed to a listener.
 */
module OscReceived {
  import opened Bytes
  import opened OscFormat

  datatype Why =
    | ZeroLength | SizeNotMultipleOfFour | UnterminatedAddress | NoTypeTags | UnterminatedTypeTags
    | ArgumentsExceedMessage | UnterminatedString | UnknownTypeTag
    | BundleTooShort | BadBundleHead | BadElementSize | ElementExceedsBundle
    | NeverEnds  // not an exception: the loop over the elements does not advance

  /** The word that a read at an offset outside the message would find. */
  type Memory = nat -> uint32

  function WordAt(m: bytes, memory: Memory, p: nat): uint32 {
    if p + 4 <= |m| then FromBE4(m[p..p + 4]) else memory(p)
  }

  // ---------- strings ----------

  /** Looking at every fourth byte from k for a NUL. */
  function Scan(m: bytes, k: nat): (r: Option<nat>)
    ensures r.Some? ==> k < r.value <= |m| && m[r.value - 1] == 0 && (r.value - 1 - k) % 4 == 0
    decreases |m| - k
  {
    if k >= |m| then None else if m[k] == 0 then Some(k + 1) else Scan(m, k + 4)
  }

  /** The first 4-byte boundary after the string at p. */
  function Str4End(m: bytes, p: nat): Option<nat> {
    if p >= |m| then None else if m[p] == 0 then Some(p + 4) else Scan(m, p + 3)
  }

  /** A place where the string at p can end: a NUL, a multiple of four behind p, less one. */
  predicate EndsAt(m: bytes, p: nat, e: nat) { p < e <= |m| && (e - p) % 4 == 0 && m[e - 1] == 0 }

  lemma {:induction false} ScanIsFirst(m: bytes, p: nat)
    ensures Scan(m, p + 3).Some? ==> EndsAt(m, p, Scan(m, p + 3).value)
    ensures forall e: nat :: EndsAt(m, p, e) ==> Scan(m, p + 3).Some? && Scan(m, p + 3).value <= e
    decreases |m| - p
  {
    if p + 3 < |m| && m[p + 3] != 0 {
      ScanIsFirst(m, p + 4);
      forall e: nat | EndsAt(m, p, e)
        ensures EndsAt(m, p + 4, e)
      {
        assert e != p + 4;
      }
    }
  }

  /** The string at p ends at the first such place, except that a leading NUL alone makes four bytes,
      whatever the other three are. */
  lemma Str4EndIsFirst(m: bytes, p: nat)
    requires p < |m|
    ensures m[p] == 0 ==> Str4End(m, p) == Some(p + 4)
    ensures m[p] != 0 ==>
              match Str4End(m, p)
              case None => forall e: nat :: !EndsAt(m, p, e)
              case Some(e) => EndsAt(m, p, e) && forall e': nat :: EndsAt(m, p, e') ==> e <= e'
  {
    ScanIsFirst(m, p);
  }

  /** FindStr4End with an end. */
  method FindStr4End(m: bytes, p: nat) returns (r: Option<nat>)
    requires Aligned(|m|) && Aligned(p)
    ensures r == Str4End(m, p)
  {
    if p >= |m| {
      return None;
    }
    if m[p] == 0 {
      return Some(p + 4);
    }
    var k, last := p + 3, |m| - 1;
    ghost var n := (|m| - p) / 4 - 1;
    while k < last && m[k] != 0
      invariant p + 3 <= k <= last == k + 4 * n
      invariant Scan(m, k) == Scan(m, p + 3)
    {
      k := k + 4;
      n := n - 1;
    }
    r := if m[k] != 0 then None else Some(k + 1);
  }

  /** FindStr4End without an end: only for strings already known to be terminated. */
  method FindStr4EndUnchecked(m: bytes, p: nat) returns (r: nat)
    requires Str4End(m, p).Some?
    ensures r == Str4End(m, p).value
  {
    if m[p] == 0 {
      return p + 4;
    }
    var k := p + 3;
    while m[k] != 0
      invariant k < |m| && Scan(m, k) == Scan(m, p + 3)
      decreases |m| - k
    {
      k := k + 4;
    }
    r := k + 1;
  }

  // ---------- one argument ----------

  predicate ZeroTag(t: byte) { t == 'T' as int || t == 'F' as int || t == 'N' as int || t == 'I' as int }
  predicate FourTag(t: byte) {
    t == 'i' as int || t == 'f' as int || t == 'c' as int || t == 'r' as int || t == 'm' as int
  }
  predicate EightTag(t: byte) { t == 'h' as int || t == 't' as int || t == 'd' as int }
  predicate StringTag(t: byte) { t == 's' as int || t == 'S' as int }
  const BLOB_TAG: byte := 'b' as int

  datatype Next = At(pos: nat) | Bad(why: Why)

  /** Where the argument at `pos` ends according to the checks of Init. The bounds of blobs are
      computed but never enforced. A length word outside the message may be anything; it counts as 0
      here, and no verdict depends on that. */
  function Checked(m: bytes, t: byte, pos: nat): Next {
    if ZeroTag(t) then At(pos)
    else if FourTag(t) then if pos + 4 > |m| then Bad(ArgumentsExceedMessage) else At(pos + 4)
    else if EightTag(t) then if pos + 8 > |m| then Bad(ArgumentsExceedMessage) else At(pos + 8)
    else if StringTag(t) then
      if pos == |m| then Bad(ArgumentsExceedMessage)
      else if Str4End(m, pos).None? then Bad(UnterminatedString)
      else At(Str4End(m, pos).value)
    else if t == BLOB_TAG then
      if pos + 4 > |m| then At(pos + 4)
      else At(pos + 4 + RoundUp4Received(FromBE4(m[pos..pos + 4])))
    else Bad(UnknownTypeTag)
  }

  /** Two offsets that a message of size n does not tell apart. */
  predicate SamePlace(n: nat, a: nat, b: nat) { a == b || (a > n && b > n) }

  predicate SameNext(n: nat, a: Next, b: Next) {
    match (a, b)
    case (At(p), At(q)) => SamePlace(n, p, q)
    case (Bad(v), Bad(w)) => v == w
    case _ => false
  }

  /** The same loop body as the code has it, wherever it has got to in the memory behind the message. */
  method CheckArgument(m: bytes, memory: Memory, t: byte, pos: nat, ghost place: nat) returns (r: Next)
    requires Aligned(|m|) && Aligned(pos) && SamePlace(|m|, pos, place)
    ensures SameNext(|m|, r, Checked(m, t, place))
    ensures r.At? ==> Aligned(r.pos)
  {
    hide Scan, FromBE4;
    if ZeroTag(t) {
      return At(pos);
    } else if FourTag(t) || EightTag(t) {
      var size := if FourTag(t) then 4 else 8;
      if pos == |m| || pos + size > |m| {
        return Bad(ArgumentsExceedMessage);
      }
      return At(pos + size);
    } else if StringTag(t) {
      if pos == |m| {
        return Bad(ArgumentsExceedMessage);
      }
      var e := FindStr4End(m, pos);
      if e.None? {
        return Bad(UnterminatedString);
      }
      Str4EndIsAligned(m, pos);
      return At(e.value);
    } else if t == BLOB_TAG {
      var size := WordAt(m, memory, pos);
      AlignedSum(4, RoundUp4Received(size));
      AlignedSum(pos, 4 + RoundUp4Received(size));
      return At(pos + 4 + RoundUp4Received(size));
    }
    r := Bad(UnknownTypeTag);
  }

  lemma Str4EndIsAligned(m: bytes, p: nat)
    requires Aligned(|m|) && Aligned(p) && Str4End(m, p).Some?
    ensures Aligned(Str4End(m, p).value) && p + 4 <= Str4End(m, p).value <= |m|
  {
  }

  lemma CheckedStaysAligned(m: bytes, t: byte, pos: nat)
    requires Aligned(|m|) && Aligned(pos) && Checked(m, t, pos).At?
    ensures Aligned(Checked(m, t, pos).pos) && pos <= Checked(m, t, pos).pos
    ensures t != BLOB_TAG && pos <= |m| ==> Checked(m, t, pos).pos <= |m|
  {
    hide Str4End, FromBE4;
    if StringTag(t) {
      Str4EndIsAligned(m, pos);
    } else if t == BLOB_TAG {
      var n := Checked(m, t, pos).pos - pos - 4;
      AlignedSum(pos, 4 + n);
      AlignedSum(4, n);
    }
  }

  // ---------- validating a message ----------

  /** What Init leaves in a ReceivedMessage: no arguments, or the tags begin..end and where the arguments start. */
  datatype View = NoArguments | Tagged(begin: nat, end: nat, arguments: nat)

  datatype Validation = Accepted(view: View) | Malformed(why: Why)

  /** The argument positions found by walking the tags from t: one per tag, and the end of the last. */
  datatype Positions = Walked(end: nat, starts: seq<nat>) | Stuck(why: Why)

  function WalkTags(m: bytes, t: nat, pos: nat): (r: Positions)
    requires t < |m|
    ensures r.Walked? ==> t <= r.end < |m| && |r.starts| == r.end - t + 1 && r.starts[0] == pos
    decreases |m| - t
  {
    if m[t] == 0 then Walked(t, [pos])
    else
      match Checked(m, m[t], pos)
      case Bad(why) => Stuck(why)
      case At(next) =>
        if t + 1 == |m| then Stuck(UnterminatedTypeTags)
        else
          match WalkTags(m, t + 1, next)
          case Stuck(why) => Stuck(why)
          case Walked(end, starts) => Walked(end, [pos] + starts)
  }

  /** ReceivedMessage::Init */
  function Validate(m: bytes): Validation {
    if |m| == 0 then Malformed(ZeroLength)
    else if |m| % 4 != 0 then Malformed(SizeNotMultipleOfFour)
    else if Str4End(m, 0).None? then Malformed(UnterminatedAddress)
    else
      var t := Str4End(m, 0).value;
      if t >= |m| then Accepted(NoArguments)
      else if m[t] != COMMA then Malformed(NoTypeTags)
      else if t + 1 == |m| || m[t + 1] == 0 then Accepted(NoArguments)
      else if Str4End(m, t).None? then Malformed(UnterminatedTypeTags)
      else
        match WalkTags(m, t + 1, Str4End(m, t).value)
        case Stuck(why) => Malformed(why)
        case Walked(end, _) => Accepted(Tagged(t + 1, end, Str4End(m, t).value))
  }

  /** A terminated tag string holds a NUL before its end, so the walk over tags stays inside it. */
  lemma TagsAreTerminated(m: bytes, p: nat)
    requires Aligned(|m|) && Aligned(p) && Str4End(m, p).Some?
    ensures p < Str4End(m, p).value <= |m|
    ensures m[p] != 0 ==> m[Str4End(m, p).value - 1] == 0
  {
  }

  /** The validating loop; what lies behind the message does not matter. */
  method ValidateMessage(m: bytes, memory: Memory) returns (r: Validation)
    ensures r == Validate(m)
  {
    if |m| == 0 {
      return Malformed(ZeroLength);
    }
    if |m| % 4 != 0 {
      return Malformed(SizeNotMultipleOfFour);
    }
    var e := FindStr4End(m, 0);
    if e.None? {
      return Malformed(UnterminatedAddress);
    }
    var begin := e.value;
    Str4EndIsAligned(m, 0);
    if begin == |m| {
      return Accepted(NoArguments);
    }
    if m[begin] != COMMA {
      return Malformed(NoTypeTags);
    }
    assert begin + 1 < |m|;
    if m[begin + 1] == 0 {
      return Accepted(NoArguments);
    }
    var a := FindStr4End(m, begin);
    if a.None? {
      return Malformed(UnterminatedTypeTags);
    }
    Str4EndIsAligned(m, begin);
    TagsAreTerminated(m, begin);
    r := ValidateArguments(m, memory, begin + 1, a.value);
  }

  /** The do-while loop over the type tags. */
  method ValidateArguments(m: bytes, memory: Memory, begin: nat, arguments: nat) returns (r: Validation)
    requires Aligned(|m|) && Aligned(arguments) && begin < arguments <= |m|
    requires m[begin] != 0 && m[arguments - 1] == 0
    ensures r == match WalkTags(m, begin, arguments)
                 case Stuck(why) => Malformed(why)
                 case Walked(end, _) => Accepted(Tagged(begin, end, arguments))
  {
    var t, pos := begin, arguments;
    ghost var place := pos;
    hide Checked;
    while true
      invariant begin <= t < arguments - 1 && m[t] != 0 && Aligned(pos) && SamePlace(|m|, pos, place)
      invariant
        match (WalkTags(m, begin, arguments), WalkTags(m, t, place))
        case (Walked(e0, _), Walked(e1, _)) => e0 == e1
        case (Stuck(w0), Stuck(w1)) => w0 == w1
        case _ => false
      decreases arguments - t
    {
      var next := CheckArgument(m, memory, m[t], pos, place);
      if next.Bad? {
        return Malformed(next.why);
      }
      place := Checked(m, m[t], place).pos;
      pos := next.pos;
      t := t + 1;
      if m[t] == 0 {
        break;
      }
    }
    r := Accepted(Tagged(begin, t, arguments));
  }

  predicate KnownTag(t: byte) { ZeroTag(t) || FourTag(t) || EightTag(t) || StringTag(t) || t == BLOB_TAG }

  lemma {:induction false} WalkedTagsAreKnown(m: bytes, t: nat, pos: nat)
    requires t < |m| && WalkTags(m, t, pos).Walked?
    ensures forall k :: t <= k < WalkTags(m, t, pos).end ==> m[k] != 0 && KnownTag(m[k])
    ensures m[WalkTags(m, t, pos).end] == 0
    decreases |m| - t
  {
    if m[t] != 0 {
      WalkedTagsAreKnown(m, t + 1, Checked(m, m[t], pos).pos);
      hide Checked;
    }
  }

  /** What Init lets through: aligned bytes that begin with a terminated address, then nothing, or a comma
      and known tags in a terminated string; the first argument starts behind it. */
  lemma AcceptedIsWellFormed(m: bytes)
    requires Validate(m).Accepted?
    ensures |m| > 0 && |m| % 4 == 0 && (m[0] == 0 || exists e: nat :: EndsAt(m, 0, e))
    ensures
      var t := if m[0] == 0 then 4 else Str4End(m, 0).value;
      match Validate(m).view
      case NoArguments => t == |m| || (t + 1 < |m| && m[t] == COMMA && m[t + 1] == 0)
      case Tagged(begin, end, arguments) =>
        && begin == t + 1 && m[t] == COMMA && begin < end < |m| && m[end] == 0 && EndsAt(m, t, arguments)
        && forall k :: begin <= k < end ==> m[k] != 0 && KnownTag(m[k])
  {
    Str4EndIsFirst(m, 0);
    Str4EndIsAligned(m, 0);
    var t := Str4End(m, 0).value;
    if Validate(m).view.Tagged? {
      Str4EndIsFirst(m, t);
      WalkedTagsAreKnown(m, t + 1, Str4End(m, t).value);
    }
    hide WalkTags, Str4End, Scan;
  }

  // ---------- the unchecked walk ----------

  /** Where an unchecked step leads: where the checks say, or as far as a length word outside the
      message says. */
  function Moved(m: bytes, memory: Memory, t: byte, pos: nat): nat
    requires Checked(m, t, pos).At?
  {
    if t == BLOB_TAG && pos + 4 > |m| then pos + 4 + RoundUp4Received(memory(pos)) else Checked(m, t, pos).pos
  }

  /** From the same place a step leads to the same place, whatever lies behind the message. */
  lemma StepsToSamePlace(m: bytes, memory: Memory, t: byte, a: nat, b: nat)
    requires SamePlace(|m|, a, b) && Checked(m, t, b).At? && Aligned(|m|) && Aligned(a)
    ensures Checked(m, t, a).At? && SamePlace(|m|, Moved(m, memory, t, a), Checked(m, t, b).pos)
    ensures Aligned(Moved(m, memory, t, a))
  {
    hide Scan, FromBE4;
    CheckedStaysAligned(m, t, a);
    if t == BLOB_TAG {
      var n := Moved(m, memory, t, a) - a - 4;
      AlignedSum(4, n);
      AlignedSum(a, 4 + n);
    }
  }

  /** ReceivedMessageArgumentIterator */
  class ArgumentIterator {
    const m: bytes
    const memory: Memory
    var typeTag: nat
    var argument: nat

    constructor (m: bytes, memory: Memory, typeTag: nat, argument: nat)
      ensures this.m == m && this.memory == memory && this.typeTag == typeTag && this.argument == argument
    {
      this.m, this.memory, this.typeTag, this.argument := m, memory, typeTag, argument;
    }

    /** Advance: no bounds are checked here, so the argument must have been validated. */
    method Advance()
      requires typeTag < |m|
      requires m[typeTag] != 0 ==> Checked(m, m[typeTag], argument).At?
      modifies this
      ensures if m[old(typeTag)] == 0 then typeTag == old(typeTag) && argument == old(argument)
              else typeTag == old(typeTag) + 1 && argument == Moved(m, memory, m[old(typeTag)], old(argument))
    {
      var t := m[typeTag];
      if t == 0 {
        return;
      }
      typeTag := typeTag + 1;
      if FourTag(t) {
        argument := argument + 4;
      } else if EightTag(t) {
        argument := argument + 8;
      } else if StringTag(t) {
        argument := FindStr4EndUnchecked(m, argument);
      } else if t == BLOB_TAG {
        argument := argument + 4 + RoundUp4Received(WordAt(m, memory, argument));
      }
    }
  }

  /** What a completed validation knows about argument k. */
  lemma {:induction false} WalkKnows(m: bytes, t: nat, pos: nat, k: nat)
    requires t < |m| && WalkTags(m, t, pos).Walked?
    requires k <= WalkTags(m, t, pos).end - t
    ensures
      var w := WalkTags(m, t, pos);
      && t + k < |m|
      && (k == w.end - t ==> m[t + k] == 0)
      && (k < w.end - t ==> m[t + k] != 0 && Checked(m, m[t + k], w.starts[k]) == At(w.starts[k + 1]))
    decreases k
  {
    hide Checked;
    if k > 0 {
      WalkKnows(m, t + 1, Checked(m, m[t], pos).pos, k - 1);
    }
  }

  function ArgumentCount(v: View): nat
    requires v.Tagged? ==> v.begin <= v.end
  {
    if v.NoArguments? then 0 else v.end - v.begin
  }

  predicate ValidView(m: bytes, v: View) {
    v.Tagged? ==>
      && v.begin < |m|
      && WalkTags(m, v.begin, v.arguments).Walked? && WalkTags(m, v.begin, v.arguments).end == v.end
  }

  lemma AcceptedViewIsValid(m: bytes)
    requires Validate(m).Accepted?
    ensures ValidView(m, Validate(m).view)
    ensures Validate(m).view.Tagged? ==> Aligned(|m|) && Aligned(Validate(m).view.arguments) && Validate(m).view.arguments <= |m|
  {
    hide WalkTags;
    Str4EndIsAligned(m, 0);
    if Validate(m).view.Tagged? {
      Str4EndIsAligned(m, Str4End(m, 0).value);
    }
  }

  /** The positions Init computed. */
  function Starts(m: bytes, v: View): seq<nat>
    requires ValidView(m, v)
  {
    if v.NoArguments? then [] else WalkTags(m, v.begin, v.arguments).starts
  }

  /** Iterating from ArgumentsBegin to ArgumentsEnd: exactly ArgumentCount positions, each where
      Init found it, or as far outside the message as the memory behind it leads. */
  method VisitArguments(m: bytes, memory: Memory, v: View) returns (visited: seq<(nat, nat)>)
    requires Validate(m) == Accepted(v)
    ensures ValidView(m, v) && |visited| == ArgumentCount(v)
    ensures forall k :: 0 <= k < |visited| ==>
              visited[k].0 == v.begin + k && SamePlace(|m|, visited[k].1, Starts(m, v)[k])
  {
    hide Validate, WalkTags, Checked, Aligned, FromBE4, Scan, Str4End;
    AcceptedViewIsValid(m);
    visited := [];
    if v.NoArguments? {
      return;
    }
    var i := new ArgumentIterator(m, memory, v.begin, v.arguments);
    ghost var w := WalkTags(m, v.begin, v.arguments);
    while i.typeTag != v.end
      invariant |visited| <= v.end - v.begin
      invariant i.typeTag == v.begin + |visited| && SamePlace(|m|, i.argument, w.starts[|visited|])
      invariant Aligned(i.argument)
      invariant forall k :: 0 <= k < |visited| ==>
                  visited[k].0 == v.begin + k && SamePlace(|m|, visited[k].1, w.starts[k])
      decreases v.end - i.typeTag
    {
      var t, pos := i.typeTag, i.argument;
      WalkKnows(m, v.begin, v.arguments, |visited|);
      StepsToSamePlace(m, memory, m[t], pos, w.starts[|visited|]);
      visited := visited + [(t, pos)];
      i.Advance();
    }
  }

  /** The announced length of every blob stays within the message. */
  predicate BlobsFit(m: bytes, t: nat, pos: nat)
    requires t < |m|
    decreases |m| - t
  {
    m[t] != 0 ==>
      match Checked(m, m[t], pos)
      case Bad(_) => false
      case At(next) => (m[t] == BLOB_TAG ==> next <= |m|) && t + 1 < |m| && BlobsFit(m, t + 1, next)
  }

  predicate AllWithin(starts: seq<nat>, n: nat) {
    forall k :: 0 <= k < |starts| ==> starts[k] <= n
  }

  lemma AllWithinUnfolds(pos: nat, starts: seq<nat>, n: nat)
    ensures AllWithin([pos] + starts, n) <==> pos <= n && AllWithin(starts, n)
  {
    var all := [pos] + starts;
    assert all[0] == pos;
    if AllWithin(all, n) {
      forall k | 0 <= k < |starts|
        ensures starts[k] <= n
      {
        assert all[k + 1] == starts[k];
      }
    }
  }

  /** The walk over the tags can be made, and stays inside the message, exactly when every length word
      and every blob lies inside. */
  lemma {:induction false} WalkStaysInsideExactlyIfBlobsFit(m: bytes, t: nat, pos: nat)
    requires t < |m| && Aligned(|m|) && Aligned(pos) && pos <= |m|
    ensures
      var w := WalkTags(m, t, pos);
      w.Walked? && AllWithin(w.starts, |m|) <==> BlobsFit(m, t, pos)
    decreases |m| - t
  {
    if m[t] != 0 && Checked(m, m[t], pos).At? && t + 1 < |m| {
      hide Checked, Aligned, AllWithin;
      var next := Checked(m, m[t], pos).pos;
      CheckedStaysAligned(m, m[t], pos);
      var rest := WalkTags(m, t + 1, next);
      if rest.Walked? {
        AllWithinUnfolds(pos, rest.starts, |m|);
      }
      if next <= |m| {
        WalkStaysInsideExactlyIfBlobsFit(m, t + 1, next);
      } else if rest.Walked? {
        FirstStartCounts(rest.starts, |m|);
      }
    }
  }

  lemma FirstStartCounts(starts: seq<nat>, n: nat)
    requires starts != [] && starts[0] > n
    ensures !AllWithin(starts, n)
  {
  }

  /** A message without blob tags is walked entirely inside. */
  lemma {:induction false} NoBlobTagsFit(m: bytes, t: nat, pos: nat)
    requires t < |m| && WalkTags(m, t, pos).Walked?
    requires BLOB_TAG !in m[t..WalkTags(m, t, pos).end]
    ensures BlobsFit(m, t, pos)
    decreases |m| - t
  {
    hide Checked;
    if m[t] != 0 {
      var e := WalkTags(m, t, pos).end;
      assert m[t] == m[t..e][0] && m[t + 1..e] == m[t..e][1..];
      NoBlobTagsFit(m, t + 1, Checked(m, m[t], pos).pos);
    }
  }

  // ---------- reading the arguments ----------

  function CStringAt(m: bytes, p: nat): CString
    requires p <= |m|
    decreases |m| - p
  {
    if p == |m| || m[p] == 0 then [] else [m[p]] + CStringAt(m, p + 1)
  }

  /** The As* accessor that goes with the tag. */
  function ReadArg(m: bytes, t: byte, pos: nat): Arg
    requires Checked(m, t, pos).At? && (t == BLOB_TAG ==> Checked(m, t, pos).pos <= |m|)
  {
    if t == 'T' as int then Bool(true)
    else if t == 'F' as int then Bool(false)
    else if t == 'N' as int then Nil
    else if t == 'I' as int then Infinitum
    else if t == 'i' as int then Int32(Signed32(FromBE4(m[pos..pos + 4])))
    else if t == 'f' as int then Float(FromBE4(m[pos..pos + 4]))
    else if t == 'c' as int then Char(FromBE4(m[pos..pos + 4]) % 256)
    else if t == 'r' as int then RgbaColor(FromBE4(m[pos..pos + 4]))
    else if t == 'm' as int then MidiMessage(FromBE4(m[pos..pos + 4]))
    else if t == 'h' as int then Int64(Signed64(FromBE8(m[pos..pos + 8])))
    else if t == 't' as int then TimeTag(FromBE8(m[pos..pos + 8]))
    else if t == 'd' as int then Double(FromBE8(m[pos..pos + 8]))
    else if t == 's' as int then Str(CStringAt(m, pos))
    else if t == 'S' as int then Symbol(CStringAt(m, pos))
    else Blob(m[pos + 4..pos + 4 + FromBE4(m[pos..pos + 4])])
  }

  /** What the listener gets for one tag: a value, or a blob that reaches outside the message. */
  datatype Reading = Value(arg: Arg) | Overrunning

  predicate Overruns(m: bytes, t: byte, pos: nat)
    requires Checked(m, t, pos).At?
  {
    t == BLOB_TAG && Checked(m, t, pos).pos > |m|
  }

  function Read(m: bytes, t: byte, pos: nat): Reading
    requires Checked(m, t, pos).At?
  {
    if Overruns(m, t, pos) then Overrunning else Value(ReadArg(m, t, pos))
  }

  function ReadArgs(m: bytes, t: nat, pos: nat): (r: seq<Reading>)
    requires t < |m| && WalkTags(m, t, pos).Walked?
    ensures |r| == WalkTags(m, t, pos).end - t
    decreases |m| - t
  {
    if m[t] == 0 then []
    else [Read(m, m[t], pos)] + ReadArgs(m, t + 1, Checked(m, m[t], pos).pos)
  }

  predicate AllValues(rs: seq<Reading>) { Overrunning !in rs }

  /** Every argument has a value if and only if every blob fits. */
  lemma {:induction false} AllValuesExactlyIfBlobsFit(m: bytes, t: nat, pos: nat)
    requires t < |m| && WalkTags(m, t, pos).Walked?
    ensures AllValues(ReadArgs(m, t, pos)) <==> BlobsFit(m, t, pos)
    decreases |m| - t
  {
    hide Checked, ReadArg;
    if m[t] != 0 {
      AllValuesExactlyIfBlobsFit(m, t + 1, Checked(m, m[t], pos).pos);
    }
  }

  /** What is read does not depend on the memory behind the message. */
  lemma ReadAtSamePlace(m: bytes, memory: Memory, t: byte, a: nat, b: nat)
    requires SamePlace(|m|, a, b) && Aligned(|m|) && Aligned(a)
    requires Checked(m, t, a).At? && Checked(m, t, b).At?
    ensures Read(m, t, a) == Read(m, t, b)
    ensures Overruns(m, t, a) <==> t == BLOB_TAG && Moved(m, memory, t, a) > |m|
  {
    hide Scan, FromBE4, CStringAt;
  }

  /** A message as the listener can read it, one reading for each tag. */
  datatype Received = Received(addr: bytes, tags: bytes, args: seq<Reading>)

  datatype Outcome = Outcome(delivered: seq<Received>, error: Option<Why>)

  /** ReceivedMessage's constructor, then the listener's ProcessMessage reading every argument. */
  function ProcessMessage(m: bytes): Outcome {
    match Validate(m)
    case Malformed(why) => Outcome([], Some(why))
    case Accepted(v) =>
      if v.NoArguments? then Outcome([Received(CStringAt(m, 0), [], [])], None)
      else
        AcceptedViewIsValid(m);
        Outcome([Received(CStringAt(m, 0), m[v.begin..v.end], ReadArgs(m, v.begin, v.arguments))], None)
  }

  /** The message path as code: validate, then walk with the unchecked iterator. */
  method RunMessage(m: bytes, memory: Memory) returns (r: Outcome)
    ensures r == ProcessMessage(m)
  {
    hide ReadArgs, CStringAt, WalkTags;
    var val := ValidateMessage(m, memory);
    if val.Malformed? {
      return Outcome([], Some(val.why));
    }
    var v := val.view;
    if v.NoArguments? {
      return Outcome([Received(CStringAt(m, 0), [], [])], None);
    }
    AcceptedViewIsValid(m);
    var args := ReadWithIterator(m, memory, v.begin, v.end, v.arguments);
    r := Outcome([Received(CStringAt(m, 0), m[v.begin..v.end], args)], None);
  }

  lemma NothingRead(m: bytes, t: nat, pos: nat)
    requires t < |m| && WalkTags(m, t, pos).Walked?
    ensures ReadArgs(m, t, pos) == [] + ReadArgs(m, t, pos)
  {
    hide ReadArgs, WalkTags;
  }

  lemma WalkGoesOn(m: bytes, t: nat, pos: nat)
    requires t < |m| && WalkTags(m, t, pos).Walked? && t != WalkTags(m, t, pos).end
    ensures m[t] != 0 && Checked(m, m[t], pos).At? && t + 1 < |m|
    ensures
      var rest := WalkTags(m, t + 1, Checked(m, m[t], pos).pos);
      rest.Walked? && rest.end == WalkTags(m, t, pos).end
  {
    hide Checked;
  }

  lemma ReadArgsStep(m: bytes, t: nat, pos: nat, before: seq<Reading>)
    requires t < |m| && WalkTags(m, t, pos).Walked? && m[t] != 0 && t + 1 < |m|
    ensures Checked(m, m[t], pos).At? && WalkTags(m, t + 1, Checked(m, m[t], pos).pos).Walked?
    ensures before + ReadArgs(m, t, pos) ==
            (before + [Read(m, m[t], pos)]) + ReadArgs(m, t + 1, Checked(m, m[t], pos).pos)
  {
    hide Checked, Read;
  }

  lemma NothingMoreRead(m: bytes, t: nat, pos: nat, before: seq<Reading>)
    requires t < |m| && WalkTags(m, t, pos).Walked? && t == WalkTags(m, t, pos).end
    ensures before + ReadArgs(m, t, pos) == before
  {
    hide Checked, Read;
  }

  /** One reading for each tag; an overrunning blob does not stop the walk. */
  method ReadWithIterator(m: bytes, memory: Memory, begin: nat, end: nat, arguments: nat) returns (args: seq<Reading>)
    requires begin < |m| && Aligned(|m|) && Aligned(arguments)
    requires WalkTags(m, begin, arguments).Walked? && WalkTags(m, begin, arguments).end == end
    ensures args == ReadArgs(m, begin, arguments)
  {
    hide Checked, Aligned, ReadArg, Read, Moved, Overruns, ReadArgs, WalkTags;
    NothingRead(m, begin, arguments);
    var i := new ArgumentIterator(m, memory, begin, arguments);
    ghost var place := arguments;
    args := [];
    while i.typeTag != end
      invariant begin <= i.typeTag <= end < |m| && Aligned(i.argument) && SamePlace(|m|, i.argument, place)
      invariant WalkTags(m, i.typeTag, place).Walked? && WalkTags(m, i.typeTag, place).end == end
      invariant ReadArgs(m, begin, arguments) == args + ReadArgs(m, i.typeTag, place)
      decreases end - i.typeTag
    {
      var t, pos := i.typeTag, i.argument;
      WalkGoesOn(m, t, place);
      StepsToSamePlace(m, memory, m[t], pos, place);
      ReadAtSamePlace(m, memory, m[t], pos, place);
      i.Advance();
      var arg := AsRead(m, memory, m[t], pos, i.argument);
      ReadArgsStep(m, t, place, args);
      place := Checked(m, m[t], place).pos;
      args := args + [arg];
    }
    NothingMoreRead(m, i.typeTag, place, args);
  }

  /** Reading the argument at pos, knowing where the next one is. */
  method AsRead(m: bytes, memory: Memory, t: byte, pos: nat, next: nat) returns (arg: Reading)
    requires Checked(m, t, pos).At? && next == Moved(m, memory, t, pos) && Aligned(|m|) && Aligned(pos)
    ensures arg == Read(m, t, pos)
  {
    hide ReadArg;
    ReadAtSamePlace(m, memory, t, pos, pos);
    arg := if t == BLOB_TAG && next > |m| then Overrunning else Value(ReadArg(m, t, pos));
  }

  // ---------- bundles ----------

  datatype Elements = Elements(contents: seq<bytes>) | BadElements(why: Why)

  /** How far the loop advances over an element: a 32-bit sum, so 0xFFFFFFFC gives 0. */
  function Advanced(size: uint32): (n: nat)
    ensures size % 4 == 0 ==> n == if size == WRAPPING_SIZE then 0 else 4 + size
  {
    (4 + size) % 0x1_0000_0000
  }

  const WRAPPING_SIZE: uint32 := 0xFFFF_FFFC

  /** The contents of the elements from p on. */
  function SplitFrom(m: bytes, p: nat): Elements
    requires p <= |m|
    decreases |m| - p
  {
    if p == |m| then Elements([])
    else if p + 4 > |m| then BadElements(ElementExceedsBundle)
    else
      var size := FromBE4(m[p..p + 4]);
      if size % 4 != 0 then BadElements(BadElementSize)
      else if Advanced(size) == 0 then BadElements(NeverEnds)
      else
        var next := p + Advanced(size);
        if next > |m| then BadElements(ElementExceedsBundle)
        else
          match SplitFrom(m, next)
          case BadElements(why) => BadElements(why)
          case Elements(rest) => Elements([m[p + 4..next]] + rest)
  }

  /** ReceivedBundle::Init */
  function SplitBundle(m: bytes): Elements {
    if |m| < 16 then BadElements(BundleTooShort)
    else if |m| % 4 != 0 then BadElements(SizeNotMultipleOfFour)
    else if m[..8] != BUNDLE_HEAD then BadElements(BadBundleHead)
    else SplitFrom(m, 16)
  }

  /** Elements with their size slots. */
  function Tiles(es: seq<bytes>): bytes {
    if es == [] then [] else BE4(|es[0]|) + es[0] + Tiles(es[1..])
  }

  /** The first element of an accepted rest, and the rest behind it. */
  lemma SplitStep(m: bytes, p: nat)
    requires p < |m| && SplitFrom(m, p).Elements?
    ensures p + 4 <= |m|
    ensures
      var size := FromBE4(m[p..p + 4]);
      && p + 4 + size <= |m|
      && SplitFrom(m, p + 4 + size).Elements?
      && SplitFrom(m, p).contents == [m[p + 4..p + 4 + size]] + SplitFrom(m, p + 4 + size).contents
  {
    hide FromBE4;
  }

  lemma TilesCons(e: bytes, es: seq<bytes>)
    ensures Tiles([e] + es) == BE4(|e|) + e + Tiles(es)
  {
    hide BE4;
    assert ([e] + es)[1..] == es;
  }

  predicate AllBelow(es: seq<bytes>, bound: nat) {
    forall i :: 0 <= i < |es| ==> |es[i]| < bound
  }

  lemma AllBelowCons(e: bytes, es: seq<bytes>, bound: nat, smaller: nat)
    requires |e| < bound && smaller <= bound && AllBelow(es, smaller)
    ensures AllBelow([e] + es, bound)
  {
    forall i | 0 <= i < |[e] + es|
      ensures |([e] + es)[i]| < bound
    {
      if i > 0 {
        assert ([e] + es)[i] == es[i - 1];
      }
    }
  }

  lemma ThreePieces(m: bytes, p: nat, q: nat)
    requires p + 4 <= q <= |m|
    ensures m[p..] == m[p..p + 4] + m[p + 4..q] + m[q..]
  {
  }

  /** On any bytes: the elements found, each behind its size slot, tile the bundle from p to its end. */
  lemma {:induction false} ElementsTile(m: bytes, p: nat)
    requires p <= |m| && SplitFrom(m, p).Elements?
    ensures m[p..] == Tiles(SplitFrom(m, p).contents)
    ensures AllBelow(SplitFrom(m, p).contents, |m| - p)
    decreases |m| - p
  {
    if p < |m| {
      hide FromBE4, BE4, SplitFrom, Tiles, AllBelow, Advanced;
      SplitStep(m, p);
      var w := m[p..p + 4];
      var next := p + 4 + FromBE4(w);
      RoundTrip4Bytes(w);
      ElementsTile(m, next);
      var e, es := m[p + 4..next], SplitFrom(m, next).contents;
      TilesCons(e, es);
      AllBelowCons(e, es, |m| - p, |m| - next);
      ThreePieces(m, p, next);
    }
  }

  lemma ElementsAreSmaller(m: bytes)
    requires SplitBundle(m).Elements?
    ensures AllBelow(SplitBundle(m).contents, |m|)
  {
    hide SplitFrom, Tiles;
    ElementsTile(m, 16);
  }

  predicate IsBundle(m: bytes) { |m| > 0 && m[0] == HASH }

  /** OscPacketListener::ProcessPacket and the recursive ProcessBundle; the time tag is ignored. */
  function Process(m: bytes): Outcome
    decreases |m|, 1, 0
  {
    if !IsBundle(m) then ProcessMessage(m)
    else
      match SplitBundle(m)
      case BadElements(why) => Outcome([], Some(why))
      case Elements(es) =>
        ElementsAreSmaller(m);
        ProcessAll(es, |m|)
  }

  function ProcessAll(es: seq<bytes>, bound: nat): Outcome
    requires AllBelow(es, bound)
    decreases bound, 0, |es|
  {
    if es == [] then Outcome([], None)
    else
      var r := Process(es[0]);
      if r.error.Some? then r
      else
        var r' := ProcessAll(es[1..], bound);
        Outcome(r.delivered + r'.delivered, r'.error)
  }

  /** The validating loop of a bundle; also counts the elements. */
  method ValidateBundle(m: bytes) returns (error: Option<Why>, count: nat)
    ensures match SplitBundle(m)
            case BadElements(why) => error == Some(why)
            case Elements(es) => error.None? && count == |es|
  {
    count := 0;
    if |m| < 16 {
      return Some(BundleTooShort), 0;
    }
    if |m| % 4 != 0 {
      return Some(SizeNotMultipleOfFour), 0;
    }
    if m[..8] != BUNDLE_HEAD {
      return Some(BadBundleHead), 0;
    }
    var p := 16;
    hide FromBE4, Advanced;
    while p < |m|
      invariant 16 <= p <= |m|
      invariant
        match (SplitFrom(m, 16), SplitFrom(m, p))
        case (Elements(all), Elements(rest)) => |all| == count + |rest|
        case (BadElements(w0), BadElements(w1)) => w0 == w1
        case _ => false
      decreases |m| - p
    {
      if p + 4 > |m| {
        return Some(ElementExceedsBundle), count;
      }
      var size := FromBE4(m[p..p + 4]);
      if size % 4 != 0 {
        return Some(BadElementSize), count;
      }
      if Advanced(size) == 0 {
        return Some(NeverEnds), count;   // the code goes round here for ever
      }
      if p + Advanced(size) > |m| {
        return Some(ElementExceedsBundle), count;
      }
      p := p + Advanced(size);
      count := count + 1;
    }
    error := None;
  }

  /** ProcessPacket */
  method RunPacket(m: bytes, memory: Memory) returns (r: Outcome)
    ensures r == Process(m)
    decreases |m|, 2
  {
    if IsBundle(m) {
      r := RunBundle(m, memory);
    } else {
      r := RunMessage(m, memory);
    }
  }

  /** One more element has been processed. */
  lemma ProcessAllStep(es: seq<bytes>, bound: nat, before: seq<Received>)
    requires es != [] && AllBelow(es, bound)
    ensures AllBelow(es[1..], bound)
    ensures
      var r, all, rest := Process(es[0]), ProcessAll(es, bound), ProcessAll(es[1..], bound);
      if r.error.Some? then all == r
      else before + all.delivered == (before + r.delivered) + rest.delivered && all.error == rest.error
  {
    hide Process;
  }

  lemma ProcessUnfolds(m: bytes)
    requires IsBundle(m) && SplitBundle(m).Elements?
    ensures AllBelow(SplitBundle(m).contents, |m|) && Process(m) == ProcessAll(SplitBundle(m).contents, |m|)
  {
    hide SplitBundle, ProcessAll;
    ElementsAreSmaller(m);
  }

  /** ProcessBundle: the element iterator takes ElementCount steps from 16 to the end. */
  method RunBundle(m: bytes, memory: Memory) returns (r: Outcome)
    requires IsBundle(m)
    ensures r == Process(m)
    decreases |m|, 1
  {
    var error, count := ValidateBundle(m);
    if error.Some? {
      return Outcome([], error);
    }
    var steps;
    r, steps := RunElements(m, memory);
  }

  /** The iterator loop and the number of its steps. */
  method RunElements(m: bytes, memory: Memory) returns (r: Outcome, steps: nat)
    requires IsBundle(m) && SplitBundle(m).Elements?
    ensures r == Process(m)
    ensures steps <= |SplitBundle(m).contents| && (r.error.None? ==> steps == |SplitBundle(m).contents|)
    decreases |m|, 0
  {
    hide FromBE4, SplitFrom, Process, ProcessAll, AllBelow;
    ProcessUnfolds(m);
    ghost var rest := SplitBundle(m).contents;
    r, steps := Outcome([], None), 0;
    var p := 16;
    while p != |m|
      invariant 16 <= p <= |m| && r.error.None? && AllBelow(rest, |m|)
      invariant SplitFrom(m, p) == Elements(rest) && steps + |rest| == |SplitBundle(m).contents|
      invariant Process(m).delivered == r.delivered + ProcessAll(rest, |m|).delivered
      invariant Process(m).error == ProcessAll(rest, |m|).error
      decreases |m| - p
    {
      SplitStep(m, p);
      var size := FromBE4(m[p..p + 4]);
      var start := p + 4;
      var content := m[start..start + size];
      ghost var behind := SplitFrom(m, p + 4 + size).contents;
      assert rest[0] == content && rest[1..] == behind;
      ProcessAllStep(rest, |m|, r.delivered);
      var sub := RunPacket(content, (k: nat) => WordAt(m, memory, start + k));
      r, steps := Outcome(r.delivered + sub.delivered, sub.error), steps + 1;
      if sub.error.Some? {
        return;
      }
      p, rest := p + 4 + size, behind;
    }
    NothingLeft(m, |m|);
  }

  lemma NothingLeft(m: bytes, bound: nat)
    ensures SplitFrom(m, |m|) == Elements([]) && ProcessAll([], bound) == Outcome([], None)
  {
  }

  // ---------- a message whose blob overruns ----------

  /** The address "/a", the tag "b" and a length word of 8, with nothing behind it. */
  const OVERRUN: bytes := ['/' as int, 'a' as int, 0, 0, ',' as int, 'b' as int, 0, 0, 0, 0, 0, 8]

  lemma ShortString(m: bytes, p: nat)
    requires p + 4 <= |m| && m[p] != 0 && m[p + 3] == 0
    ensures Str4End(m, p) == Some(p + 4)
  {
  }

  lemma OverrunBlob()
    ensures Checked(OVERRUN, BLOB_TAG, 8) == At(20)
  {
    hide Str4End, FromBE4;
    assert OVERRUN[8..12] == [0, 0, 0, 8];
    EightIsRead();
  }

  lemma EightIsRead()
    ensures FromBE4([0, 0, 0, 8]) == 8
  {
  }

  /** Init accepts it, and the walk leaves it: twelve bytes, and the next argument would start at 20. */
  lemma OverrunIsAccepted()
    ensures Validate(OVERRUN) == Accepted(Tagged(5, 6, 8))
    ensures WalkTags(OVERRUN, 5, 8) == Walked(6, [8, 20]) && |OVERRUN| == 12 && !BlobsFit(OVERRUN, 5, 8)
  {
    hide Str4End, Checked;
    ShortString(OVERRUN, 0);
    ShortString(OVERRUN, 4);
    OverrunBlob();
    assert WalkTags(OVERRUN, 6, 20) == Walked(6, [20]);
    assert [8] + [20] == [8, 20];
  }

  /** The listener gets it, with the blob marked and no exception. */
  lemma OverrunIsDelivered()
    ensures Process(OVERRUN) == Outcome([Received(['/' as int, 'a' as int], [BLOB_TAG], [Overrunning])], None)
  {
    hide Validate, Checked, Str4End, WalkTags;
    OverrunIsAccepted();
    OverrunBlob();
    assert OVERRUN[5..6] == [BLOB_TAG];
    assert CStringAt(OVERRUN, 1) == ['a' as int] + CStringAt(OVERRUN, 2);
    assert CStringAt(OVERRUN, 0) == ['/' as int, 'a' as int];
    assert ReadArgs(OVERRUN, 5, 8) == [Overrunning];
  }
}
