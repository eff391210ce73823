/**
 * libtelnet's telnet_t: the receive loop with its zero-copy slices, recursion
 * and growing buffer, proved against the transducer of TelnetParser, and the
 * send side.
 */
module Telnet {
  import opened Bytes
  import opened QMethod
  import opened OptionTable
  import opened TelnetParser
  import Environ

  /** _buffer_sizes */
  const BUFFER_SIZES := [0, 512, 2048, 8192, SB_LIMIT]

  /** _check_telopt */
  method SearchTelopts(rows: seq<TelOpt>, o: byte, us: bool) returns (r: bool)
    ensures r == CheckTelopt(rows, o, us)
  {
    for i := 0 to |rows|
      invariant CheckTelopt(rows, o, us) == CheckTelopt(rows[i..], o, us)
    {
      if rows[i].telopt == o {
        return if us then rows[i].us == WILL else rows[i].him == DO;
      }
    }
    r := false;
  }

  /** Events have been added, none of them an empty DATA event. */
  predicate Extends(before: seq<Event>, after: seq<Event>) {
    before <= after && forall k :: |before| <= k < |after| ==> after[k] != Data([])
  }

  lemma ExtendsByFlat(before: seq<Event>, more: seq<Event>)
    requires IsFlat(more)
    ensures Extends(before, before + more)
  {
  }

  lemma ExtendsItself(es: seq<Event>)
    ensures Extends(es, es)
  {
  }

  lemma ExtendsOnward(a: seq<Event>, b: seq<Event>, c: seq<Event>)
    requires Extends(a, b) && Extends(b, c)
    ensures Extends(a, c)
  {
  }

  class Telnet {
    const config: Config
    var state: State
    var q: seq<Entry>
    var qSize: byte
    var buffer: array<byte>
    var bufferPos: nat
    var sbOpt: byte
    var events: seq<Event>   // the calls of the event handler so far

    ghost predicate Valid()
      reads this, buffer
    {
      && WellFormed(Table(q, qSize))
      && bufferPos <= buffer.Length
      && buffer.Length in BUFFER_SIZES
    }

    /** The engine's state as the transducer sees it; the buffer counts only inside a sub-negotiation. */
    ghost function Abs(): (p: Parser)
      requires Valid()
      reads this, buffer
      ensures Ready(p) && !p.skip
    {
      Parser(state, false, sbOpt, if InSub() then buffer[..bufferPos] else [], Table(q, qSize))
    }

    ghost predicate InSub()
      reads this
    {
      state.InSbData? || state.InSbDataIac?
    }

    constructor (config: Config)
      ensures Valid() && Abs() == Fresh && events == [] && this.config == config
      ensures fresh(buffer)
    {
      this.config := config;
      state, q, qSize, bufferPos, sbOpt, events := InData, [], 0, 0, 0, [];
      buffer := new byte[0];
    }

    // ---------- option table ----------

    /** _get_rfc1143 */
    method GetOption(o: byte) returns (p: Pair)
      requires Valid()
      ensures p == Lookup(Table(q, qSize), o)
    {
      for i := 0 to qSize
        invariant Find(Table(q, qSize), o, 0) == Find(Table(q, qSize), o, i)
      {
        if q[i].telopt == o {
          return Unpack(q[i].state);
        }
      }
      p := Off;
    }

    /** _set_rfc1143 */
    method SetOption(o: byte, p: Pair)
      requires Valid()
      modifies this`q, this`qSize
      ensures Valid() && Table(q, qSize) == Store(old(Table(q, qSize)), o, p)
    {
      hide Pack, Unpack;
      ghost var t := Table(q, qSize);
      for i := 0 to qSize
        invariant q == t.q && qSize == t.size
        invariant Find(t, o, 0) == Find(t, o, i)
      {
        if q[i].telopt == o {
          q := q[i := Entry(o, Pack(p))];
          return;
        }
      }
      q := q[..qSize] + [Entry(o, Pack(p)), Entry(0, 0), Entry(0, 0), Entry(0, 0)];
      qSize := (qSize + 4) % 256;
    }

    // ---------- negotiation ----------

    method Raise(e: Event)
      modifies this`events
      ensures events == old(events) + [e]
    {
      events := events + [e];
    }

    /** _negotiate */
    method NegotiateReceived(v: Verb, o: byte)
      requires Valid()
      modifies this`q, this`qSize, this`events
      ensures Valid()
      ensures Abs() == Negotiated(config, old(Abs()), v, o).parser
      ensures events == old(events) + Negotiated(config, old(Abs()), v, o).events
    {
      if config.proxy {
        Raise(Negotiation(v, o));
        return;
      }
      var p := GetOption(o);
      var supportUs := SearchTelopts(config.telopts, o, true);
      var supportHim := SearchTelopts(config.telopts, o, false);
      var r := Receive(p, v, supportUs, supportHim);
      if r.pair != p {
        SetOption(o, r.pair);
      }
      events := events + ReactionEvents(r, v, o);
    }

    /** telnet_negotiate */
    method NegotiateLocally(cmd: byte, o: byte)
      requires Valid()
      modifies this`q, this`qSize, this`events
      ensures Valid() && state == old(state)
      ensures config.proxy ==>
                Table(q, qSize) == old(Table(q, qSize)) && events == old(events) + [Send([IAC, cmd, o])]
      ensures !config.proxy && cmd !in {WILL, WONT, DO, DONT} ==>
                Table(q, qSize) == old(Table(q, qSize)) && events == old(events)
      ensures !config.proxy ==> forall v :: VerbByte(v) == cmd ==>
                var (p, vs) := Request(Lookup(old(Table(q, qSize)), o), v);
                && Table(q, qSize) == Update(old(Table(q, qSize)), o, p)
                && events == old(events) + if vs == [] then [] else [NegotiationSent(v, o)]
    {
      if config.proxy {
        Raise(Send([IAC, cmd, o]));
        return;
      }
      var p := GetOption(o);
      if cmd !in {WILL, WONT, DO, DONT} {
        return;
      }
      var v := if cmd == WILL then Will else if cmd == WONT then Wont else if cmd == DO then Do else Dont;
      var (p', vs) := Request(p, v);
      if p' != p {
        SetOption(o, p');
      }
      if vs != [] {
        Raise(NegotiationSent(v, o));
      }
    }

    // ---------- sub-negotiation ----------

    /** _buffer_byte */
    method BufferByte(b: byte) returns (ok: bool)
      requires Valid()
      modifies this`buffer, this`bufferPos, this`events, buffer
      ensures Valid() && (buffer == old(buffer) || fresh(buffer))
      ensures ok <==> old(bufferPos) < SB_LIMIT
      ensures ok ==> buffer[..bufferPos] == old(buffer[..bufferPos]) + [b] && events == old(events)
      ensures !ok ==> bufferPos == old(bufferPos) && events == old(events) + [Warning(SbOverflow)]
    {
      if bufferPos == buffer.Length {
        var i := 0;
        while i != |BUFFER_SIZES| && BUFFER_SIZES[i] != buffer.Length
          invariant 0 <= i <= |BUFFER_SIZES| && buffer.Length !in BUFFER_SIZES[..i]
        {
          i := i + 1;
        }
        if i >= |BUFFER_SIZES| - 1 {
          Raise(Warning(SbOverflow));
          return false;
        }
        var bigger := new byte[BUFFER_SIZES[i + 1]];
        forall k | 0 <= k < bufferPos {
          bigger[k] := buffer[k];
        }
        buffer := bigger;
      }
      buffer[bufferPos] := b;
      bufferPos := bufferPos + 1;
      ok := true;
    }

    /** _subnegotiate; the environment decoder works in place in the buffer. */
    method Subnegotiate() returns (abort: bool)
      requires Valid()
      modifies this`events, buffer
      ensures Valid()
      ensures abort == SubAborts(sbOpt, old(buffer[..bufferPos]))
      ensures events == old(events) + SubEvents(config, sbOpt, old(buffer[..bufferPos]))
    {
      var sb := buffer[..bufferPos];
      Raise(Subnegotiation(sbOpt, sb));
      abort := false;
      if sbOpt == ENVIRON || sbOpt == NEW_ENVIRON {
        var r := Environ.DecodeInPlace(buffer, bufferPos);
        events := events + EnvironEvents(sbOpt, r);
        abort := r.Accepted?;
      } else if sbOpt == ZMP || sbOpt == TTYPE || sbOpt == MSSP {
        events := events + SpecialEvents(config, sbOpt, sb);
      }
    }

    // ---------- receiving ----------

    method OnIac(b: byte)
      requires Valid() && state.InIac?
      modifies this`state, this`events, this`bufferPos
      ensures Valid() && Abs() == IacStep(old(Abs()), b).parser
      ensures events == old(events) + IacStep(old(Abs()), b).events
    {
      if b == SB {
        state := InSb;
      } else if b == WILL {
        state := InNegotiation(Will);
      } else if b == WONT {
        state := InNegotiation(Wont);
      } else if b == DO {
        state := InNegotiation(Do);
      } else if b == DONT {
        state := InNegotiation(Dont);
      } else if b == IAC {
        Raise(Data([b]));
        state := InData;
      } else {
        Raise(Command(b));
        state := InData;
      }
    }

    /** The byte of a sub-negotiation: appended, or the sub-negotiation is given up. */
    method PushOrDrop(b: byte)
      requires Valid() && InSub()
      modifies this`state, this`buffer, this`bufferPos, this`events, buffer
      ensures Valid() && (buffer == old(buffer) || fresh(buffer))
      ensures Abs() == Pushed(old(Abs()), b).parser
      ensures events == old(events) + Pushed(old(Abs()), b).events
    {
      var ok := BufferByte(b);
      state := if ok then InSbData else InData;
    }

    /** A byte in state SB_DATA; `marker` reports the MCCPv1 marker. */
    method OnSbData(b: byte) returns (marker: bool)
      requires Valid() && state.InSbData?
      modifies this`state, this`buffer, this`bufferPos, this`events, buffer
      ensures Valid() && (buffer == old(buffer) || fresh(buffer))
      ensures
        var r := Step(config, old(Abs()), b);
        Abs() == r.parser.(skip := false) && marker == r.parser.skip && events == old(events) + r.events
    {
      marker := false;
      if b == IAC {
        state := InSbDataIac;
      } else if sbOpt == COMPRESS && b == WILL {
        marker := true;
        state := InData;
      } else {
        PushOrDrop(b);
      }
    }

    /** Passing the slice start..i to the handler; its size is a size_t. */
    method RaiseSlice(input: bytes, start: nat, i: nat)
      requires i <= |input| && start <= i + 1
      modifies this`events
      ensures Flat(events) == Flat(old(events)) +
                              if start == i + 1 then [WildData(SIZE_MAX)] else Cut(input[start..i])
      ensures Extends(old(events), events)
    {
      if start <= i {
        if start != i {
          Raise(Data(input[start..i]));
          FlatOne(old(events), Data(input[start..i]));
        } else {
          assert Cut(input[start..i]) == [];
        }
      } else {
        var size := (i - start) % (SIZE_MAX + 1);
        Raise(WildData(size));
        FlatOne(old(events), WildData(size));
      }
    }

    /** The data seen but not yet passed on. */
    ghost function Pending(input: bytes, start: nat, i: nat): seq<Event>
      requires i <= |input|
      reads this`state
    {
      if state.InData? && start < i then Cut(input[start..i]) else []
    }

    /** `start` tells where the pending data begin, one past the next byte while that byte is to be skipped. */
    ghost predicate StartFits(start: nat, i: nat, skip: bool)
      reads this`state
    {
      if state.InData? then start <= i + 1 && (skip <==> start == i + 1) else !skip
    }

    /** A byte outside DATA and SB_DATA_IAC. */
    method OnCommandByte(b: byte) returns (marker: bool)
      requires Valid() && !state.InData? && !state.InSbDataIac?
      modifies this, buffer
      ensures Valid() && (buffer == old(buffer) || fresh(buffer))
      ensures
        var r := Step(config, old(Abs()), b);
        Abs() == r.parser.(skip := false) && marker == r.parser.skip && events == old(events) + r.events
      ensures marker ==> state.InData?
    {
      marker := false;
      match state
      case InData =>
      case InIac => OnIac(b);
      case InNegotiation(v) =>
        NegotiateReceived(v, b);
        state := InData;
      case InSb =>
        sbOpt := b;
        bufferPos := 0;
        state := InSbData;
      case InSbData => marker := OnSbData(b);
      case InSbDataIac =>
    }

    /** A byte in state DATA. */
    method OnDataByte(input: bytes, start: nat, i: nat)
      requires Valid() && i < |input| && state.InData? && start <= i + 1
      modifies this`state, this`events
      ensures Valid()
      ensures
        var r := Step(config, old(Abs()).(skip := start == i + 1), input[i]);
        && Abs() == r.parser.(skip := false)
        && !r.parser.skip
        && Flat(events) + Pending(input, start, i + 1) ==
           Flat(old(events)) + old(Pending(input, start, i)) + r.events
      ensures Extends(old(events), events)
    {
      hide Flat, Extends, WellFormed;
      ExtendsItself(events);
      if input[i] == IAC {
        RaiseSlice(input, start, i);
        state := InIac;
      } else if start <= i {
        assert Cut(input[start..i + 1]) == Cut(input[start..i]) + [Data([input[i]])];
      }
    }

    /** One turn of the loop of _process in any state but SB_DATA_IAC. */
    method OnByte(input: bytes, start: nat, i: nat) returns (start': nat)
      requires Valid() && i < |input| && !state.InSbDataIac?
      requires state.InData? ==> start <= i + 1
      modifies this, buffer
      ensures Valid() && (buffer == old(buffer) || fresh(buffer))
      ensures
        var r := Step(config, old(Abs()).(skip := old(state.InData?) && start == i + 1), input[i]);
        && Abs() == r.parser.(skip := false)
        && StartFits(start', i + 1, r.parser.skip)
        && Flat(events) + Pending(input, start', i + 1) ==
           Flat(old(events)) + old(Pending(input, start, i)) + r.events
      ensures Extends(old(events), events)
    {
      hide Step, Flat, Cut, Extends;
      start' := start;
      if state.InData? {
        OnDataByte(input, start, i);
      } else {
        var marker := OnCommandByte(input[i]);
        ghost var r := Step(config, old(Abs()), input[i]);
        StepIsFlat(config, old(Abs()), input[i]);
        FlatAppend(old(events), r.events);
        FlatOfFlat(r.events);
        ExtendsByFlat(old(events), r.events);
        if state.InData? {
          start' := if marker then i + 2 else i + 1;
        }
      }
    }

    /** The end of a sub-negotiation, regular or not. */
    method CloseSub(b: byte) returns (abort: bool)
      requires Valid() && state.InSbDataIac?
      modifies this`state, this`events, buffer
      ensures Valid()
      ensures abort == SubAborts(sbOpt, old(Abs()).sb)
      ensures Abs() == Closed(config, old(Abs()), b).parser
      ensures events == old(events) + Closed(config, old(Abs()), b).events
    {
      if b != SE {
        Raise(Warning(UnexpectedInSb(b)));
      }
      state := if b == SE then InData else InIac;
      abort := Subnegotiate();
    }

    /** A byte in state SB_DATA_IAC, the first of `rest`. An accepted environment list makes the
        code handle all of what follows in a recursive telnet_recv. */
    method OnSbDataIac(rest: bytes) returns (done: bool)
      requires Valid() && state.InSbDataIac? && rest != []
      modifies this, buffer
      ensures Valid() && (buffer == old(buffer) || fresh(buffer))
      ensures
        var p := old(Abs());
        var r := if done then Chunk(config, p, rest) else Step(config, p, rest[0]);
        Abs() == r.parser && Flat(events) == Flat(old(events)) + r.events
      ensures Extends(old(events), events)
      decreases |rest|, 0, 1
    {
      hide Step, Chunk, SubEvents, SubAborts, IacStep, Flat, Pushed, Extends;
      var b := rest[0];
      ghost var p, e0 := Abs(), events;
      StepInSbDataIac(config, p, b);
      done := false;
      if b == IAC {
        PushOrDrop(IAC);
        StepIsFlat(config, p, b);
        FlatAppend(e0, Step(config, p, b).events);
        FlatOfFlat(Step(config, p, b).events);
        ExtendsByFlat(e0, Step(config, p, b).events);
        return;
      }
      done := CloseSub(b);
      ghost var r := Closed(config, p, b);
      FlatAppend(e0, r.events);
      FlatOfFlat(r.events);
      ExtendsByFlat(e0, r.events);
      ghost var e1 := events;
      if done {
        RunOne(config, p, b);
        assert rest == [b] + rest[1..];
        ChunkAppend(config, p, [b], rest[1..]);
        Recv(rest[1..]);
        ExtendsOnward(e0, e1, events);
        assert Flat(e0) + r.events + Chunk(config, r.parser, rest[1..]).events
            == Flat(e0) + (r.events + Chunk(config, r.parser, rest[1..]).events);
      } else if b != SE {
        ChunkOfCommand(config, r.parser, b);
        Process([b]);
        ExtendsOnward(e0, e1, events);
        assert Flat(e0) + r.events + IacStep(r.parser, b).events == Flat(e0) + (r.events + IacStep(r.parser, b).events);
      }
    }

    /** _process: emits exactly the transducer's events, however the data in it are sliced. */
    method Process(input: bytes)
      requires Valid()
      modifies this, buffer
      ensures Valid() && (buffer == old(buffer) || fresh(buffer))
      ensures Abs() == Chunk(config, old(Abs()), input).parser
      ensures Flat(events) == Flat(old(events)) + Chunk(config, old(Abs()), input).events
      ensures Extends(old(events), events)
      decreases |input|, if state.InSbDataIac? then 1 else 0, 0
    {
      hide Step, Flat, Cut, Run, Extends, WellFormed;
      ghost var p0, e0 := Abs(), events;
      ghost var r := Run(config, p0, input[..0]);
      RunNone(config, p0, input);
      ExtendsItself(e0);
      var i: nat, start: nat := 0, 0;
      while i != |input|
        invariant 0 <= i <= |input|
        invariant Valid() && (buffer == old(buffer) || fresh(buffer))
        invariant i == 0 ==> state == p0.state
        invariant r == Run(config, p0, input[..i])
        invariant Abs() == r.parser.(skip := false)
        invariant StartFits(start, i, r.parser.skip)
        invariant Flat(events) + Pending(input, start, i) == Flat(e0) + r.events
        invariant Extends(e0, events)
      {
        ghost var e1, more := events, Step(config, r.parser, input[i]).events;
        RunSnoc(config, p0, input[..i], input[i]);
        assert input[..i + 1] == input[..i] + [input[i]];
        assert Flat(e0) + r.events + more == Flat(e0) + (r.events + more);
        if state.InSbDataIac? {
          var done := OnSbDataIac(input[i..]);
          ExtendsOnward(e0, e1, events);
          if done {
            assert input == input[..i] + input[i..];
            ChunkAppend(config, p0, input[..i], input[i..]);
            more := Chunk(config, r.parser, input[i..]).events;
            assert Flat(e0) + r.events + more == Flat(e0) + (r.events + more);
            return;
          }
          start := i + 1;
        } else {
          start := OnByte(input, start, i);
          ExtendsOnward(e0, e1, events);
        }
        r := Run(config, p0, input[..i + 1]);
        i := i + 1;
      }
      FinishChunk(input, start, p0, e0);
    }

    /** After the loop: any remaining bytes are passed on. */
    method FinishChunk(input: bytes, start: nat, ghost p0: Parser, ghost e0: seq<Event>)
      requires Valid() && Ready(p0)
      requires
        var r := Run(config, p0, input[..|input|]);
        && Abs() == r.parser.(skip := false)
        && StartFits(start, |input|, r.parser.skip)
        && Flat(events) + Pending(input, start, |input|) == Flat(e0) + r.events
      requires Extends(e0, events)
      modifies this`events
      ensures Valid() && Abs() == Chunk(config, p0, input).parser
      ensures Flat(events) == Flat(e0) + Chunk(config, p0, input).events
      ensures Extends(e0, events)
    {
      hide Step, Run, Flat, Extends, WellFormed;
      RunNone(config, p0, input);
      if state.InData? {
        ghost var e1 := events;
        RaiseSlice(input, start, |input|);
        ExtendsOnward(e0, e1, events);
        ghost var es := Run(config, p0, input).events;
        assert Flat(e1) + [] == Flat(e1);
        assert Flat(e0) + es + [WildData(SIZE_MAX)] == Flat(e0) + (es + [WildData(SIZE_MAX)]);
        assert start == |input| ==> Cut(input[start..|input|]) == [];
      }
    }

    /** telnet_recv without compression. */
    method Recv(input: bytes)
      requires Valid()
      modifies this, buffer
      ensures Valid() && (buffer == old(buffer) || fresh(buffer))
      ensures Abs() == Chunk(config, old(Abs()), input).parser
      ensures Flat(events) == Flat(old(events)) + Chunk(config, old(Abs()), input).events
      ensures Extends(old(events), events)
      decreases |input|, if state.InSbDataIac? then 1 else 0, 1
    {
      Process(input);
    }
  }
}
