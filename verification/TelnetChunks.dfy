/**
 * The meaning of a received stream does not depend on how it is split into
 * telnet_recv calls, exactly as long as it holds no MCCPv1 marker.
 */
module TelnetChunks {
  import opened Bytes
  import opened TelnetParser
  import Telnet
  import TelnetWire
  import OptionTable

  /** One telnet_recv per chunk. */
  function RunChunks(c: Config, p: Parser, chunks: seq<bytes>): (r: Out)
    requires Ready(p)
    ensures Ready(r.parser)
  {
    if chunks == [] then Out(p, [])
    else
      var r := RunChunks(c, p, chunks[..|chunks| - 1]);
      var r' := Chunk(c, r.parser, chunks[|chunks| - 1]);
      Out(r'.parser, r.events + r'.events)
  }

  /** A whole session of receptions. */
  method ReceiveAll(t: Telnet.Telnet, chunks: seq<bytes>)
    requires t.Valid()
    modifies t, t.buffer
    ensures t.Valid()
    ensures t.Abs() == RunChunks(t.config, old(t.Abs()), chunks).parser
    ensures Flat(t.events) == Flat(old(t.events)) + RunChunks(t.config, old(t.Abs()), chunks).events
  {
    hide Chunk, Flat;
    for i := 0 to |chunks|
      invariant t.Valid() && (t.buffer == old(t.buffer) || fresh(t.buffer))
      invariant t.Abs() == RunChunks(t.config, old(t.Abs()), chunks[..i]).parser
      invariant Flat(t.events) == Flat(old(t.events)) + RunChunks(t.config, old(t.Abs()), chunks[..i]).events
    {
      ghost var r := RunChunks(t.config, old(t.Abs()), chunks[..i]);
      ghost var more := Chunk(t.config, r.parser, chunks[i]).events;
      assert chunks[..i + 1][..i] == chunks[..i];
      assert Flat(old(t.events)) + r.events + more == Flat(old(t.events)) + (r.events + more);
      t.Recv(chunks[i]);
    }
    assert chunks[..|chunks|] == chunks;
  }

  /** The k-th byte is a WILL inside a sub-negotiation of option 85. */
  predicate MarkerAt(c: Config, p: Parser, s: bytes, k: nat)
    requires Ready(p) && k < |s|
  {
    var q := Run(c, p, s[..k]).parser;
    q.state.InSbData? && q.sbOpt == COMPRESS && s[k] == WILL
  }

  predicate HasMarker(c: Config, p: Parser, s: bytes)
    requires Ready(p)
  {
    exists k :: 0 <= k < |s| && MarkerAt(c, p, s, k)
  }

  predicate NoWildData(es: seq<Event>) {
    forall i :: 0 <= i < |es| ==> !es[i].WildData?
  }

  /** This split delivers what the stream means, and every DATA event is a real slice. */
  predicate Faithful(c: Config, p: Parser, s: bytes, chunks: seq<bytes>)
    requires Ready(p)
  {
    RunChunks(c, p, chunks) == Run(c, p, s) && NoWildData(RunChunks(c, p, chunks).events)
  }

  lemma SubEventsAreNotWild(c: Config, o: byte, sb: bytes)
    ensures NoWildData(SubEvents(c, o, sb))
  {
    hide Environ.Meaning;
  }

  lemma NegotiatedIsNotWild(c: Config, p: Parser, v: QMethod.Verb, o: byte)
    requires Ready(p)
    ensures NoWildData(Negotiated(c, p, v, o).events)
  {
    hide QMethod.Receive, OptionTable.Lookup, Update, CheckTelopt;
  }

  lemma StepAndMarker(c: Config, p: Parser, b: byte)
    requires Ready(p) && !p.skip
    ensures NoWildData(Step(c, p, b).events)
    ensures Step(c, p, b).parser.skip <==> p.state.InSbData? && p.sbOpt == COMPRESS && b == WILL
    ensures Step(c, p, b).parser.skip ==> Step(c, p, b).parser.state.InData?
  {
    SubEventsAreNotWild(c, p.sbOpt, p.sb);
    if p.state.InNegotiation? {
      NegotiatedIsNotWild(c, p, p.state.verb, b);
    }
    hide SubEvents, Negotiated, SubAborts;
  }

  lemma {:induction false} RunWithoutMarker(c: Config, p: Parser, s: bytes)
    requires Ready(p) && !p.skip && !HasMarker(c, p, s)
    ensures !Run(c, p, s).parser.skip && NoWildData(Run(c, p, s).events)
  {
    if s != [] {
      hide Step;
      var s', b := s[..|s| - 1], s[|s| - 1];
      MarkerInPrefix(c, p, s, |s| - 1);
      RunWithoutMarker(c, p, s');
      assert s == s' + [b];
      RunSnoc(c, p, s', b);
      StepAndMarker(c, Run(c, p, s').parser, b);
      assert !MarkerAt(c, p, s, |s| - 1);
    }
  }

  lemma MarkerInPrefix(c: Config, p: Parser, s: bytes, n: nat)
    requires Ready(p) && n <= |s|
    ensures HasMarker(c, p, s[..n]) ==> HasMarker(c, p, s)
  {
    if k :| 0 <= k < n && MarkerAt(c, p, s[..n], k) {
      assert s[..n][..k] == s[..k];
      assert MarkerAt(c, p, s, k);
    }
  }

  lemma MarkerInSuffix(c: Config, p: Parser, a: bytes, b: bytes)
    requires Ready(p)
    ensures HasMarker(c, Run(c, p, a).parser, b) ==> HasMarker(c, p, a + b)
  {
    if k :| 0 <= k < |b| && MarkerAt(c, Run(c, p, a).parser, b, k) {
      assert (a + b)[..|a| + k] == a + b[..k];
      RunAppend(c, p, a, b[..k]);
      assert MarkerAt(c, p, a + b, |a| + k);
    }
  }

  lemma {:induction false} SplitsAreFaithful(c: Config, p: Parser, chunks: seq<bytes>)
    requires Ready(p) && !p.skip && !HasMarker(c, p, Flatten(chunks))
    ensures Faithful(c, p, Flatten(chunks), chunks)
  {
    hide Step;
    if chunks != [] {
      var n := |chunks| - 1;
      var a, b := Flatten(chunks[..n]), chunks[n];
      FlattenSnoc(chunks[..n], b);
      assert chunks == chunks[..n] + [b];
      assert Flatten(chunks) == a + b;
      MarkerInPrefix(c, p, a + b, |a|);
      assert (a + b)[..|a|] == a;
      SplitsAreFaithful(c, p, chunks[..n]);
      RunWithoutMarker(c, p, a);
      MarkerInSuffix(c, p, a, b);
      RunWithoutMarker(c, Run(c, p, a).parser, b);
      RunAppend(c, p, a, b);
    }
  }

  /** Cutting the stream right after a marker makes the code raise a DATA event of size -1. */
  lemma CutAfterMarkerIsWild(c: Config, p: Parser, s: bytes, k: nat)
    requires Ready(p) && !p.skip && k < |s| && MarkerAt(c, p, s, k)
    requires !HasMarker(c, p, s[..k])
    ensures !Faithful(c, p, s, [s[..k + 1], s[k + 1..]])
  {
    hide Step;
    var first := s[..k + 1];
    RunWithoutMarker(c, p, s[..k]);
    assert first == s[..k] + [s[k]];
    RunSnoc(c, p, s[..k], s[k]);
    StepAndMarker(c, Run(c, p, s[..k]).parser, s[k]);
    var r := Chunk(c, p, first);
    assert r.events[|r.events| - 1].WildData?;
    var chunks: seq<bytes> := [first, s[k + 1..]];
    var one: seq<bytes> := [first];
    assert chunks[..1] == one && one[..0] == [];
    assert RunChunks(c, p, one) == Out(r.parser, [] + r.events);
    var all := RunChunks(c, p, chunks).events;
    assert all[|r.events| - 1].WildData?;
  }

  lemma FirstMarker(c: Config, p: Parser, s: bytes) returns (k: nat)
    requires Ready(p) && HasMarker(c, p, s)
    ensures k < |s| && MarkerAt(c, p, s, k) && !HasMarker(c, p, s[..k])
    decreases |s|
  {
    k :| 0 <= k < |s| && MarkerAt(c, p, s, k);
    if HasMarker(c, p, s[..k]) {
      var j := FirstMarker(c, p, s[..k]);
      assert s[..k][..j] == s[..j];
      k := j;
    }
  }

  /** Chunk independence, with its exact condition. */
  lemma ChunkIndependence(c: Config, p: Parser, s: bytes)
    requires Ready(p) && !p.skip
    ensures (forall chunks: seq<bytes> :: Flatten(chunks) == s ==> Faithful(c, p, s, chunks)) <==> !HasMarker(c, p, s)
  {
    hide Run, RunChunks, MarkerAt;
    if HasMarker(c, p, s) {
      var k := FirstMarker(c, p, s);
      CutAfterMarkerIsWild(c, p, s, k);
      var chunks: seq<bytes> := [s[..k + 1], s[k + 1..]];
      assert Flatten(chunks) == s by {
        assert chunks[1..] == [s[k + 1..]];
        assert Flatten([s[k + 1..]]) == s[k + 1..] + Flatten<byte>([]);
      }
    } else {
      forall chunks: seq<bytes> | Flatten(chunks) == s
        ensures Faithful(c, p, s, chunks)
      {
        SplitsAreFaithful(c, p, chunks);
      }
    }
  }

  /** The old MCCPv1 sequence. */
  const MCCP1: bytes := [IAC, SB, COMPRESS, WILL, SE]

  /** A stream with a marker, from the initial state: received whole it passes on nothing; cut behind the
      marker it raises a DATA event of size -1 and passes SE on as data. */
  lemma MarkerExists(c: Config)
    ensures MarkerAt(c, Fresh, MCCP1, 3) && HasMarker(c, Fresh, MCCP1)
    ensures RunChunks(c, Fresh, [MCCP1]).events == []
    ensures RunChunks(c, Fresh, [MCCP1[..4], MCCP1[4..]]).events == [WildData(SIZE_MAX), Data([SE])]
  {
    var body := Parser(InSbData, false, COMPRESS, [], OptionTable.Empty);
    TelnetWire.SubStarts(c, Fresh, COMPRESS);
    assert MCCP1[..3] == [IAC, SB, COMPRESS];
    assert Run(c, Fresh, MCCP1[..3]) == Out(body, []);
    RunSnoc(c, Fresh, MCCP1[..3], WILL);
    assert MCCP1[..4] == MCCP1[..3] + [WILL];
    var marked := body.(state := InData, skip := true);
    assert Run(c, Fresh, MCCP1[..4]) == Out(marked, []);
    RunSnoc(c, Fresh, MCCP1[..4], SE);
    assert MCCP1 == MCCP1[..4] + [SE];
    hide Run;
    OneChunk(c, Fresh, MCCP1);
    OneChunk(c, Fresh, MCCP1[..4]);
    var plain := marked.(skip := false);
    RunOne(c, plain, SE);
    assert MCCP1[4..] == [SE];
    var two: seq<bytes> := [MCCP1[..4], MCCP1[4..]];
    assert two[..1] == [MCCP1[..4]];
  }

  lemma OneChunk(c: Config, p: Parser, s: bytes)
    requires Ready(p)
    ensures RunChunks(c, p, [s]) == Chunk(c, p, s)
  {
    var one: seq<bytes> := [s];
    assert one[..0] == [];
    assert RunChunks(c, p, []) == Out(p, []);
    assert [] + Chunk(c, p, s).events == Chunk(c, p, s).events;
  }
}
