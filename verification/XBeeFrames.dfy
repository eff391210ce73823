/**
 * Messages from a remote arrive as a byte stream cut up by the radio; 0xFF
 * ends a frame.
 */
module XBeeFrames {
  import opened Bytes
  import opened Separated

  const FRAME_END: byte := 0xFF

  // ---------- what the separators say ----------

  function NonEmpty(pieces: seq<bytes>): seq<bytes> {
    if pieces == [] then []
    else
      var n := |pieces| - 1;
      if pieces[n] == [] then NonEmpty(pieces[..n]) else NonEmpty(pieces[..n]) + [pieces[n]]
  }

  /** The frames of a stream: its non-empty terminated pieces. */
  function Frames(s: bytes): seq<bytes> { NonEmpty(Cut(s, FRAME_END)[..|Cut(s, FRAME_END)| - 1]) }

  /** What has arrived of an unfinished frame. */
  function Tail(s: bytes): bytes { Cut(s, FRAME_END)[|Cut(s, FRAME_END)| - 1] }

  // ---------- one more byte ----------

  lemma FramesSnoc(s: bytes, b: byte)
    ensures Tail(s + [b]) == if b == FRAME_END then [] else Tail(s) + [b]
    ensures Frames(s + [b]) == if b == FRAME_END && Tail(s) != [] then Frames(s) + [Tail(s)] else Frames(s)
  {
    hide Cut;
    CutSnoc(s, b, FRAME_END);
    var c, n := Cut(s, FRAME_END), |Cut(s, FRAME_END)| - 1;
    if b == FRAME_END {
      assert Cut(s + [b], FRAME_END)[..n + 1] == c && c[..n] == c[..|c| - 1];
    } else {
      assert Cut(s + [b], FRAME_END)[..n] == c[..n];
    }
  }

  lemma NothingFramed()
    ensures Frames([]) == [] && Tail([]) == []
  {
  }

  // ---------- chunks ----------

  /** Keeping only the unfinished frame between two chunks loses nothing. */
  lemma {:induction false} FramesOfChunks(a: bytes, b: bytes)
    ensures Frames(a + b) == Frames(a) + Frames(Tail(a) + b)
    ensures Tail(a + b) == Tail(Tail(a) + b)
    decreases |b|
  {
    hide Frames, Tail;
    if b == [] {
      assert a + b == a && Tail(a) + b == Tail(a);
      TailIsItsOwn(a);
    } else {
      var n := |b| - 1;
      var b', x := b[..n], b[n];
      FramesOfChunks(a, b');
      assert a + b == (a + b') + [x] && Tail(a) + b == (Tail(a) + b') + [x];
      FramesSnoc(a + b', x);
      FramesSnoc(Tail(a) + b', x);
    }
  }

  /** The retained bytes never hold a separator, so they alone make no frame. */
  lemma TailIsItsOwn(s: bytes)
    ensures FRAME_END !in Tail(s) && Frames(Tail(s)) == [] && Tail(Tail(s)) == Tail(s)
  {
    hide Cut, Frames;
    CutIsExact(s, FRAME_END);
    NothingFramed();
    PlainIsOneTail([], Tail(s));
  }

  lemma {:induction false} PlainIsOneTail(s: bytes, x: bytes)
    requires Tail(s) == [] && FRAME_END !in x
    ensures Frames(s + x) == Frames(s) && Tail(s + x) == x
    ensures s == [] ==> Frames(x) == [] && Tail(x) == x
    decreases |x|
  {
    hide Frames, Tail;
    if x == [] {
      assert s + x == s;
    } else {
      var n := |x| - 1;
      PlainIsOneTail(s, x[..n]);
      assert s + x == (s + x[..n]) + [x[n]] && x == x[..n] + [x[n]];
      FramesSnoc(s + x[..n], x[n]);
    }
    NothingFramed();
    assert s == [] ==> s + x == x;
  }

  /** Messages handled over a list of chunks, from a given buffer. */
  function Handled(buffer: bytes, chunks: seq<bytes>): seq<bytes>
    decreases |chunks|
  {
    if chunks == [] then [] else Frames(buffer + chunks[0]) + Handled(Tail(buffer + chunks[0]), chunks[1..])
  }

  function Kept(buffer: bytes, chunks: seq<bytes>): bytes
    decreases |chunks|
  {
    if chunks == [] then buffer else Kept(Tail(buffer + chunks[0]), chunks[1..])
  }

  /** Whatever the chunking: the frames of the whole stream, in order, and its unfinished end. */
  lemma {:induction false} ChunkingIsIrrelevant(buffer: bytes, chunks: seq<bytes>)
    requires FRAME_END !in buffer
    ensures Handled(buffer, chunks) == Frames(buffer + Flatten(chunks))
    ensures Kept(buffer, chunks) == Tail(buffer + Flatten(chunks)) && FRAME_END !in Kept(buffer, chunks)
    decreases |chunks|
  {
    hide Frames, Tail;
    if chunks == [] {
      NothingFramed();
      PlainIsOneTail([], buffer);
      assert buffer + Flatten(chunks) == buffer;
    } else {
      var s, rest := buffer + chunks[0], Flatten(chunks[1..]);
      TailIsItsOwn(s);
      ChunkingIsIrrelevant(Tail(s), chunks[1..]);
      FramesOfChunks(s, rest);
      assert buffer + Flatten(chunks) == s + rest;
    }
  }

  // ---------- prepared messages ----------

  /** A message's type byte and its data. */
  datatype Msg = Msg(kind: byte, data: bytes)

  function Body(m: Msg): (r: bytes)
    ensures r != []
  {
    [m.kind] + m.data
  }

  /** prepareMsg */
  function Prepare(m: Msg): bytes { Body(m) + [FRAME_END] }

  function PrepareAll(ms: seq<Msg>): bytes {
    if ms == [] then [] else PrepareAll(ms[..|ms| - 1]) + Prepare(ms[|ms| - 1])
  }

  function Bodies(ms: seq<Msg>): (r: seq<bytes>)
    ensures |r| == |ms| && forall i :: 0 <= i < |r| ==> r[i] == Body(ms[i])
  {
    if ms == [] then [] else Bodies(ms[..|ms| - 1]) + [Body(ms[|ms| - 1])]
  }

  predicate AllPlain(ms: seq<Msg>) { forall i :: 0 <= i < |ms| ==> FRAME_END !in Body(ms[i]) }

  lemma PlainPrefix(ms: seq<Msg>)
    requires ms != [] && AllPlain(ms)
    ensures AllPlain(ms[..|ms| - 1]) && FRAME_END !in Body(ms[|ms| - 1])
  {
    hide Body;
  }

  lemma {:induction false} PlainMessagesDecode(ms: seq<Msg>)
    requires AllPlain(ms)
    ensures Frames(PrepareAll(ms)) == Bodies(ms) && Tail(PrepareAll(ms)) == []
  {
    hide Frames, Tail, Body, AllPlain;
    if ms == [] {
      NothingFramed();
    } else {
      var n := |ms| - 1;
      var s, x := PrepareAll(ms[..n]), Body(ms[n]);
      PlainPrefix(ms);
      PlainMessagesDecode(ms[..n]);
      PlainIsOneTail(s, x);
      FramesSnoc(s + x, FRAME_END);
      assert PrepareAll(ms) == s + (x + [FRAME_END]) == (s + x) + [FRAME_END];
    }
  }

  lemma {:induction false} NonEmptyKeepsPlain(pieces: seq<bytes>)
    requires forall i :: 0 <= i < |pieces| ==> FRAME_END !in pieces[i]
    ensures forall i :: 0 <= i < |NonEmpty(pieces)| ==> FRAME_END !in NonEmpty(pieces)[i]
    decreases |pieces|
  {
    if pieces != [] {
      NonEmptyKeepsPlain(pieces[..|pieces| - 1]);
    }
  }

  /** A list of prepared messages is received as exactly that list if and only if neither a type
      nor the data holds the separator. */
  lemma DecodesExactlyIfPlain(ms: seq<Msg>)
    ensures Frames(PrepareAll(ms)) == Bodies(ms) <==> AllPlain(ms)
  {
    hide Cut, PrepareAll, Prepare, NonEmpty, Body;
    if AllPlain(ms) {
      PlainMessagesDecode(ms);
    } else {
      var i :| 0 <= i < |ms| && FRAME_END in Body(ms[i]);
      var s := PrepareAll(ms);
      CutIsExact(s, FRAME_END);
      NonEmptyKeepsPlain(Cut(s, FRAME_END)[..|Cut(s, FRAME_END)| - 1]);
      assert Bodies(ms)[i] == Body(ms[i]);
    }
  }

  /** What handleMessage reads of a list of frames: the type is the first byte, the data are the rest. */
  predicate ReadAs(frames: seq<bytes>, ms: seq<Msg>) {
    && |frames| == |ms|
    && forall i :: 0 <= i < |ms| ==> frames[i] != [] && frames[i][0] == ms[i].kind && frames[i][1..] == ms[i].data
  }

  /** The prepared bytes of a list of messages are read back as their types and data, one frame each, if
      and only if no type is the separator and no data hold it. */
  lemma ReadBackExactlyIfPlain(ms: seq<Msg>)
    ensures ReadAs(Frames(PrepareAll(ms)), ms) <==>
            forall i :: 0 <= i < |ms| ==> ms[i].kind != FRAME_END && FRAME_END !in ms[i].data
  {
    hide Frames, PrepareAll, Bodies;
    DecodesExactlyIfPlain(ms);
    var frames := Frames(PrepareAll(ms));
    if ReadAs(frames, ms) {
      forall i | 0 <= i < |ms|
        ensures frames[i] == Bodies(ms)[i]
      {
        assert frames[i] == [frames[i][0]] + frames[i][1..];
      }
      assert frames == Bodies(ms);
    }
  }
}
