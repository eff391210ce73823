/**
 * Received bundles element by element: when the bytes are split into given elements, and what the
 * listener gets of them.
 */
module OscBundles {
  import opened Bytes
  import opened OscFormat
  import opened OscReceived

  // ---------- splitting ----------

  /** A length that a bundle can hold: aligned, and a size word that does not wrap. */
  predicate Fits(e: bytes) { Aligned(|e|) && |e| < WRAPPING_SIZE }

  predicate AllFit(es: seq<bytes>) { forall i :: 0 <= i < |es| ==> Fits(es[i]) }

  lemma AllFitUnfolds(es: seq<bytes>)
    requires es != []
    ensures AllFit(es) <==> Fits(es[0]) && AllFit(es[1..])
  {
    hide Fits;
    if Fits(es[0]) && AllFit(es[1..]) {
      forall i | 0 <= i < |es|
        ensures Fits(es[i])
      {
        assert i > 0 ==> es[i] == es[1..][i - 1];
      }
    }
  }

  /** At p stands the element behind its length. */
  predicate StandsFirst(m: bytes, p: nat, e: bytes)
    requires p <= |m|
  {
    p + 4 + |e| <= |m| && FromBE4(m[p..p + 4]) == |e| && m[p + 4..p + 4 + |e|] == e
  }

  /** From p to the end of the bytes stand the elements, each behind its length. */
  predicate StandAt(m: bytes, p: nat, es: seq<bytes>)
    requires p <= |m|
    decreases |es|
  {
    if es == [] then p == |m|
    else StandsFirst(m, p, es[0]) && StandAt(m, p + 4 + |es[0]|, es[1..])
  }

  lemma SplitsFirst(m: bytes, p: nat, es: seq<bytes>)
    requires p <= |m| && es != [] && Fits(es[0]) && StandsFirst(m, p, es[0])
    ensures SplitFrom(m, p) == Elements(es) <==> SplitFrom(m, p + 4 + |es[0]|) == Elements(es[1..])
  {
    hide FromBE4;
    assert es == [es[0]] + es[1..];
  }

  lemma SplitBegins(m: bytes, p: nat, es: seq<bytes>)
    requires p <= |m| && SplitFrom(m, p) == Elements(es) && es != []
    ensures StandsFirst(m, p, es[0]) && Fits(es[0])
  {
    hide FromBE4;
    SplitStep(m, p);
  }

  lemma SplitIsOver(m: bytes, p: nat)
    requires p <= |m|
    ensures SplitFrom(m, p) == Elements([]) <==> p == |m|
  {
    hide FromBE4;
  }

  /** The elements found from p are `es` if and only if the bytes from p are `es`, each behind its
      length, and every length is one that a bundle can hold. */
  lemma {:induction false} SplitsExactlyAsTheyStand(m: bytes, p: nat, es: seq<bytes>)
    requires p <= |m|
    ensures SplitFrom(m, p) == Elements(es) <==> StandAt(m, p, es) && AllFit(es)
    decreases |es|
  {
    hide SplitFrom, AllFit, Fits, FromBE4;
    if es == [] {
      SplitIsOver(m, p);
      NothingFits();
    } else {
      AllFitUnfolds(es);
      if SplitFrom(m, p) == Elements(es) {
        SplitBegins(m, p, es);
      }
      if StandsFirst(m, p, es[0]) && Fits(es[0]) {
        SplitsFirst(m, p, es);
        SplitsExactlyAsTheyStand(m, p + 4 + |es[0]|, es[1..]);
      }
    }
  }

  lemma NothingFits()
    ensures AllFit([])
  {
  }

  // ---------- tilings ----------

  /** Elements behind given size words. */
  function TilesWith(ws: seq<bytes>, es: seq<bytes>): bytes
    requires |ws| == |es|
    decreases |es|
  {
    if es == [] then [] else ws[0] + es[0] + TilesWith(ws[1..], es[1..])
  }

  function Words(es: seq<bytes>): (ws: seq<bytes>)
    ensures |ws| == |es| && forall i :: 0 <= i < |ws| ==> ws[i] == BE4(|es[i]|)
  {
    seq(|es|, i requires 0 <= i < |es| => BE4(|es[i]|))
  }

  lemma {:induction false} TilesAreWords(es: seq<bytes>)
    ensures Tiles(es) == TilesWith(Words(es), es)
    decreases |es|
  {
    hide BE4;
    if es != [] {
      assert Words(es)[1..] == Words(es[1..]);
      TilesAreWords(es[1..]);
    }
  }

  predicate Mean(ws: seq<bytes>, es: seq<bytes>) {
    |ws| == |es| && forall i :: 0 <= i < |ws| ==> |ws[i]| == 4 && FromBE4(ws[i]) == |es[i]|
  }

  lemma WordsMean(es: seq<bytes>)
    requires AllFit(es)
    ensures Mean(Words(es), es)
  {
    hide BE4, FromBE4;
    forall i | 0 <= i < |es|
      ensures FromBE4(Words(es)[i]) == |es[i]|
    {
      assert Fits(es[i]);
      RoundTrip4(|es[i]|);
    }
  }

  lemma {:induction false} TiledStand(m: bytes, p: nat, ws: seq<bytes>, es: seq<bytes>)
    requires p <= |m| && Mean(ws, es) && m[p..] == TilesWith(ws, es)
    ensures StandAt(m, p, es)
    decreases |es|
  {
    hide FromBE4;
    if es == [] {
      assert |m[p..]| == 0;
    } else {
      PiecesBehind(m, p, ws[0], es[0], TilesWith(ws[1..], es[1..]));
      assert Mean(ws[1..], es[1..]);
      hide TilesWith;
      TiledStand(m, p + 4 + |es[0]|, ws[1..], es[1..]);
    }
  }

  lemma PiecesBehind(m: bytes, p: nat, a: bytes, b: bytes, c: bytes)
    requires p <= |m| && m[p..] == a + b + c
    ensures
      var q := p + |a|;
      q + |b| <= |m| && m[p..q] == a && m[q..q + |b|] == b && m[q + |b|..] == c
  {
    var q, t := p + |a|, m[p..];
    assert |t| == |m| - p;
    assert m[p..q] == t[..|a|] && m[q..q + |b|] == t[|a|..|a| + |b|] && m[q + |b|..] == t[|a| + |b|..];
    assert t[..|a|] == a && t[|a|..|a| + |b|] == b && t[|a| + |b|..] == c;
  }

  // ---------- delivering ----------

  /** What the listener gets of elements that are all processed. */
  function Deliveries(es: seq<bytes>): seq<Received> {
    if es == [] then [] else Process(es[0]).delivered + Deliveries(es[1..])
  }

  predicate Succeed(es: seq<bytes>) { forall i :: 0 <= i < |es| ==> Process(es[i]).error.None? }

  lemma {:induction false} AllAreDelivered(es: seq<bytes>, bound: nat)
    requires AllBelow(es, bound) && Succeed(es)
    ensures ProcessAll(es, bound) == Outcome(Deliveries(es), None)
    decreases |es|
  {
    hide Process;
    if es != [] {
      assert forall i :: 0 <= i < |es[1..]| ==> es[1..][i] == es[i + 1];
      AllAreDelivered(es[1..], bound);
    }
  }

  /** The first element that fails ends the bundle: what came before it and what it delivered itself stay
      delivered, its error is the packet's, and nothing behind it is looked at. */
  lemma {:induction false} FirstFailureEnds(es: seq<bytes>, bound: nat, i: nat)
    requires AllBelow(es, bound) && i < |es| && Succeed(es[..i]) && Process(es[i]).error.Some?
    ensures ProcessAll(es, bound) == Outcome(Deliveries(es[..i]) + Process(es[i]).delivered, Process(es[i]).error)
    decreases |es|
  {
    hide Process;
    if i == 0 {
      assert Deliveries(es[..0]) + Process(es[0]).delivered == Process(es[0]).delivered;
    } else {
      var front := es[..i];
      assert front[0] == es[0] && front[1..] == es[1..][..i - 1];
      assert forall j :: 0 <= j < |es[1..]| ==> es[1..][j] == es[j + 1];
      FirstFailureEnds(es[1..], bound, i - 1);
      assert Process(es[0]).delivered + (Deliveries(front[1..]) + Process(es[i]).delivered) ==
             (Process(es[0]).delivered + Deliveries(front[1..])) + Process(es[i]).delivered;
    }
  }

  /** A bundle of given elements: all of them are delivered in order, or those up to the first that fails. */
  lemma BundleMeansItsElements(m: bytes, es: seq<bytes>, i: nat)
    requires |m| >= 16 && Aligned(|m|) && m[..8] == BUNDLE_HEAD && StandAt(m, 16, es) && AllFit(es)
    requires i <= |es| && Succeed(es[..i]) && (i < |es| ==> Process(es[i]).error.Some?)
    ensures Process(m) ==
            if i < |es| then Outcome(Deliveries(es[..i]) + Process(es[i]).delivered, Process(es[i]).error)
            else Outcome(Deliveries(es), None)
  {
    assert m[0] == m[..8][0];
    hide Process, ProcessAll, Deliveries, StandAt, AllFit, SplitFrom;
    SplitsExactlyAsTheyStand(m, 16, es);
    ProcessUnfolds(m);
    if i < |es| {
      FirstFailureEnds(es, |m|, i);
    } else {
      assert es[..i] == es;
      AllAreDelivered(es, |m|);
    }
  }
}
