/** Lists cut at a separator, and joined again. */
module Separated {
  /** The list cut at every separator: one more piece than there are separators. */
  function Cut<T(==)>(s: seq<T>, sep: T): (r: seq<seq<T>>)
    ensures |r| > 0
  {
    if s == [] then [[]] else Front(s[0], Cut(s[1..], sep), sep)
  }

  /** An item before the cut pieces. */
  function Front<T(==)>(a: T, c: seq<seq<T>>, sep: T): (r: seq<seq<T>>)
    requires |c| > 0
    ensures |r| > 0
  {
    if a == sep then [[]] + c else [[a] + c[0]] + c[1..]
  }

  /** An item behind the cut pieces. */
  function Back<T(==)>(c: seq<seq<T>>, b: T, sep: T): (r: seq<seq<T>>)
    requires |c| > 0
    ensures |r| > 0
  {
    var n := |c| - 1;
    if b == sep then c + [[]] else c[..n] + [c[n] + [b]]
  }

  function Join<T>(pieces: seq<seq<T>>, sep: T): seq<T>
    requires |pieces| > 0
  {
    if |pieces| == 1 then pieces[0] else pieces[0] + [sep] + Join(pieces[1..], sep)
  }

  lemma {:induction false} CutJoins<T>(s: seq<T>, sep: T)
    ensures Join(Cut(s, sep), sep) == s
  {
    if s != [] {
      hide Join, Front;
      var rest := Cut(s[1..], sep);
      CutJoins(s[1..], sep);
      assert s == [s[0]] + s[1..];
      JoinFront(s[0], rest, sep);
    }
  }

  lemma JoinFront<T>(a: T, c: seq<seq<T>>, sep: T)
    requires |c| > 0
    ensures Join(Front(a, c, sep), sep) == [a] + Join(c, sep)
  {
    var all := Front(a, c, sep);
    hide Join;
    JoinUnfolds(all, sep);
    if a == sep {
      assert all[1..] == c && all[0] == [];
      NothingFirst(sep, Join(c, sep));
    } else {
      assert all[1..] == c[1..] && all[0] == [a] + c[0];
      JoinUnfolds(c, sep);
      if |c| > 1 {
        hide Front;
        Regroup(a, c[0], sep, Join(c[1..], sep));
      }
    }
  }

  lemma JoinUnfolds<T>(c: seq<seq<T>>, sep: T)
    requires |c| > 0
    ensures |c| == 1 ==> Join(c, sep) == c[0]
    ensures |c| > 1 ==> Join(c, sep) == c[0] + [sep] + Join(c[1..], sep)
  {
  }

  lemma NothingFirst<T>(sep: T, q: seq<T>)
    ensures [] + [sep] + q == [sep] + q
  {
  }

  lemma Regroup<T>(a: T, p: seq<T>, sep: T, q: seq<T>)
    ensures ([a] + p) + [sep] + q == [a] + (p + [sep] + q)
  {
  }

  lemma {:induction false} CutFrees<T>(s: seq<T>, sep: T)
    ensures AllFree(Cut(s, sep), sep)
  {
    if s != [] {
      CutFrees(s[1..], sep);
    }
  }

  predicate AllFree<T(==)>(pieces: seq<seq<T>>, sep: T) { forall i :: 0 <= i < |pieces| ==> sep !in pieces[i] }

  /** Nothing is lost by cutting, and no piece holds a separator. */
  lemma CutIsExact<T>(s: seq<T>, sep: T)
    ensures Join(Cut(s, sep), sep) == s && AllFree(Cut(s, sep), sep)
  {
    hide Cut, Join;
    CutJoins(s, sep);
    CutFrees(s, sep);
  }

  // ---------- one more item ----------

  lemma FrontThenBack<T>(a: T, c: seq<seq<T>>, b: T, sep: T)
    requires |c| > 0
    ensures Front(a, Back(c, b, sep), sep) == Back(Front(a, c, sep), b, sep)
  {
    var n := |c| - 1;
    if a == sep {
      assert b != sep ==> ([[]] + c)[..n + 1] == [[]] + c[..n];
    } else if b == sep {
      assert (c + [[]])[1..] == c[1..] + [[]];
    } else if n == 0 {
      assert [a] + (c[0] + [b]) == [a] + c[0] + [b];
      assert Front(a, Back(c, b, sep), sep) == [[a] + (c[0] + [b])];
    } else {
      var w := c[1..n];
      assert c[1..] == w + [c[n]];
      assert Back(c, b, sep)[1..] == w + [c[n] + [b]] && Back(c, b, sep)[0] == c[0];
      assert Front(a, c, sep) == [[a] + c[0]] + w + [c[n]];
    }
  }

  lemma OneItem<T>(b: T, sep: T)
    ensures Front(b, [[]], sep) == Back([[]], b, sep)
  {
    var one: seq<seq<T>> := [[]];
    assert one[..0] == [] && one[1..] == [];
    assert [b] + one[0] == [b] == one[0] + [b];
  }

  lemma {:induction false} CutSnoc<T>(s: seq<T>, b: T, sep: T)
    ensures Cut(s + [b], sep) == Back(Cut(s, sep), b, sep)
  {
    var t := s + [b];
    if s == [] {
      assert t[1..] == [];
      OneItem(b, sep);
    } else {
      hide Front, Back;
      assert t[1..] == s[1..] + [b] && t[0] == s[0];
      CutSnoc(s[1..], b, sep);
      FrontThenBack(s[0], Cut(s[1..], sep), b, sep);
    }
  }

  // ---------- joining, then cutting ----------

  lemma {:induction false} CutOfPlain<T>(p: seq<T>, sep: T)
    requires sep !in p
    ensures Cut(p, sep) == [p]
  {
    if p != [] {
      CutOfPlain(p[1..], sep);
      assert p == [p[0]] + p[1..];
    }
  }

  lemma {:induction false} CutBehindPlain<T>(p: seq<T>, t: seq<T>, sep: T)
    requires sep !in p
    ensures Cut(p + [sep] + t, sep) == [p] + Cut(t, sep)
    decreases |p|
  {
    var s := p + [sep] + t;
    if p == [] {
      assert s[0] == sep && s[1..] == t;
    } else {
      assert s[0] == p[0] && s[1..] == p[1..] + [sep] + t && p == [p[0]] + p[1..];
      CutBehindPlain(p[1..], t, sep);
    }
  }

  /** Joined pieces are cut into themselves again exactly when none holds a separator. */
  lemma {:induction false} JoinIsCutExactly<T>(pieces: seq<seq<T>>, sep: T)
    requires |pieces| > 0
    ensures Cut(Join(pieces, sep), sep) == pieces <==> AllFree(pieces, sep)
  {
    if AllFree(pieces, sep) {
      JoinOfFree(pieces, sep);
    } else {
      CutIsExact(Join(pieces, sep), sep);
    }
  }

  lemma {:induction false} JoinOfFree<T>(pieces: seq<seq<T>>, sep: T)
    requires |pieces| > 0 && AllFree(pieces, sep)
    ensures Cut(Join(pieces, sep), sep) == pieces
  {
    if |pieces| == 1 {
      CutOfPlain(pieces[0], sep);
    } else {
      JoinOfFree(pieces[1..], sep);
      CutBehindPlain(pieces[0], Join(pieces[1..], sep), sep);
    }
  }
}
