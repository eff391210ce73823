/** Lists without repetitions and the removal of one item. */
module Lists {
  predicate NoDup<T(==)>(s: seq<T>) { forall i, j :: 0 <= i < j < |s| ==> s[i] != s[j] }

  /** QList::removeOne: the first occurrence goes. */
  function Without<T(==)>(s: seq<T>, x: T): seq<T> {
    if s == [] then [] else if s[0] == x then s[1..] else [s[0]] + Without(s[1..], x)
  }

  lemma {:induction false} WithoutSnoc<T>(s: seq<T>, x: T, y: T)
    ensures Without(s + [x], y) == if y in s then Without(s, y) + [x] else if x == y then s else s + [x]
  {
    if s == [] {
      assert [x][1..] == [];
    } else {
      assert (s + [x])[1..] == s[1..] + [x];
      WithoutSnoc(s[1..], x, y);
    }
  }

  lemma {:induction false} WithoutSize<T>(s: seq<T>, x: T)
    ensures |Without(s, x)| == if x in s then |s| - 1 else |s|
    ensures x !in s ==> Without(s, x) == s
  {
    if s != [] {
      assert s == [s[0]] + s[1..];
      WithoutSize(s[1..], x);
    }
  }

  lemma WithoutAt<T>(s: seq<T>, x: T, i: nat)
    requires i < |s|
    ensures Without(s[i..], x) == if s[i] == x then s[i + 1..] else [s[i]] + Without(s[i + 1..], x)
  {
    assert s[i..][1..] == s[i + 1..];
  }

  lemma NoDupSnoc<T>(s: seq<T>, x: T)
    ensures NoDup(s + [x]) <==> NoDup(s) && x !in s
  {
    var t := s + [x];
    if NoDup(t) {
      forall i, j | 0 <= i < j < |s|
        ensures s[i] != s[j]
      {
        assert t[i] != t[j];
      }
      forall i | 0 <= i < |s|
        ensures s[i] != x
      {
        assert t[i] != t[|s|];
      }
    }
  }

  /** From a list without repetitions, exactly x goes. */
  lemma {:induction false} WithoutRemoves<T>(s: seq<T>, x: T)
    requires NoDup(s)
    ensures NoDup(Without(s, x))
    ensures forall y :: y in Without(s, x) <==> y in s && y != x
    decreases |s|
  {
    if s != [] {
      hide NoDup;
      var n := |s| - 1;
      assert s == s[..n] + [s[n]];
      NoDupSnoc(s[..n], s[n]);
      WithoutRemoves(s[..n], x);
      WithoutSnoc(s[..n], s[n], x);
      WithoutSize(s[..n], x);
      NoDupSnoc(Without(s[..n], x), s[n]);
    }
  }
}
