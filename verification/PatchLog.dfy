/**
 * The patch as one ordered list of links. Both of its indexes, the stored
 * JSON arrays and the slave lists of groups are views of this list.
 */
module PatchLog {
  import opened Lists

  type Name = string

  /** A link between a remote and a virtual remote or group. */
  datatype Link = Link(remote: Name, virt: Name)

  /** Which end of a link an index is keyed by. */
  datatype Side = ByRemote | ByVirtual

  function Key(l: Link, side: Side): Name { if side.ByRemote? then l.remote else l.virt }
  function Other(l: Link, side: Side): Name { if side.ByRemote? then l.virt else l.remote }
  function Make(side: Side, key: Name, other: Name): (l: Link)
    ensures Key(l, side) == key && Other(l, side) == other
  {
    if side.ByRemote? then Link(key, other) else Link(other, key)
  }

  type Log = seq<Link>
  type Index = map<Name, seq<Name>>

  /** The partners of a key, in the order in which the links were made. */
  function Pick(log: Log, side: Side, k: Name): seq<Name> {
    if log == [] then []
    else
      var l := log[|log| - 1];
      var before := Pick(log[..|log| - 1], side, k);
      if Key(l, side) == k then before + [Other(l, side)] else before
  }

  function Drop(log: Log, gone: set<Link>): Log {
    if log == [] then []
    else
      var l := log[|log| - 1];
      var before := Drop(log[..|log| - 1], gone);
      if l in gone then before else before + [l]
  }

  /** QMap::value: a missing key has the empty list. */
  function Value(m: Index, k: Name): seq<Name> { if k in m then m[k] else [] }

  /** The index holds exactly the partners of every key, and no empty lists. */
  ghost predicate Represents(m: Index, log: Log, side: Side) {
    && (forall k :: Value(m, k) == Pick(log, side, k))
    && (forall k :: k in m ==> m[k] != [])
  }

  // ---------- picking ----------

  lemma PickSnoc(log: Log, l: Link, side: Side, k: Name)
    ensures Pick(log + [l], side, k) ==
            if Key(l, side) == k then Pick(log, side, k) + [Other(l, side)] else Pick(log, side, k)
  {
    assert (log + [l])[..|log|] == log;
  }

  lemma {:induction false} PickContains(log: Log, side: Side, k: Name, x: Name)
    ensures x in Pick(log, side, k) <==> Make(side, k, x) in log
  {
    if log != [] {
      PickContains(log[..|log| - 1], side, k, x);
      assert log == log[..|log| - 1] + [log[|log| - 1]];
    }
  }

  lemma {:induction false} PickNoDup(log: Log, side: Side, k: Name)
    requires NoDup(log)
    ensures NoDup(Pick(log, side, k))
  {
    if log != [] {
      var n := |log| - 1;
      var l := log[n];
      assert log == log[..n] + [l];
      NoDupSnoc(log[..n], l);
      PickNoDup(log[..n], side, k);
      PickContains(log[..n], side, k, Other(l, side));
      NoDupSnoc(Pick(log[..n], side, k), Other(l, side));
      assert Make(side, Key(l, side), Other(l, side)) == l;
    }
  }

  // ---------- dropping ----------

  lemma DropSnoc(log: Log, l: Link, gone: set<Link>)
    ensures Drop(log + [l], gone) == if l in gone then Drop(log, gone) else Drop(log, gone) + [l]
  {
    assert (log + [l])[..|log|] == log;
  }

  lemma {:induction false} DropContains(log: Log, gone: set<Link>, l: Link)
    ensures l in Drop(log, gone) <==> l in log && l !in gone
  {
    if log != [] {
      DropContains(log[..|log| - 1], gone, l);
      assert log == log[..|log| - 1] + [log[|log| - 1]];
    }
  }

  lemma {:induction false} DropNoDup(log: Log, gone: set<Link>)
    requires NoDup(log)
    ensures NoDup(Drop(log, gone))
  {
    if log != [] {
      var n := |log| - 1;
      assert log == log[..n] + [log[n]];
      NoDupSnoc(log[..n], log[n]);
      DropNoDup(log[..n], gone);
      DropContains(log[..n], gone, log[n]);
      NoDupSnoc(Drop(log[..n], gone), log[n]);
    }
  }

  lemma {:induction false} DropTwice(log: Log, a: set<Link>, b: set<Link>)
    ensures Drop(Drop(log, a), b) == Drop(log, a + b)
  {
    if log != [] {
      var n := |log| - 1;
      DropTwice(log[..n], a, b);
      if log[n] !in a {
        var r := Drop(log[..n], a);
        assert (r + [log[n]])[..|r|] == r;
      }
    }
  }

  lemma {:induction false} DropNothing(log: Log, gone: set<Link>)
    requires forall l :: l in log ==> l !in gone
    ensures Drop(log, gone) == log
  {
    if log != [] {
      DropNothing(log[..|log| - 1], gone);
      assert log == log[..|log| - 1] + [log[|log| - 1]];
    }
  }

  /** Dropping one link takes one partner from one key's list, on either side. */
  lemma {:induction false} PickDropOne(log: Log, l: Link, side: Side, k: Name)
    requires NoDup(log)
    ensures
      Pick(Drop(log, {l}), side, k) ==
      if k == Key(l, side) then Without(Pick(log, side, k), Other(l, side)) else Pick(log, side, k)
  {
    if log != [] {
      hide Without, NoDup, Pick, Drop;
      var n := |log| - 1;
      var init, last := log[..n], log[n];
      assert log == init + [last];
      NoDupSnoc(init, last);
      DropSnoc(init, last, {l});
      PickSnoc(init, last, side, k);
      PickDropOne(init, l, side, k);
      PickSnoc(Drop(init, {l}), last, side, k);
      PickContains(init, side, k, Other(l, side));
      WithoutSnoc(Pick(init, side, k), Other(last, side), Other(l, side));
      WithoutSize(Pick(init, side, k), Other(l, side));
      assert Make(side, Key(l, side), Other(l, side)) == l;
    }
  }

  /** All links of one key. */
  function LinksOf(log: Log, side: Side, k: Name): set<Link> {
    set l | l in log && Key(l, side) == k
  }

  lemma {:induction false} PickDropKey(log: Log, gone: set<Link>, side: Side, k: Name, k': Name)
    requires forall l :: l in log ==> (l in gone <==> Key(l, side) == k)
    ensures Pick(Drop(log, gone), side, k') == if k' == k then [] else Pick(log, side, k')
  {
    if log != [] {
      var n := |log| - 1;
      assert log == log[..n] + [log[n]];
      PickDropKey(log[..n], gone, side, k, k');
      PickSnoc(Drop(log[..n], gone), log[n], side, k');
    }
  }

  // ---------- keeping an index up to date ----------

  /** The entry of k becomes l; an empty list is erased. */
  function Updated(m: Index, k: Name, l: seq<Name>): Index { if l == [] then m - {k} else m[k := l] }

  lemma UpdatedRepresents(m: Index, log: Log, log': Log, side: Side, k: Name)
    requires Represents(m, log, side)
    requires forall k' :: k' != k ==> Pick(log', side, k') == Pick(log, side, k')
    ensures Represents(Updated(m, k, Pick(log', side, k)), log', side)
  {
    hide Pick;
    var m' := Updated(m, k, Pick(log', side, k));
    forall k'
      ensures Value(m', k') == Pick(log', side, k')
    {
      assert k' != k ==> Value(m', k') == Value(m, k');
    }
  }

  lemma IndexGains(m: Index, log: Log, l: Link, side: Side)
    requires Represents(m, log, side)
    ensures Represents(m[Key(l, side) := Value(m, Key(l, side)) + [Other(l, side)]], log + [l], side)
  {
    hide Pick;
    var k := Key(l, side);
    forall k'
      ensures k' != k ==> Pick(log + [l], side, k') == Pick(log, side, k')
    {
      PickSnoc(log, l, side, k');
    }
    PickSnoc(log, l, side, k);
    UpdatedRepresents(m, log, log + [l], side, k);
  }

  lemma IndexLoses(m: Index, log: Log, l: Link, side: Side)
    requires Represents(m, log, side) && NoDup(log)
    ensures
      var k := Key(l, side);
      Represents(Updated(m, k, Without(Value(m, k), Other(l, side))), Drop(log, {l}), side)
  {
    hide Pick, Drop, Without;
    var k := Key(l, side);
    forall k'
      ensures k' != k ==> Pick(Drop(log, {l}), side, k') == Pick(log, side, k')
    {
      PickDropOne(log, l, side, k');
    }
    PickDropOne(log, l, side, k);
    UpdatedRepresents(m, log, Drop(log, {l}), side, k);
  }

  lemma IndexLosesKey(m: Index, log: Log, side: Side, k: Name)
    requires Represents(m, log, side)
    ensures Represents(m - {k}, Drop(log, LinksOf(log, side, k)), side)
  {
    hide Pick, Drop;
    var log' := Drop(log, LinksOf(log, side, k));
    forall k'
      ensures Pick(log', side, k') == if k' == k then [] else Pick(log, side, k')
    {
      PickDropKey(log, LinksOf(log, side, k), side, k, k');
    }
    UpdatedRepresents(m, log, log', side, k);
  }

  /** Two indexes of one log are mutual inverses, and no list repeats a name. */
  lemma IndexesAreInverse(rToV: Index, vToR: Index, log: Log, r: Name, v: Name)
    requires NoDup(log) && Represents(rToV, log, ByRemote) && Represents(vToR, log, ByVirtual)
    ensures v in Value(rToV, r) <==> r in Value(vToR, v)
    ensures NoDup(Value(rToV, r)) && NoDup(Value(vToR, v))
  {
    PickContains(log, ByRemote, r, v);
    PickContains(log, ByVirtual, v, r);
    PickNoDup(log, ByRemote, r);
    PickNoDup(log, ByVirtual, v);
  }

  /** Only what is dropped of a key's own links matters to its list. */
  lemma {:induction false} PickDropAgrees(log: Log, a: set<Link>, b: set<Link>, side: Side, k: Name)
    requires forall l :: l in log && Key(l, side) == k ==> (l in a <==> l in b)
    ensures Pick(Drop(log, a), side, k) == Pick(Drop(log, b), side, k)
  {
    if log != [] {
      var n := |log| - 1;
      assert log == log[..n] + [log[n]];
      PickDropAgrees(log[..n], a, b, side, k);
      PickSnoc(Drop(log[..n], a), log[n], side, k);
      PickSnoc(Drop(log[..n], b), log[n], side, k);
    }
  }

  // ---------- links cut one by one ----------

  function Opposite(side: Side): Side { if side.ByRemote? then ByVirtual else ByRemote }

  /** The links of k to each of `others`. */
  function Gone(side: Side, k: Name, others: seq<Name>): set<Link> {
    set x | x in others :: Make(side, k, x)
  }

  lemma GoneIsAll(log: Log, side: Side, k: Name)
    ensures Gone(side, k, Pick(log, side, k)) == LinksOf(log, side, k)
  {
    hide Pick;
    var xs := Pick(log, side, k);
    forall l: Link
      ensures l in Gone(side, k, xs) <==> l in LinksOf(log, side, k)
    {
      PickContains(log, side, k, Other(l, side));
      assert Key(l, side) == k ==> Make(side, k, Other(l, side)) == l;
    }
  }

  /** The state after i cuts, and the link that is cut next. */
  lemma CutStep(log: Log, side: Side, k: Name, i: nat)
    requires NoDup(log) && i < |Pick(log, side, k)|
    ensures
      var xs := Pick(log, side, k);
      var l, cur := Make(side, k, xs[i]), Drop(log, Gone(side, k, xs[..i]));
      && NoDup(cur) && l in cur
      && Drop(cur, {l}) == Drop(log, Gone(side, k, xs[..i + 1]))
  {
    hide Pick, Drop;
    var xs := Pick(log, side, k);
    var l, gone := Make(side, k, xs[i]), Gone(side, k, xs[..i]);
    PickNoDup(log, side, k);
    DropNoDup(log, gone);
    PickContains(log, side, k, xs[i]);
    DropContains(log, gone, l);
    DropTwice(log, gone, {l});
    assert xs[..i + 1] == xs[..i] + [xs[i]];
    assert gone + {l} == Gone(side, k, xs[..i + 1]);
  }

  /** Once the link to xs[i] is cut, the list on its other side is final. */
  lemma CutIsFinal(log: Log, side: Side, k: Name, i: nat)
    requires i < |Pick(log, side, k)|
    ensures
      var xs := Pick(log, side, k);
      Pick(Drop(log, Gone(side, k, xs[..i + 1])), Opposite(side), xs[i]) ==
      Pick(Drop(log, LinksOf(log, side, k)), Opposite(side), xs[i])
  {
    hide Pick, Drop;
    var xs := Pick(log, side, k);
    var gone := Gone(side, k, xs[..i + 1]);
    GoneIsAll(log, side, k);
    assert xs[..i + 1][i] == xs[i];
    assert Make(side, k, xs[i]) in gone;
    forall l | l in log && Key(l, Opposite(side)) == xs[i]
      ensures l in gone <==> l in LinksOf(log, side, k)
    {
      assert Key(l, side) == k ==> l == Make(side, k, xs[i]);
    }
    PickDropAgrees(log, gone, LinksOf(log, side, k), Opposite(side), xs[i]);
  }

  lemma NothingGone(log: Log, side: Side, k: Name)
    ensures Drop(log, Gone(side, k, [])) == log
    ensures Pick(log, side, k) == [] ==> Drop(log, LinksOf(log, side, k)) == log
  {
    hide Pick;
    DropNothing(log, Gone(side, k, []));
    GoneIsAll(log, side, k);
  }
}
