/**
 * The patch: two indexes and a stored JSON object, all kept by hand, and the
 * groups that cache their own slave lists.
 */
module Patch {
  import opened Lists
  import opened PatchLog
  import opened PatchGroups

  /** The position search over a JSON array, and the erasure of what it found. */
  method EraseFirst(a: seq<Name>, x: Name) returns (b: seq<Name>)
    ensures b == Without(a, x)
  {
    hide Without;
    assert a[0..] == a;
    for i := 0 to |a|
      invariant Without(a, x) == a[..i] + Without(a[i..], x)
    {
      WithoutAt(a, x, i);
      if a[i] == x {
        return a[..i] + a[i + 1..];
      }
      assert a[..i] + ([a[i]] + Without(a[i + 1..], x)) == a[..i + 1] + Without(a[i + 1..], x);
    }
    assert a[|a|..] == [];
    WithoutSize<Name>([], x);
    return a;
  }

  /** The list of k is empty now; all others are as before. */
  ghost predicate Emptied(m: Index, m': Index, k: Name) {
    forall j :: Value(m', j) == if j == k then [] else Value(m, j)
  }

  /** x has gone from every list, and nothing else. */
  ghost predicate LostByAll(m: Index, m': Index, x: Name) {
    forall j :: Value(m', j) == Without(Value(m, j), x)
  }

  /** Whatever represents the links that disconnectRemote leaves. */
  lemma RemoteIsGone(w: World, rToV: Index, vToR: Index, r: Name)
    requires NoDup(w.log) && Represents(rToV, w.log, ByRemote) && Represents(vToR, w.log, ByVirtual)
    ensures forall m :: Represents(m, Apply(w, DisconnectRemote(r)).log, ByRemote) ==> Emptied(rToV, m, r)
    ensures forall m :: Represents(m, Apply(w, DisconnectRemote(r)).log, ByVirtual) ==> LostByAll(vToR, m, r)
  {
    hide Pick, Without, NoDup, Apply;
    forall k
      ensures Pick(Apply(w, DisconnectRemote(r)).log, ByRemote, k) == if k == r then [] else Value(rToV, k)
      ensures Pick(Apply(w, DisconnectRemote(r)).log, ByVirtual, k) == Without(Value(vToR, k), r)
    {
      AfterDisconnectRemote(w, r, k);
    }
  }

  lemma VirtualIsGone(w: World, rToV: Index, vToR: Index, v: Name)
    requires NoDup(w.log) && Represents(rToV, w.log, ByRemote) && Represents(vToR, w.log, ByVirtual)
    ensures forall m :: Represents(m, Apply(w, DisconnectVirtual(v)).log, ByVirtual) ==> Emptied(vToR, m, v)
    ensures forall m :: Represents(m, Apply(w, DisconnectVirtual(v)).log, ByRemote) ==> LostByAll(rToV, m, v)
  {
    hide Pick, Without, NoDup, Apply;
    forall k
      ensures Pick(Apply(w, DisconnectVirtual(v)).log, ByVirtual, k) == if k == v then [] else Value(vToR, k)
      ensures Pick(Apply(w, DisconnectVirtual(v)).log, ByRemote, k) == Without(Value(rToV, k), v)
    {
      AfterDisconnectVirtual(w, v, k);
    }
  }

  class Patch {
    var remoteToVirtual: Index
    var virtualToRemote: Index
    var json: Index
    var groups: Index       // the slave list of every group of the virtual network
    ghost var log: Log

    /** Both indexes are views of one list of distinct links. */
    ghost predicate Indexed()
      reads this
    {
      NoDup(log) && Represents(remoteToVirtual, log, ByRemote) && Represents(virtualToRemote, log, ByVirtual)
    }

    /** ... and so is what would be saved. */
    ghost predicate Valid()
      reads this
    {
      Indexed() && json == remoteToVirtual
    }

    ghost function View(): World
      reads this
    {
      World(log, groups)
    }

    constructor ()
      ensures Valid() && log == [] && groups == map[]
    {
      remoteToVirtual, virtualToRemote, json, groups, log := map[], map[], map[], map[], [];
    }

    /** Links and cached lists agree in both directions, without duplicates or empty lists. */
    lemma MutualInverses(r: Name, v: Name)
      requires Valid()
      ensures v in Value(remoteToVirtual, r) <==> r in Value(virtualToRemote, v)
      ensures r in remoteToVirtual ==> remoteToVirtual[r] != [] && NoDup(remoteToVirtual[r]) && json[r] == remoteToVirtual[r]
      ensures v in virtualToRemote ==> virtualToRemote[v] != [] && NoDup(virtualToRemote[v])
    {
      IndexesAreInverse(remoteToVirtual, virtualToRemote, log, r, v);
    }

    /** groupByName and VirtualGroup::removeSlave with its updateFromPatch */
    method RemoveSlave(v: Name, r: Name)
      modifies this`groups
      ensures groups == Refresh(old(groups), v, r, Value(virtualToRemote, v))
    {
      if v in groups {
        var slaves := Without(groups[v], r);
        var updated := Value(virtualToRemote, v);
        if |slaves| != |updated| {
          slaves := updated;
        }
        groups := groups[v := slaves];
      }
    }

    method CreateGroup(g: Name) returns (ok: bool)
      requires Valid()
      modifies this`groups
      ensures Valid() && View() == Apply(old(View()), PatchGroups.CreateGroup(g))
      ensures ok == Succeeds(old(View()), PatchGroups.CreateGroup(g))
    {
      ok := g !in groups;
      if ok {
        groups := groups[g := FromPatch([], Value(virtualToRemote, g))];
      }
    }

    /** addEntry: the indexes and the group, but not the JSON. */
    method AddEntry(r: Name, v: Name) returns (ok: bool)
      requires Indexed()
      modifies this`remoteToVirtual, this`virtualToRemote, this`groups, this`log
      ensures Indexed() && View() == Apply(old(View()), Connect(r, v)) && ok == Succeeds(old(View()), Connect(r, v))
      ensures remoteToVirtual == if ok then old(remoteToVirtual)[r := Value(old(remoteToVirtual), r) + [v]]
                                 else old(remoteToVirtual)
      ensures ok <==> v !in Value(old(remoteToVirtual), r)
      ensures forall k :: Value(remoteToVirtual, k) == Value(old(remoteToVirtual), k) + if ok && k == r then [v] else []
      ensures forall k :: Value(virtualToRemote, k) == Value(old(virtualToRemote), k) + if ok && k == v then [r] else []
    {
      hide Pick;
      ghost var l, log0 := Link(r, v), log;
      PickContains(log, ByRemote, r, v);
      PickContains(log, ByVirtual, v, r);
      IndexGains(remoteToVirtual, log, l, ByRemote);
      IndexGains(virtualToRemote, log, l, ByVirtual);
      NoDupSnoc(log, l);
      if v in Value(remoteToVirtual, r) {
        return false;
      }
      remoteToVirtual := remoteToVirtual[r := Value(remoteToVirtual, r) + [v]];
      if r in Value(virtualToRemote, v) {
        assert false;   // the other index would already know the link
      }
      virtualToRemote := virtualToRemote[v := Value(virtualToRemote, v) + [r]];
      log := log + [l];
      RemoveSlave(v, r);
      ok := true;
    }

    method AddLink(r: Name, v: Name) returns (ok: bool)
      requires Valid()
      modifies this
      ensures Valid() && View() == Apply(old(View()), Connect(r, v)) && ok == Succeeds(old(View()), Connect(r, v))
      ensures ok <==> v !in Value(old(remoteToVirtual), r)
      ensures forall k :: Value(remoteToVirtual, k) == Value(old(remoteToVirtual), k) + if ok && k == r then [v] else []
      ensures forall k :: Value(virtualToRemote, k) == Value(old(virtualToRemote), k) + if ok && k == v then [r] else []
    {
      hide Pick, Represents, NoDup, Refresh;
      ok := AddEntry(r, v);
      if ok {
        json := json[r := Value(json, r) + [v]];
      }
    }

    method RemoveLink(r: Name, v: Name) returns (ok: bool)
      requires Valid()
      modifies this
      ensures Valid() && View() == Apply(old(View()), Disconnect(r, v)) && ok == Succeeds(old(View()), Disconnect(r, v))
      ensures ok <==> v in Value(old(remoteToVirtual), r)
      ensures forall k :: Value(remoteToVirtual, k) ==
                          if ok && k == r then Without(Value(old(remoteToVirtual), r), v) else Value(old(remoteToVirtual), k)
      ensures forall k :: Value(virtualToRemote, k) ==
                          if ok && k == v then Without(Value(old(virtualToRemote), v), r) else Value(old(virtualToRemote), k)
    {
      hide Pick, NoDup, Without;
      ghost var l := Link(r, v);
      PickContains(log, ByRemote, r, v);
      PickContains(log, ByVirtual, v, r);
      if r !in remoteToVirtual || v !in remoteToVirtual[r] {
        return false;
      }
      IndexLoses(remoteToVirtual, log, l, ByRemote);
      IndexLoses(virtualToRemote, log, l, ByVirtual);
      DropNoDup(log, {l});
      RemoveFromEntry(r, v);
      assert Value(virtualToRemote, v) != [];
      var rs := Without(virtualToRemote[v], r);
      virtualToRemote := if rs == [] then virtualToRemote - {v} else virtualToRemote[v := rs];
      log := Drop(log, {l});
      RemoveSlave(v, r);
      ok := true;
    }

    /** Takes v from the list and the JSON array of r, erasing what becomes empty. */
    method RemoveFromEntry(r: Name, v: Name)
      requires json == remoteToVirtual && r in remoteToVirtual
      modifies this`remoteToVirtual, this`json
      ensures remoteToVirtual == Updated(old(remoteToVirtual), r, Without(old(remoteToVirtual)[r], v))
      ensures json == remoteToVirtual
    {
      var a := EraseFirst(json[r], v);
      json := if a != [] then json[r := a] else json - {r};
      var vs := Without(remoteToVirtual[r], v);
      remoteToVirtual := if vs == [] then remoteToVirtual - {r} else remoteToVirtual[r := vs];
    }

    method RemoveRemoteLinks(r: Name) returns (ok: bool)
      requires Valid()
      modifies this
      ensures Valid() && View() == Apply(old(View()), DisconnectRemote(r)) && ok == Succeeds(old(View()), DisconnectRemote(r))
      ensures ok <==> r in old(remoteToVirtual)
      ensures Emptied(old(remoteToVirtual), remoteToVirtual, r) && LostByAll(old(virtualToRemote), virtualToRemote, r)
    {
      hide Pick, Drop, NoDup, Without, Refresh, Gone, LinksOf, Emptied, LostByAll;
      RemoteIsGone(View(), remoteToVirtual, virtualToRemote, r);
      NothingGone(log, ByRemote, r);
      if r !in remoteToVirtual {
        return false;
      }
      var vs := remoteToVirtual[r];
      ghost var left, cur := Drop(log, LinksOf(log, ByRemote, r)), log;
      DropNoDup(log, LinksOf(log, ByRemote, r));
      IndexLosesKey(remoteToVirtual, log, ByRemote, r);
      for i := 0 to |vs|
        invariant json == remoteToVirtual == old(remoteToVirtual) && log == old(log)
        invariant cur == Drop(log, Gone(ByRemote, r, vs[..i])) && Represents(virtualToRemote, cur, ByVirtual)
        invariant groups == RefreshAll(old(groups), vs[..i], r, left)
      {
        var v := vs[i];
        ghost var l := Link(r, v);
        CutStep(log, ByRemote, r, i);
        IndexLoses(virtualToRemote, cur, l, ByVirtual);
        CutIsFinal(log, ByRemote, r, i);
        RemoveFromVirtual(v, r);
        cur := Drop(cur, {l});
        assert Value(virtualToRemote, v) == Pick(left, ByVirtual, v);
        RemoveSlave(v, r);
        assert vs[..i + 1][..i] == vs[..i] && vs[..i + 1][i] == v;
      }
      assert vs[..|vs|] == vs;
      GoneIsAll(log, ByRemote, r);
      json := json - {r};
      remoteToVirtual := remoteToVirtual - {r};
      log := left;
      ok := true;
    }

    method RemoveFromVirtual(v: Name, r: Name)
      modifies this`virtualToRemote
      ensures virtualToRemote == Updated(old(virtualToRemote), v, Without(Value(old(virtualToRemote), v), r))
    {
      if v in virtualToRemote {
        var rs := Without(virtualToRemote[v], r);
        virtualToRemote := if rs == [] then virtualToRemote - {v} else virtualToRemote[v := rs];
      }
    }

    /** Groups are refreshed in the loop, before the entry they are refreshed from is erased. */
    method RemoveVirtualLinks(v: Name) returns (ok: bool)
      requires Valid()
      modifies this
      ensures Valid() && View() == Apply(old(View()), DisconnectVirtual(v)) && ok == Succeeds(old(View()), DisconnectVirtual(v))
      ensures ok <==> v in old(virtualToRemote)
      ensures Emptied(old(virtualToRemote), virtualToRemote, v) && LostByAll(old(remoteToVirtual), remoteToVirtual, v)
    {
      hide Pick, Drop, NoDup, Without, Refresh, Gone, LinksOf, Emptied, LostByAll;
      VirtualIsGone(View(), remoteToVirtual, virtualToRemote, v);
      NothingGone(log, ByVirtual, v);
      if v !in virtualToRemote {
        return false;
      }
      var rs := virtualToRemote[v];
      ghost var left, cur := Drop(log, LinksOf(log, ByVirtual, v)), log;
      DropNoDup(log, LinksOf(log, ByVirtual, v));
      IndexLosesKey(virtualToRemote, log, ByVirtual, v);
      for i := 0 to |rs|
        invariant json == remoteToVirtual && virtualToRemote == old(virtualToRemote) && log == old(log)
        invariant cur == Drop(log, Gone(ByVirtual, v, rs[..i])) && Represents(remoteToVirtual, cur, ByRemote)
        invariant groups == Churn(old(groups), v, rs[..i], rs)
      {
        var r := rs[i];
        ghost var l := Link(r, v);
        CutStep(log, ByVirtual, v, i);
        IndexLoses(remoteToVirtual, cur, l, ByRemote);
        PickContains(cur, ByRemote, r, v);
        assert v in Value(remoteToVirtual, r);
        RemoveFromEntry(r, v);
        cur := Drop(cur, {l});
        RemoveSlave(v, r);
        assert rs[..i + 1][..i] == rs[..i] && rs[..i + 1][i] == r;
      }
      assert rs[..|rs|] == rs;
      GoneIsAll(log, ByVirtual, v);
      virtualToRemote := virtualToRemote - {v};
      log := left;
      ok := true;
    }

    /** parseArray: one stored array of the saved file; stops at the first link that exists already. */
    method ParseArray(r: Name, vs: seq<Name>) returns (ok: bool)
      requires Indexed()
      modifies this`remoteToVirtual, this`virtualToRemote, this`groups, this`log
      ensures Indexed() && View() == Connected(old(View()), r, vs)
      ensures
        var have := Value(old(remoteToVirtual), r);
        && remoteToVirtual == WithNames(old(remoteToVirtual), r, have + Taken(have, vs))
        && (ok <==> Taken(have, vs) == vs)
    {
      hide Represents, NoDup, Apply, Connected, Taken, Parsing, WithNames;
      ghost var w0, m0 := View(), remoteToVirtual;
      ParsingStarts(w0, m0, r, vs);
      for i := 0 to |vs|
        invariant Indexed() && Parsing(w0, View(), m0, remoteToVirtual, r, vs, i)
      {
        ghost var w, m := View(), remoteToVirtual;
        AlreadyLinked(r, vs[i]);
        ok := AddEntry(r, vs[i]);
        if !ok {
          ParsingStops(w0, w, m0, m, r, vs, i);
          ConnectRefused(w, r, vs[i]);
          return;
        }
        ParsingGoesOn(w0, w, m0, m, r, vs, i);
      }
      ParsingEnds(w0, View(), m0, remoteToVirtual, r, vs);
      ok := true;
    }

    lemma AlreadyLinked(r: Name, v: Name)
      requires Indexed()
      ensures Link(r, v) in log <==> v in Value(remoteToVirtual, r)
    {
      PickContains(log, ByRemote, r, v);
    }

    /** populateNode for the patch: every array is parsed, whatever parseArray answers, and the object is
        then stored as it is. */
    method Load(keys: seq<Name>, data: Index)
      requires Valid() && log == []
      requires NoDup(keys) && forall k :: k in keys <==> k in data
      modifies this
      ensures Indexed() && json == data && View() == Loaded(old(View()), keys, data)
      ensures forall k :: k in data ==> Value(remoteToVirtual, k) == Taken([], data[k])
      ensures Valid() <==> forall k :: k in data ==> data[k] != [] && NoDup(data[k])
    {
      hide NoDup, Represents, Taken, Connected, Loaded, Loading, WithNames;
      NothingLinked();
      ghost var w0 := View();
      LoadingStarts(w0, keys, data);
      for i := 0 to |keys|
        invariant Indexed() && Loading(w0, View(), remoteToVirtual, keys, data, i)
      {
        ghost var w, m := View(), remoteToVirtual;
        var _ := ParseArray(keys[i], data[keys[i]]);
        LoadingGoesOn(w0, w, m, keys, data, i);
      }
      json := data;
      LoadingEnds(w0, View(), remoteToVirtual, keys, data);
      NoEmptyLists();
      LoadedIsStoredExactly(remoteToVirtual, data);
    }

    lemma NoEmptyLists()
      requires Indexed()
      ensures forall k :: k in remoteToVirtual ==> remoteToVirtual[k] != []
    {
    }

    /** A patch without links has empty indexes. */
    lemma NothingLinked()
      requires Indexed() && log == []
      ensures remoteToVirtual == map[] && virtualToRemote == map[]
    {
      forall k
        ensures k !in remoteToVirtual && k !in virtualToRemote
      {
        assert Value(remoteToVirtual, k) == [] && Value(virtualToRemote, k) == [];
      }
    }
  }

  /** The entry of r is `names`, if there are any. */
  function WithNames(m: Index, r: Name, names: seq<Name>): Index { if names == [] then m else m[r := names] }

  lemma NamesElsewhere(m: Index, r: Name, names: seq<Name>)
    requires r !in m
    ensures
      var m' := WithNames(m, r, names);
      && Value(m', r) == names
      && (forall k :: k != r ==> Value(m', k) == Value(m, k))
      && (forall k :: k in m' ==> k in m || k == r)
  {
  }

  /** The first i names of vs have been linked. */
  ghost predicate Parsing(w0: World, w: World, m0: Index, m: Index, r: Name, vs: seq<Name>, i: nat) {
    var have := Value(m0, r);
    && i <= |vs|
    && Connected(w, r, vs[i..]) == Connected(w0, r, vs)
    && m == WithNames(m0, r, have + vs[..i]) && Value(m, r) == have + vs[..i]
    && Taken(have, vs) == vs[..i] + Taken(have + vs[..i], vs[i..])
  }

  lemma ParsingStarts(w0: World, m0: Index, r: Name, vs: seq<Name>)
    ensures Parsing(w0, w0, m0, m0, r, vs, 0)
  {
    var have := Value(m0, r);
    assert vs[0..] == vs && vs[..0] == [] && have + vs[..0] == have;
    assert WithNames(m0, r, have) == m0;
    assert [] + Taken(have, vs) == Taken(have, vs);
  }

  lemma ConnectRefused(w: World, r: Name, v: Name)
    requires Link(r, v) in w.log
    ensures Apply(w, Connect(r, v)) == w
  {
  }

  lemma ConnectedUnfolds(w: World, r: Name, vs: seq<Name>, i: nat)
    requires i < |vs| && Link(r, vs[i]) !in w.log
    ensures Connected(w, r, vs[i..]) == Connected(Apply(w, Connect(r, vs[i])), r, vs[i + 1..])
  {
    hide Apply;
    assert vs[i..][1..] == vs[i + 1..];
  }

  lemma TakenUnfolds(have: seq<Name>, vs: seq<Name>, i: nat)
    requires i < |vs| && vs[i] !in have + vs[..i]
    ensures vs[..i] + Taken(have + vs[..i], vs[i..]) == vs[..i + 1] + Taken(have + vs[..i + 1], vs[i + 1..])
  {
    assert vs[i..][1..] == vs[i + 1..];
    assert have + vs[..i] + [vs[i]] == have + vs[..i + 1] && vs[..i] + [vs[i]] == vs[..i + 1];
  }

  lemma ParsingGoesOn(w0: World, w: World, m0: Index, m: Index, r: Name, vs: seq<Name>, i: nat)
    requires i < |vs| && Parsing(w0, w, m0, m, r, vs, i)
    requires Link(r, vs[i]) !in w.log && vs[i] !in Value(m, r)
    ensures Parsing(w0, Apply(w, Connect(r, vs[i])), m0, m[r := Value(m, r) + [vs[i]]], r, vs, i + 1)
  {
    hide Apply, Connected, Taken;
    var have := Value(m0, r);
    ConnectedUnfolds(w, r, vs, i);
    TakenUnfolds(have, vs, i);
    assert have + vs[..i] + [vs[i]] == have + vs[..i + 1];
    assert WithNames(m0, r, have + vs[..i])[r := have + vs[..i + 1]] == WithNames(m0, r, have + vs[..i + 1]);
  }

  lemma ParsingStops(w0: World, w: World, m0: Index, m: Index, r: Name, vs: seq<Name>, i: nat)
    requires i < |vs| && Parsing(w0, w, m0, m, r, vs, i)
    requires Link(r, vs[i]) in w.log && vs[i] in Value(m, r)
    ensures
      var have := Value(m0, r);
      w == Connected(w0, r, vs) && m == WithNames(m0, r, have + Taken(have, vs)) && Taken(have, vs) != vs
  {
    hide Apply;
    assert vs[..i] + [] == vs[..i];
  }

  lemma ParsingEnds(w0: World, w: World, m0: Index, m: Index, r: Name, vs: seq<Name>)
    requires Parsing(w0, w, m0, m, r, vs, |vs|)
    ensures
      var have := Value(m0, r);
      w == Connected(w0, r, vs) && m == WithNames(m0, r, have + Taken(have, vs)) && Taken(have, vs) == vs
  {
    hide Apply;
    assert vs[|vs|..] == [] && vs[..|vs|] == vs && vs + [] == vs;
  }

  /** The arrays of the first i keys have been parsed. */
  ghost predicate Loading(w0: World, w: World, m: Index, keys: seq<Name>, data: Index, i: nat) {
    && i <= |keys| && (forall k :: k in keys <==> k in data)
    && Loaded(w, keys[i..], data) == Loaded(w0, keys, data)
    && Filled(m, keys[..i], data)
  }

  /** The index holds what could be taken of the arrays of these keys. */
  predicate Filled(m: Index, keys: seq<Name>, data: Index) {
    && (forall k :: k in m ==> k in keys)
    && (forall k :: k in keys ==> k in data && Value(m, k) == Taken([], data[k]))
  }

  lemma FilledGrows(m: Index, keys: seq<Name>, data: Index, k: Name)
    requires Filled(m, keys, data) && k in data && k !in keys
    ensures Value(m, k) == [] && Filled(WithNames(m, k, Taken([], data[k])), keys + [k], data)
  {
    hide Taken, WithNames;
    NamesElsewhere(m, k, Taken([], data[k]));
  }

  lemma LoadingStarts(w0: World, keys: seq<Name>, data: Index)
    requires forall k :: k in keys <==> k in data
    ensures Loading(w0, w0, map[], keys, data, 0)
  {
    assert keys[0..] == keys;
  }

  lemma LoadedUnfolds(w: World, keys: seq<Name>, data: Index, i: nat)
    requires i < |keys| && forall k :: k in keys ==> k in data
    ensures Loaded(w, keys[i..], data) == Loaded(Connected(w, keys[i], data[keys[i]]), keys[i + 1..], data)
  {
    hide Connected;
    assert keys[i..][0] == keys[i] && keys[i..][1..] == keys[i + 1..];
  }

  lemma LoadingGoesOn(w0: World, w: World, m: Index, keys: seq<Name>, data: Index, i: nat)
    requires NoDup(keys) && i < |keys| && Loading(w0, w, m, keys, data, i)
    ensures keys[i] in data
    ensures
      var k := keys[i];
      var have := Value(m, k);
      Loading(w0, Connected(w, k, data[k]), WithNames(m, k, have + Taken(have, data[k])), keys, data, i + 1)
  {
    LaterKeyIsNew(keys, i);
    hide NoDup, Connected, Taken, Loaded, WithNames, Filled, Value;
    var k := keys[i];
    FilledGrows(m, keys[..i], data, k);
    assert [] + Taken([], data[k]) == Taken([], data[k]);
    assert keys[..i + 1] == keys[..i] + [k];
    LoadedUnfolds(w, keys, data, i);
  }

  lemma LoadingEnds(w0: World, w: World, m: Index, keys: seq<Name>, data: Index)
    requires Loading(w0, w, m, keys, data, |keys|)
    ensures w == Loaded(w0, keys, data)
    ensures forall k :: k in m ==> k in data
    ensures forall k :: k in data ==> Value(m, k) == Taken([], data[k])
  {
    hide Connected, Taken;
    assert keys[|keys|..] == [] && keys[..|keys|] == keys;
  }

  /** What was loaded is what is stored exactly when no stored array is empty or repeats a name. */
  lemma LoadedIsStoredExactly(m: Index, data: Index)
    requires forall k :: k in m ==> k in data && m[k] != []
    requires forall k :: k in data ==> Value(m, k) == Taken([], data[k])
    ensures data == m <==> forall k :: k in data ==> data[k] != [] && NoDup(data[k])
  {
    hide Taken, NoDup;
    NoDupOfNothing();
    forall k | k in data
      ensures Taken([], data[k]) == data[k] <==> NoDup(data[k])
    {
      TakenIsAllExactly([], data[k]);
      assert [] + data[k] == data[k];
    }
    if data == m {
      assert forall k :: k in data ==> m[k] == data[k] == Value(m, k);
    }
    if forall k :: k in data ==> data[k] != [] && NoDup(data[k]) {
      assert forall k :: k in data ==> k in m && m[k] == data[k];
      assert data == m;
    }
  }

  lemma NoDupOfNothing()
    ensures NoDup<Name>([])
  {
  }

  lemma LaterKeyIsNew(keys: seq<Name>, i: nat)
    requires NoDup(keys) && i < |keys|
    ensures keys[i] !in keys[..i]
  {
  }
}
