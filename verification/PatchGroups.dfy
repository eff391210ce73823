/**
 * Runs of patch commands over the list of links and the slave lists that
 * groups keep. A group refreshes its slaves by comparing sizes only.
 */
module PatchGroups {
  import opened Lists
  import opened PatchLog

  /** The links, and the slave list of every group. */
  datatype World = World(log: Log, groups: Index)

  datatype Command =
    | Connect(remote: Name, virt: Name)
    | Disconnect(remote: Name, virt: Name)
    | DisconnectRemote(remote: Name)
    | DisconnectVirtual(virt: Name)
    | CreateGroup(name: Name)

  /** VirtualGroup::updateFromPatch: the slaves are replaced only when the number differs. */
  function FromPatch(slaves: seq<Name>, entry: seq<Name>): seq<Name> {
    if |slaves| != |entry| then entry else slaves
  }

  /** VirtualGroup::removeSlave, called by the patch on every change. */
  function Refreshed(slaves: seq<Name>, r: Name, entry: seq<Name>): seq<Name> {
    FromPatch(Without(slaves, r), entry)
  }

  /** groupByName, then removeSlave. */
  function Refresh(groups: Index, v: Name, r: Name, entry: seq<Name>): Index {
    if v in groups then groups[v := Refreshed(groups[v], r, entry)] else groups
  }

  /** One refresh per virtual name, against the links that are left. */
  function RefreshAll(groups: Index, vs: seq<Name>, r: Name, left: Log): Index {
    if vs == [] then groups
    else
      var n := |vs| - 1;
      Refresh(RefreshAll(groups, vs[..n], r, left), vs[n], r, Pick(left, ByVirtual, vs[n]))
  }

  /** One refresh per remote name, all against the same entry. */
  function Churn(groups: Index, v: Name, rs: seq<Name>, entry: seq<Name>): Index {
    if rs == [] then groups
    else
      var n := |rs| - 1;
      Refresh(Churn(groups, v, rs[..n], entry), v, rs[n], entry)
  }

  function Apply(w: World, c: Command): World {
    match c
    case Connect(r, v) =>
      if Link(r, v) in w.log then w
      else
        var log := w.log + [Link(r, v)];
        World(log, Refresh(w.groups, v, r, Pick(log, ByVirtual, v)))
    case Disconnect(r, v) =>
      if Link(r, v) !in w.log then w
      else
        var log := Drop(w.log, {Link(r, v)});
        World(log, Refresh(w.groups, v, r, Pick(log, ByVirtual, v)))
    case DisconnectRemote(r) =>
      var log := Drop(w.log, LinksOf(w.log, ByRemote, r));
      World(log, RefreshAll(w.groups, Pick(w.log, ByRemote, r), r, log))
    case DisconnectVirtual(v) =>
      var log := Drop(w.log, LinksOf(w.log, ByVirtual, v));
      var rs := Pick(w.log, ByVirtual, v);
      World(log, Churn(w.groups, v, rs, rs))   // refreshed while the entry still stands
    case CreateGroup(g) =>
      if g in w.groups then w else w.(groups := w.groups[g := FromPatch([], Pick(w.log, ByVirtual, g))])
  }

  /** Whether the command reports success. */
  predicate Succeeds(w: World, c: Command) {
    match c
    case Connect(r, v) => Link(r, v) !in w.log
    case Disconnect(r, v) => Link(r, v) in w.log
    case DisconnectRemote(r) => Pick(w.log, ByRemote, r) != []
    case DisconnectVirtual(v) => Pick(w.log, ByVirtual, v) != []
    case CreateGroup(g) => g !in w.groups
  }

  /** Every group's slaves are the remotes linked to it, in order. */
  ghost predicate Coherent(w: World) {
    forall g :: g in w.groups ==> w.groups[g] == Pick(w.log, ByVirtual, g)
  }

  /** Cutting all links of a linked group. */
  predicate CutsGroup(w: World, c: Command) {
    c.DisconnectVirtual? && c.virt in w.groups && Pick(w.log, ByVirtual, c.virt) != []
  }

  lemma CommandKeepsNoDup(w: World, c: Command)
    requires NoDup(w.log)
    ensures NoDup(Apply(w, c).log)
  {
    match c
    case Connect(r, v) => NoDupSnoc(w.log, Link(r, v));
    case Disconnect(r, v) => DropNoDup(w.log, {Link(r, v)});
    case DisconnectRemote(r) => DropNoDup(w.log, LinksOf(w.log, ByRemote, r));
    case DisconnectVirtual(v) => DropNoDup(w.log, LinksOf(w.log, ByVirtual, v));
    case CreateGroup(_) =>
  }

  // ---------- what each command does to the lists ----------

  lemma AfterConnect(w: World, r: Name, v: Name, k: Name)
    requires Link(r, v) !in w.log
    ensures Pick(Apply(w, Connect(r, v)).log, ByRemote, k) ==
            if k == r then Pick(w.log, ByRemote, r) + [v] else Pick(w.log, ByRemote, k)
    ensures Pick(Apply(w, Connect(r, v)).log, ByVirtual, k) ==
            if k == v then Pick(w.log, ByVirtual, v) + [r] else Pick(w.log, ByVirtual, k)
  {
    PickSnoc(w.log, Link(r, v), ByRemote, k);
    PickSnoc(w.log, Link(r, v), ByVirtual, k);
    hide Pick;
  }

  /** disconnect takes one name from one list on either side. */
  lemma AfterDisconnect(w: World, r: Name, v: Name, k: Name)
    requires NoDup(w.log) && Link(r, v) in w.log
    ensures Pick(Apply(w, Disconnect(r, v)).log, ByRemote, k) ==
            if k == r then Without(Pick(w.log, ByRemote, r), v) else Pick(w.log, ByRemote, k)
    ensures Pick(Apply(w, Disconnect(r, v)).log, ByVirtual, k) ==
            if k == v then Without(Pick(w.log, ByVirtual, v), r) else Pick(w.log, ByVirtual, k)
  {
    PickDropOne(w.log, Link(r, v), ByRemote, k);
    PickDropOne(w.log, Link(r, v), ByVirtual, k);
    hide Pick, Drop;
  }

  /** disconnectRemote empties the list of the remote and takes the remote from every list of the other side. */
  lemma AfterDisconnectRemote(w: World, r: Name, k: Name)
    requires NoDup(w.log)
    ensures Pick(Apply(w, DisconnectRemote(r)).log, ByRemote, k) ==
            if k == r then [] else Pick(w.log, ByRemote, k)
    ensures Pick(Apply(w, DisconnectRemote(r)).log, ByVirtual, k) ==
            Without(Pick(w.log, ByVirtual, k), r)
  {
    PickWithoutRemote(w.log, r, k);
    PickDropKey(w.log, LinksOf(w.log, ByRemote, r), ByRemote, r, k);
    hide Pick, Drop, LinksOf;
  }

  lemma AfterDisconnectVirtual(w: World, v: Name, k: Name)
    requires NoDup(w.log)
    ensures Pick(Apply(w, DisconnectVirtual(v)).log, ByVirtual, k) ==
            if k == v then [] else Pick(w.log, ByVirtual, k)
    ensures Pick(Apply(w, DisconnectVirtual(v)).log, ByRemote, k) ==
            Without(Pick(w.log, ByRemote, k), v)
  {
    PickWithoutVirtual(w.log, v, k);
    PickDropKey(w.log, LinksOf(w.log, ByVirtual, v), ByVirtual, v, k);
    hide Pick, Drop, LinksOf;
  }

  lemma PickWithoutVirtual(log: Log, v: Name, r: Name)
    requires NoDup(log)
    ensures Pick(Drop(log, LinksOf(log, ByVirtual, v)), ByRemote, r) == Without(Pick(log, ByRemote, r), v)
  {
    PickDropAgrees(log, LinksOf(log, ByVirtual, v), {Link(r, v)}, ByRemote, r);
    PickDropOne(log, Link(r, v), ByRemote, r);
  }

  // ---------- what each command does to coherence ----------

  lemma ConnectKeeps(w: World, r: Name, v: Name)
    requires NoDup(w.log) && Coherent(w)
    ensures Coherent(Apply(w, Connect(r, v)))
  {
    if Link(r, v) !in w.log {
      forall g | g in w.groups
        ensures Pick(w.log + [Link(r, v)], ByVirtual, g) ==
                if g == v then w.groups[g] + [r] else w.groups[g]
      {
        PickSnoc(w.log, Link(r, v), ByVirtual, g);
      }
      PickContains(w.log, ByVirtual, v, r);
      if v in w.groups {
        WithoutSize(w.groups[v], r);
      }
    }
  }

  lemma DisconnectKeeps(w: World, r: Name, v: Name)
    requires NoDup(w.log) && Coherent(w)
    ensures Coherent(Apply(w, Disconnect(r, v)))
  {
    hide Pick, Drop, Without, NoDup;
    forall g | g in w.groups
      ensures Pick(Drop(w.log, {Link(r, v)}), ByVirtual, g) ==
              if g == v then Without(w.groups[g], r) else w.groups[g]
    {
      PickDropOne(w.log, Link(r, v), ByVirtual, g);
    }
  }

  /** When the links left are one fewer per refreshed group, each refresh is exact. */
  lemma {:induction false} RefreshAllIsExact(w: World, vs: seq<Name>, r: Name, left: Log)
    requires Coherent(w) && NoDup(vs)
    requires forall v :: v in vs ==> Pick(left, ByVirtual, v) == Without(Pick(w.log, ByVirtual, v), r)
    ensures
      var groups := RefreshAll(w.groups, vs, r, left);
      && groups.Keys == w.groups.Keys
      && forall g :: g in groups ==> groups[g] == Pick(if g in vs then left else w.log, ByVirtual, g)
    decreases |vs|
  {
    if vs != [] {
      hide Pick, Without, NoDup;
      var n := |vs| - 1;
      assert vs == vs[..n] + [vs[n]];
      NoDupSnoc(vs[..n], vs[n]);
      RefreshAllIsExact(w, vs[..n], r, left);
    }
  }

  /** Without the links of r, each other list loses r alone. */
  lemma PickWithoutRemote(log: Log, r: Name, v: Name)
    requires NoDup(log)
    ensures Pick(Drop(log, LinksOf(log, ByRemote, r)), ByVirtual, v) == Without(Pick(log, ByVirtual, v), r)
  {
    PickDropAgrees(log, LinksOf(log, ByRemote, r), {Link(r, v)}, ByVirtual, v);
    PickDropOne(log, Link(r, v), ByVirtual, v);
  }

  lemma DisconnectRemoteKeeps(w: World, r: Name)
    requires NoDup(w.log) && Coherent(w)
    ensures Coherent(Apply(w, DisconnectRemote(r)))
  {
    hide Drop, LinksOf, Without, Pick;
    var vs, left := Pick(w.log, ByRemote, r), Drop(w.log, LinksOf(w.log, ByRemote, r));
    forall v
      ensures Pick(left, ByVirtual, v) == Without(Pick(w.log, ByVirtual, v), r)
      ensures v !in vs ==> Pick(left, ByVirtual, v) == Pick(w.log, ByVirtual, v)
    {
      PickWithoutRemote(w.log, r, v);
      PickContains(w.log, ByRemote, r, v);
      PickContains(w.log, ByVirtual, v, r);
      WithoutSize(Pick(w.log, ByVirtual, v), r);
    }
    PickNoDup(w.log, ByRemote, r);
    RefreshAllIsExact(w, vs, r, left);
  }

  /** Refreshing against an entry that still stands brings every removed slave back. */
  lemma {:induction false} ChurnRestores(groups: Index, v: Name, rs: seq<Name>, entry: seq<Name>)
    requires v in groups ==> groups[v] == entry
    requires forall r :: r in rs ==> r in entry
    ensures Churn(groups, v, rs, entry) == groups
    decreases |rs|
  {
    if rs != [] {
      var n := |rs| - 1;
      assert rs == rs[..n] + [rs[n]];
      ChurnRestores(groups, v, rs[..n], entry);
      WithoutSize(entry, rs[n]);
    }
  }

  lemma DisconnectVirtualSpoils(w: World, v: Name)
    requires NoDup(w.log) && Coherent(w)
    ensures Apply(w, DisconnectVirtual(v)).groups == w.groups
    ensures Coherent(Apply(w, DisconnectVirtual(v))) <==> !CutsGroup(w, DisconnectVirtual(v))
  {
    hide Churn, Drop, LinksOf, Pick;
    var rs := Pick(w.log, ByVirtual, v);
    ChurnRestores(w.groups, v, rs, rs);
    forall g
      ensures Pick(Apply(w, DisconnectVirtual(v)).log, ByVirtual, g) == if g == v then [] else Pick(w.log, ByVirtual, g)
    {
      LinksOfAre(w.log, v);
      PickDropKey(w.log, LinksOf(w.log, ByVirtual, v), ByVirtual, v, g);
    }
  }

  lemma LinksOfAre(log: Log, v: Name)
    ensures forall l :: l in log ==> (l in LinksOf(log, ByVirtual, v) <==> Key(l, ByVirtual) == v)
  {
  }

  /** One command leaves all slave lists right exactly when it does not cut a linked group. */
  lemma CommandKeepsCoherentExactly(w: World, c: Command)
    requires NoDup(w.log) && Coherent(w)
    ensures Coherent(Apply(w, c)) <==> !CutsGroup(w, c)
  {
    match c
    case Connect(r, v) => ConnectKeeps(w, r, v);
    case Disconnect(r, v) => DisconnectKeeps(w, r, v);
    case DisconnectRemote(r) => DisconnectRemoteKeeps(w, r);
    case DisconnectVirtual(v) => DisconnectVirtualSpoils(w, v);
    case CreateGroup(g) =>
  }

  // ---------- slave lists that are wrong ----------

  /** A new link mends the slave list of its group exactly when the number of slaves, the linked remote
      not counted, is not the number of links that there are then. */
  lemma ConnectMendsExactly(w: World, r: Name, v: Name)
    requires Link(r, v) !in w.log && v in w.groups && NoDup(w.groups[v])
    ensures
      var w' := Apply(w, Connect(r, v));
      var others := |w.groups[v]| - if r in w.groups[v] then 1 else 0;
      w'.groups[v] == Pick(w'.log, ByVirtual, v) <==> others != |Pick(w.log, ByVirtual, v)| + 1
  {
    hide Pick, NoDup;
    PickSnoc(w.log, Link(r, v), ByVirtual, v);
    WithoutSize(w.groups[v], r);
    WithoutRemoves(w.groups[v], r);
    assert r in Pick(w.log, ByVirtual, v) + [r];
  }

  // ---------- runs ----------

  function ApplyAll(w: World, cs: seq<Command>): World
    decreases |cs|
  {
    if cs == [] then w else ApplyAll(Apply(w, cs[0]), cs[1..])
  }

  /** Slave lists are right at every moment of the run. */
  ghost predicate AlwaysCoherent(w: World, cs: seq<Command>)
    decreases |cs|
  {
    Coherent(w) && (cs != [] ==> AlwaysCoherent(Apply(w, cs[0]), cs[1..]))
  }

  predicate NeverCutsGroup(w: World, cs: seq<Command>)
    decreases |cs|
  {
    cs != [] ==> !CutsGroup(w, cs[0]) && NeverCutsGroup(Apply(w, cs[0]), cs[1..])
  }

  /** The slave cache is right throughout a run exactly when the run never cuts a linked group. */
  lemma {:induction false} CoherentThroughoutExactly(w: World, cs: seq<Command>)
    requires NoDup(w.log) && Coherent(w)
    ensures AlwaysCoherent(w, cs) <==> NeverCutsGroup(w, cs)
    decreases |cs|
  {
    if cs != [] {
      CommandKeepsCoherentExactly(w, cs[0]);
      CommandKeepsNoDup(w, cs[0]);
      if !CutsGroup(w, cs[0]) {
        CoherentThroughoutExactly(Apply(w, cs[0]), cs[1..]);
      } else {
        assert !AlwaysCoherent(Apply(w, cs[0]), cs[1..]);
      }
    }
  }

  // ---------- loading ----------

  /** Links of r to the names in vs, up to the first that exists already. */
  function Connected(w: World, r: Name, vs: seq<Name>): World
    decreases |vs|
  {
    if vs == [] || Link(r, vs[0]) in w.log then w else Connected(Apply(w, Connect(r, vs[0])), r, vs[1..])
  }

  /** The names added to a list that holds `have`. */
  function Taken(have: seq<Name>, vs: seq<Name>): seq<Name>
    decreases |vs|
  {
    if vs == [] || vs[0] in have then [] else [vs[0]] + Taken(have + [vs[0]], vs[1..])
  }

  /** All of them are, exactly when none was there and none is repeated. */
  lemma {:induction false} TakenIsAllExactly(have: seq<Name>, vs: seq<Name>)
    requires NoDup(have)
    ensures Taken(have, vs) == vs <==> NoDup(have + vs)
    ensures |Taken(have, vs)| <= |vs| && (|Taken(have, vs)| == |vs| ==> Taken(have, vs) == vs)
    decreases |vs|
  {
    hide NoDup;
    if vs == [] {
      assert have + vs == have;
    } else {
      var v, rest := vs[0], vs[1..];
      assert have + vs == (have + [v]) + rest && vs == [v] + rest;
      NoDupSnoc(have, v);
      if v in have {
        NoDupPrefix(have + [v], rest);
      } else {
        TakenIsAllExactly(have + [v], rest);
        assert ([v] + Taken(have + [v], rest))[1..] == Taken(have + [v], rest);
      }
    }
  }

  /** And otherwise it is the names before the first one that is there already or comes a second time;
      whatever stands behind that one is not taken, new or not. */
  lemma {:induction false} TakenIsUpToFirst(have: seq<Name>, vs: seq<Name>, i: nat)
    requires NoDup(have) && i <= |vs| && NoDup(have + vs[..i]) && (i < |vs| ==> vs[i] in have + vs[..i])
    ensures Taken(have, vs) == vs[..i]
    decreases |vs|
  {
    hide NoDup;
    if i > 0 {
      var v, rest := vs[0], vs[1..];
      assert vs[..i] == [v] + rest[..i - 1];
      assert have + ([v] + rest[..i - 1]) == (have + [v]) + rest[..i - 1];
      NoDupPrefix(have + [v], rest[..i - 1]);
      NoDupSnoc(have, v);
      TakenIsUpToFirst(have + [v], rest, i - 1);
    } else {
      assert have + vs[..0] == have;
    }
  }

  lemma NoDupPrefix(a: seq<Name>, b: seq<Name>)
    ensures NoDup(a + b) ==> NoDup(a)
  {
    if NoDup(a + b) {
      forall i, j | 0 <= i < j < |a|
        ensures a[i] != a[j]
      {
        assert (a + b)[i] != (a + b)[j];
      }
    }
  }

  /** The stored arrays one after the other, whatever becomes of each. */
  function Loaded(w: World, keys: seq<Name>, data: Index): World
    requires forall k :: k in keys ==> k in data
    decreases |keys|
  {
    if keys == [] then w else Loaded(Connected(w, keys[0], data[keys[0]]), keys[1..], data)
  }

  /** A run without DisconnectVirtual commands, from no links, ends with every slave list right. */
  lemma {:induction false} RunsWithoutCutsAreCoherent(w: World, cs: seq<Command>)
    requires NoDup(w.log) && Coherent(w)
    requires forall c :: c in cs ==> !c.DisconnectVirtual?
    ensures Coherent(ApplyAll(w, cs))
    decreases |cs|
  {
    if cs != [] {
      CommandKeepsCoherentExactly(w, cs[0]);
      CommandKeepsNoDup(w, cs[0]);
      RunsWithoutCutsAreCoherent(Apply(w, cs[0]), cs[1..]);
    }
  }

  lemma FirstConnect(g: Name, slaves: seq<Name>, r: Name)
    ensures Apply(World([], map[g := slaves]), Connect(r, g)) ==
            World([Link(r, g)], map[g := Refreshed(slaves, r, [r])])
  {
    hide Refreshed, Pick;
    assert [] + [Link(r, g)] == [Link(r, g)] && [] + [r] == [r];
    PickSnoc([], Link(r, g), ByVirtual, g);
    PickOfNothing(g);
    assert map[g := slaves][g := Refreshed(slaves, r, [r])] == map[g := Refreshed(slaves, r, [r])];
  }

  lemma PickOfNothing(g: Name)
    ensures Pick([], ByVirtual, g) == []
  {
  }

  lemma OnlyCut(g: Name, x: Name)
    ensures Apply(World([Link(x, g)], map[g := [x]]), DisconnectVirtual(g)) == World([], map[g := [x]])
  {
    hide Churn;
    var w := World([Link(x, g)], map[g := [x]]);
    PickSnoc([], Link(x, g), ByVirtual, g);
    assert [] + [Link(x, g)] == w.log && [] + [x] == [x];
    assert w.log[..0] == [];
    assert Pick(w.log, ByVirtual, g) == [x];
    var gone := LinksOf(w.log, ByVirtual, g);
    assert w.log[0] in gone;
    assert Drop(w.log, gone) == Drop([], gone) == [];
    ChurnRestores(w.groups, g, [x], [x]);
  }

  lemma RefreshesBySize(x: Name, y: Name)
    requires x != y
    ensures Refreshed([], x, [x]) == [x] && Refreshed([x], y, [y]) == [x]
  {
    WithoutSize([x], y);
  }

  /** After a cut the damage can outlast later commands: sizes agree again, so nothing is refreshed,
      and the group keeps answering to a remote that is no longer linked. */
  lemma StaleSlaveStays(g: Name, x: Name, y: Name)
    requires x != y
    ensures ApplyAll(World([], map[g := []]), [Connect(x, g), DisconnectVirtual(g), Connect(y, g)]) ==
            World([Link(y, g)], map[g := [x]])
  {
    hide Apply, Refreshed;
    var w0, w1, w2 := World([], map[g := []]), World([Link(x, g)], map[g := [x]]), World([], map[g := [x]]);
    var c1, c2, c3 := Connect(x, g), DisconnectVirtual(g), Connect(y, g);
    assert Apply(w0, c1) == w1 by { FirstConnect(g, [], x); RefreshesBySize(x, y); }
    OnlyCut(g, x);
    assert Apply(w2, c3) == World([Link(y, g)], map[g := [x]]) by { FirstConnect(g, [x], y); RefreshesBySize(x, y); }
    assert [c1, c2, c3][1..] == [c2, c3] && [c2, c3][1..] == [c3] && [c3][1..] == [];
    assert ApplyAll(w2, [c3]) == ApplyAll(Apply(w2, c3), []);
    assert ApplyAll(w1, [c2, c3]) == ApplyAll(w2, [c3]);
  }
}
