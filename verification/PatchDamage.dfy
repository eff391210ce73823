/**
 * How wrong a group's slave list can ever be. Cutting all links of a group leaves its list standing;
 * what later commands can make of that is little.
 */
module PatchDamage {
  import opened Lists
  import opened PatchLog
  import opened PatchGroups

  /** The list is right, or the group has no links, or it has one and lists one. */
  predicate NearlyRight(slaves: seq<Name>, entry: seq<Name>) {
    slaves == entry || entry == [] || |slaves| == |entry| == 1
  }

  ghost predicate Nearly(w: World) {
    forall g :: g in w.groups ==> NearlyRight(w.groups[g], Pick(w.log, ByVirtual, g))
  }

  // ---------- refreshes ----------

  /** One more link. */
  lemma GainIsNearlyRight(slaves: seq<Name>, entry: seq<Name>, r: Name)
    requires NearlyRight(slaves, entry) && r !in entry
    ensures NearlyRight(Refreshed(slaves, r, entry + [r]), entry + [r])
  {
    WithoutSize(slaves, r);
  }

  /** One link fewer. */
  lemma LossIsNearlyRight(slaves: seq<Name>, entry: seq<Name>, r: Name)
    requires NearlyRight(slaves, entry)
    ensures NearlyRight(Refreshed(slaves, r, Without(entry, r)), Without(entry, r))
  {
    WithoutSize(slaves, r);
    WithoutSize(entry, r);
  }

  lemma {:induction false} RefreshAllAt(groups: Index, vs: seq<Name>, r: Name, left: Log, g: Name)
    requires NoDup(vs) && g in groups
    ensures
      var groups' := RefreshAll(groups, vs, r, left);
      && groups'.Keys == groups.Keys
      && groups'[g] == if g in vs then Refreshed(groups[g], r, Pick(left, ByVirtual, g)) else groups[g]
    decreases |vs|
  {
    if vs != [] {
      hide Pick, Refreshed, NoDup;
      var n := |vs| - 1;
      assert vs == vs[..n] + [vs[n]];
      NoDupSnoc(vs[..n], vs[n]);
      RefreshAllAt(groups, vs[..n], r, left, g);
    }
  }

  lemma StandingEntryIsIdle(slaves: seq<Name>, entry: seq<Name>, r: Name)
    requires NearlyRight(slaves, entry) && r in entry
    ensures Refreshed(slaves, r, entry) == slaves
  {
    WithoutSize(slaves, r);
    hide Without;
    if slaves != entry {
      assert slaves == [slaves[0]] && entry == [entry[0]];
      assert r == entry[0] && r !in slaves;
    }
  }

  /** Refreshing against the entry that still stands changes nothing at all. */
  lemma {:induction false} ChurnIsIdle(groups: Index, v: Name, rs: seq<Name>, entry: seq<Name>)
    requires v in groups ==> NearlyRight(groups[v], entry)
    requires forall r :: r in rs ==> r in entry
    ensures Churn(groups, v, rs, entry) == groups
    decreases |rs|
  {
    if rs != [] {
      var n := |rs| - 1;
      assert rs == rs[..n] + [rs[n]];
      ChurnIsIdle(groups, v, rs[..n], entry);
      hide Refreshed, NearlyRight;
      if v in groups {
        StandingEntryIsIdle(groups[v], entry, rs[n]);
      }
    }
  }

  // ---------- commands ----------

  lemma ConnectKeepsNearly(w: World, r: Name, v: Name)
    requires NoDup(w.log) && Nearly(w)
    ensures Nearly(Apply(w, Connect(r, v)))
  {
    if Link(r, v) !in w.log {
      hide Pick, Refreshed, NearlyRight, NoDup;
      var w' := Apply(w, Connect(r, v));
      forall g | g in w'.groups
        ensures NearlyRight(w'.groups[g], Pick(w'.log, ByVirtual, g))
      {
        AfterConnect(w, r, v, g);
        if g == v {
          PickContains(w.log, ByVirtual, v, r);
          GainIsNearlyRight(w.groups[v], Pick(w.log, ByVirtual, v), r);
        }
      }
    }
  }

  lemma DisconnectKeepsNearly(w: World, r: Name, v: Name)
    requires NoDup(w.log) && Nearly(w)
    ensures Nearly(Apply(w, Disconnect(r, v)))
  {
    if Link(r, v) in w.log {
      hide Pick, Refreshed, NearlyRight, NoDup, Drop, Without;
      var w' := Apply(w, Disconnect(r, v));
      forall g | g in w'.groups
        ensures NearlyRight(w'.groups[g], Pick(w'.log, ByVirtual, g))
      {
        AfterDisconnect(w, r, v, g);
        if g == v {
          LossIsNearlyRight(w.groups[v], Pick(w.log, ByVirtual, v), r);
        }
      }
    }
  }

  lemma DisconnectRemoteKeepsNearly(w: World, r: Name)
    requires NoDup(w.log) && Nearly(w)
    ensures Nearly(Apply(w, DisconnectRemote(r)))
  {
    hide Pick, Refreshed, NearlyRight, NoDup, Drop, Without, LinksOf;
    var w', vs := Apply(w, DisconnectRemote(r)), Pick(w.log, ByRemote, r);
    PickNoDup(w.log, ByRemote, r);
    forall g | g in w'.groups
      ensures NearlyRight(w'.groups[g], Pick(w'.log, ByVirtual, g))
    {
      RefreshAllKeys(w.groups, vs, r, w'.log);
      RefreshAllAt(w.groups, vs, r, w'.log, g);
      AfterDisconnectRemote(w, r, g);
      var entry := Pick(w.log, ByVirtual, g);
      LossIsNearlyRight(w.groups[g], entry, r);
      PickContains(w.log, ByRemote, r, g);
      PickContains(w.log, ByVirtual, g, r);
      WithoutSize(entry, r);
    }
  }

  lemma {:induction false} RefreshAllKeys(groups: Index, vs: seq<Name>, r: Name, left: Log)
    ensures RefreshAll(groups, vs, r, left).Keys == groups.Keys
    decreases |vs|
  {
    if vs != [] {
      hide Refreshed, Pick;
      RefreshAllKeys(groups, vs[..|vs| - 1], r, left);
    }
  }

  /** Cutting a group never touches a slave list, its own included. */
  lemma CutIsIdle(w: World, v: Name)
    requires NoDup(w.log) && Nearly(w)
    ensures Apply(w, DisconnectVirtual(v)).groups == w.groups && Nearly(Apply(w, DisconnectVirtual(v)))
  {
    hide Pick, Drop, LinksOf, NoDup, Churn, NearlyRight;
    var rs := Pick(w.log, ByVirtual, v);
    ChurnIsIdle(w.groups, v, rs, rs);
    forall g | g in w.groups
      ensures NearlyRight(w.groups[g], Pick(Apply(w, DisconnectVirtual(v)).log, ByVirtual, g))
    {
      AfterDisconnectVirtual(w, v, g);
      assert NearlyRight(w.groups[g], []) by { NoLinksIsNearlyRight(w.groups[g]); }
    }
  }

  lemma NoLinksIsNearlyRight(slaves: seq<Name>)
    ensures NearlyRight(slaves, [])
  {
  }

  lemma CommandKeepsNearly(w: World, c: Command)
    requires NoDup(w.log) && Nearly(w)
    ensures Nearly(Apply(w, c))
  {
    match c
    case Connect(r, v) => ConnectKeepsNearly(w, r, v);
    case Disconnect(r, v) => DisconnectKeepsNearly(w, r, v);
    case DisconnectRemote(r) => DisconnectRemoteKeepsNearly(w, r);
    case DisconnectVirtual(v) => CutIsIdle(w, v);
    case CreateGroup(g) =>
  }

  lemma {:induction false} RunKeepsNearly(w: World, cs: seq<Command>)
    requires NoDup(w.log) && Nearly(w)
    ensures Nearly(ApplyAll(w, cs))
    decreases |cs|
  {
    if cs != [] {
      hide Apply, NoDup, Nearly;
      CommandKeepsNearly(w, cs[0]);
      CommandKeepsNoDup(w, cs[0]);
      RunKeepsNearly(Apply(w, cs[0]), cs[1..]);
    }
  }

  /** Whatever the commands, from a state in which all slave lists are right: at the end of every run each
      list is right, or its group has no link, or it has one link and lists one slave. A group with two
      links or more always lists exactly them. */
  lemma DamageIsBounded(w: World, cs: seq<Command>, g: Name)
    requires NoDup(w.log) && Coherent(w) && g in ApplyAll(w, cs).groups
    ensures
      var w' := ApplyAll(w, cs);
      var slaves, entry := w'.groups[g], Pick(w'.log, ByVirtual, g);
      && (slaves == entry || entry == [] || |slaves| == |entry| == 1)
      && (|entry| > 1 ==> slaves == entry)
  {
    hide Pick, ApplyAll;
    RunKeepsNearly(w, cs);
  }

  /** And in every such run, cutting a group leaves all slave lists as they are: the refreshes that it
      makes while the entry still stands never change anything. */
  lemma CutsNeverRefresh(w: World, cs: seq<Command>, v: Name)
    requires NoDup(w.log) && Coherent(w)
    ensures
      var w' := ApplyAll(w, cs);
      Apply(w', DisconnectVirtual(v)).groups == w'.groups
  {
    hide Pick, ApplyAll, Apply;
    RunKeepsNearly(w, cs);
    RunKeepsNoDup(w, cs);
    CutIsIdle(ApplyAll(w, cs), v);
  }

  lemma {:induction false} RunKeepsNoDup(w: World, cs: seq<Command>)
    requires NoDup(w.log)
    ensures NoDup(ApplyAll(w, cs).log)
    decreases |cs|
  {
    if cs != [] {
      hide Apply, NoDup;
      CommandKeepsNoDup(w, cs[0]);
      RunKeepsNoDup(Apply(w, cs[0]), cs[1..]);
    }
  }
}
