/**
 * The coalescing send queues of the remotes and the scheduler that serves
 * them: a later request for a key replaces the earlier one, and each tick
 * sends one message.
 */
module XBeeQueue {
  import opened Bytes

  /** Keys are ordered as std::string is, byte by byte. */
  type Key = bytes

  predicate Less(a: Key, b: Key) {
    b != [] && (a == [] || a[0] < b[0] || (a[0] == b[0] && Less(a[1..], b[1..])))
  }

  /** Two keys agree up to place n. */
  predicate AgreeUpTo(a: Key, b: Key, n: nat) { n <= |a| && n <= |b| && a[..n] == b[..n] }

  /** The place where b first goes beyond a: a ends there, or has the smaller byte. */
  predicate FirstAbove(a: Key, b: Key, n: nat) {
    AgreeUpTo(a, b, n) && n < |b| && (n == |a| || a[n] < b[n])
  }

  /** The order is decided at the first place where the keys differ. */
  lemma {:induction false} LessExactlyAtFirstDifference(a: Key, b: Key)
    ensures Less(a, b) <==> exists n: nat :: FirstAbove(a, b, n)
    decreases |a|
  {
    if a == [] {
      assert b != [] ==> FirstAbove(a, b, 0);
    } else if b != [] {
      if a[0] < b[0] {
        assert FirstAbove(a, b, 0);
      } else if a[0] == b[0] {
        LessExactlyAtFirstDifference(a[1..], b[1..]);
        forall n: nat
          ensures FirstAbove(a, b, n + 1) <==> FirstAbove(a[1..], b[1..], n)
        {
          DifferenceShifts(a, b, n);
        }
        if n: nat :| FirstAbove(a, b, n) {
          assert n > 0 && FirstAbove(a[1..], b[1..], n - 1);
        }
        if n: nat :| FirstAbove(a[1..], b[1..], n) {
          assert FirstAbove(a, b, n + 1);
        }
      }
    }
  }

  lemma DifferenceShifts(a: Key, b: Key, n: nat)
    requires a != [] && b != [] && a[0] == b[0]
    ensures FirstAbove(a, b, n + 1) <==> FirstAbove(a[1..], b[1..], n)
  {
    if n + 1 <= |a| && n + 1 <= |b| {
      assert a[..n + 1] == [a[0]] + a[1..][..n] && b[..n + 1] == [b[0]] + b[1..][..n];
      assert a[1..][..n] == a[..n + 1][1..] && b[1..][..n] == b[..n + 1][1..];
    }
  }

  lemma {:induction false} LessIsTotal(a: Key, b: Key)
    ensures a == b || Less(a, b) || Less(b, a)
    ensures !(Less(a, b) && Less(b, a)) && !Less(a, a)
    decreases |a|
  {
    if a != [] {
      LessIsTotal(a[1..], a[1..]);
      if b != [] {
        LessIsTotal(a[1..], b[1..]);
        assert a == [a[0]] + a[1..] && b == [b[0]] + b[1..];
      }
    }
  }

  lemma {:induction false} LessIsTransitive(a: Key, b: Key, c: Key)
    requires Less(a, b) && Less(b, c)
    ensures Less(a, c)
  {
    if a != [] && a[0] == b[0] && b[0] == c[0] {
      LessIsTransitive(a[1..], b[1..], c[1..]);
    }
  }

  /** begin() of a std::map: the least key. */
  predicate IsLeast(k: Key, keys: set<Key>) {
    k in keys && forall x :: x in keys ==> x == k || Less(k, x)
  }

  lemma {:induction false} LeastExists(keys: set<Key>)
    requires keys != {}
    ensures exists k :: IsLeast(k, keys)
  {
    var x :| x in keys;
    var rest := keys - {x};
    assert keys == rest + {x};
    if rest == {} {
      assert IsLeast(x, keys);
    } else {
      LeastExists(rest);
      var k :| IsLeast(k, rest);
      LessIsTotal(x, k);
      if Less(x, k) {
        forall y | y in keys
          ensures y == x || Less(x, y)
        {
          if y != x && y != k {
            LessIsTransitive(x, k, y);
          }
        }
        assert IsLeast(x, keys);
      } else {
        assert IsLeast(k, keys);
      }
    }
  }

  lemma LeastIsUnique(a: Key, b: Key, keys: set<Key>)
    requires IsLeast(a, keys) && IsLeast(b, keys)
    ensures a == b
  {
    LessIsTotal(a, b);
  }

  ghost function LeastKey(keys: set<Key>): (k: Key)
    requires keys != {}
    ensures IsLeast(k, keys)
  {
    LeastExists(keys);
    var k :| IsLeast(k, keys);
    k
  }

  // ---------- the queues and their history ----------

  type Queue = map<Key, bytes>

  datatype Event = Requested(remote: nat, key: Key, msg: bytes) | Sent(remote: nat, key: Key, msg: bytes)

  datatype Net = Net(queues: seq<Queue>, history: seq<Event>)

  datatype Command = SafeSend(remote: nat, key: Key, msg: bytes) | Tick

  /** The first remote with anything to send. */
  function FirstBusy(qs: seq<Queue>): (i: nat)
    ensures i <= |qs| && forall j :: 0 <= j < i ==> qs[j] == map[]
    ensures i < |qs| ==> qs[i] != map[]
  {
    if qs == [] then 0 else if qs[0] != map[] then 0
    else
      var i := FirstBusy(qs[1..]);
      assert forall j :: 1 <= j < 1 + i ==> qs[j] == qs[1..][j - 1];
      1 + i
  }

  ghost function Apply(n: Net, c: Command): Net {
    match c
    case SafeSend(i, k, m) =>
      if i >= |n.queues| then n
      else Net(n.queues[i := n.queues[i][k := m]], n.history + [Requested(i, k, m)])
    case Tick =>
      var i := FirstBusy(n.queues);
      if i == |n.queues| then n
      else
        var q := n.queues[i];
        var k := LeastKey(q.Keys);
        Net(n.queues[i := q - {k}], n.history + [Sent(i, k, q[k])])
  }

  ghost function Run(n: Net, cs: seq<Command>): Net
    decreases |cs|
  {
    if cs == [] then n else Run(Apply(n, cs[0]), cs[1..])
  }

  // ---------- what the history says ----------

  /** The last thing that happened to a key of a remote. */
  function Latest(h: seq<Event>, i: nat, k: Key): Option<Event> {
    if h == [] then None
    else
      var e := h[|h| - 1];
      if e.remote == i && e.key == k then Some(e) else Latest(h[..|h| - 1], i, k)
  }

  function LastRequested(h: seq<Event>, i: nat, k: Key): Option<bytes> {
    if h == [] then None
    else
      var e := h[|h| - 1];
      if e.Requested? && e.remote == i && e.key == k then Some(e.msg) else LastRequested(h[..|h| - 1], i, k)
  }

  function LastSent(h: seq<Event>, i: nat, k: Key): Option<bytes> {
    if h == [] then None
    else
      var e := h[|h| - 1];
      if e.Sent? && e.remote == i && e.key == k then Some(e.msg) else LastSent(h[..|h| - 1], i, k)
  }

  /** A queue holds exactly the requests not yet sent. */
  ghost predicate Consistent(n: Net) {
    forall i: nat, k: Key :: i < |n.queues| ==> Holds(n.queues[i], k, Latest(n.history, i, k))
  }

  predicate Holds(q: Queue, k: Key, latest: Option<Event>) {
    if latest.Some? && latest.value.Requested? then k in q && q[k] == latest.value.msg else k !in q
  }

  /** What is sent at p is the request made last for its key, and it has not been sent before:
      nothing superseded, nothing twice. */
  predicate SentWell(h: seq<Event>, p: nat)
    requires p < |h|
  {
    h[p].Sent? ==> Latest(h[..p], h[p].remote, h[p].key) == Some(Requested(h[p].remote, h[p].key, h[p].msg))
  }

  predicate Faithful(h: seq<Event>) {
    forall p :: 0 <= p < |h| ==> SentWell(h, p)
  }

  lemma LatestSnoc(h: seq<Event>, e: Event, i: nat, k: Key)
    ensures Latest(h + [e], i, k) == if e.remote == i && e.key == k then Some(e) else Latest(h, i, k)
  {
    assert (h + [e])[..|h|] == h;
  }

  lemma FaithfulSnoc(h: seq<Event>, e: Event)
    requires Faithful(h)
    requires e.Sent? ==> Latest(h, e.remote, e.key) == Some(Requested(e.remote, e.key, e.msg))
    ensures Faithful(h + [e])
  {
    hide Latest;
    var h' := h + [e];
    forall p | 0 <= p < |h'|
      ensures SentWell(h', p)
    {
      if p < |h| {
        assert SentWell(h, p);
        assert h'[..p] == h[..p] && h'[p] == h[p];
      } else {
        assert h'[..p] == h && h'[p] == e;
      }
    }
  }

  /** One key's entry and one event change; all others keep what they had. */
  lemma EventKeepsConsistent(n: Net, i: nat, q: Queue, e: Event)
    requires Consistent(n) && i < |n.queues| && e.remote == i
    requires forall k :: k != e.key ==> (k in q <==> k in n.queues[i]) && (k in q ==> q[k] == n.queues[i][k])
    requires Holds(q, e.key, Some(e))
    ensures Consistent(Net(n.queues[i := q], n.history + [e]))
  {
    hide Latest;
    var n' := Net(n.queues[i := q], n.history + [e]);
    forall j: nat, k: Key | j < |n'.queues|
      ensures Holds(n'.queues[j], k, Latest(n'.history, j, k))
    {
      LatestSnoc(n.history, e, j, k);
      assert Holds(n.queues[j], k, Latest(n.history, j, k));
    }
  }

  lemma CommandIsFaithful(n: Net, c: Command)
    requires Consistent(n) && Faithful(n.history)
    ensures Consistent(Apply(n, c)) && Faithful(Apply(n, c).history)
    ensures |Apply(n, c).queues| == |n.queues|
  {
    hide Latest, Faithful, Consistent, IsLeast;
    match c
    case SafeSend(i, k, m) =>
      if i < |n.queues| {
        EventKeepsConsistent(n, i, n.queues[i][k := m], Requested(i, k, m));
        FaithfulSnoc(n.history, Requested(i, k, m));
      }
    case Tick =>
      var i := FirstBusy(n.queues);
      if i < |n.queues| {
        TickIsFaithful(n, i, LeastKey(n.queues[i].Keys));
      }
  }

  lemma TickIsFaithful(n: Net, i: nat, k: Key)
    requires Consistent(n) && Faithful(n.history) && i < |n.queues| && IsLeast(k, n.queues[i].Keys)
    ensures
      var q := n.queues[i];
      var e := Sent(i, k, q[k]);
      Consistent(Net(n.queues[i := q - {k}], n.history + [e])) && Faithful(n.history + [e])
  {
    hide Latest, Faithful;
    var q := n.queues[i];
    var e := Sent(i, k, q[k]);
    assert Holds(q, k, Latest(n.history, i, k));
    LatestIsAbout(n.history, i, k);
    EventKeepsConsistent(n, i, q - {k}, e);
    FaithfulSnoc(n.history, e);
  }

  lemma {:induction false} LatestIsAbout(h: seq<Event>, i: nat, k: Key)
    ensures Latest(h, i, k).Some? ==> Latest(h, i, k).value.remote == i && Latest(h, i, k).value.key == k
  {
    if h != [] {
      LatestIsAbout(h[..|h| - 1], i, k);
    }
  }

  /** Over every interleaving of requests and ticks: only the newest request of a key is ever sent, and
      only once. */
  lemma {:induction false} RunIsFaithful(n: Net, cs: seq<Command>)
    requires Consistent(n) && Faithful(n.history)
    ensures Consistent(Run(n, cs)) && Faithful(Run(n, cs).history)
    decreases |cs|
  {
    if cs != [] {
      hide Apply, Consistent, Faithful;
      CommandIsFaithful(n, cs[0]);
      RunIsFaithful(Apply(n, cs[0]), cs[1..]);
    }
  }

  // ---------- progress ----------

  function Pending(qs: seq<Queue>): nat {
    if qs == [] then 0 else |qs[0]| + Pending(qs[1..])
  }

  lemma {:induction false} PendingUpdate(qs: seq<Queue>, i: nat, q: Queue)
    requires i < |qs|
    ensures Pending(qs[i := q]) == Pending(qs) - |qs[i]| + |q|
  {
    if i == 0 {
      assert qs[i := q][1..] == qs[1..];
    } else {
      assert qs[i := q][1..] == qs[1..][i - 1 := q];
      PendingUpdate(qs[1..], i - 1, q);
    }
  }

  lemma {:induction false} PendingNone(qs: seq<Queue>)
    ensures Pending(qs) == 0 <==> FirstBusy(qs) == |qs|
    ensures Pending(qs) == 0 <==> forall i :: 0 <= i < |qs| ==> qs[i] == map[]
  {
    if qs != [] {
      PendingNone(qs[1..]);
      assert qs == [qs[0]] + qs[1..];
      assert |qs[0]| == 0 <==> qs[0] == map[];
    }
  }

  /** A tick sends exactly one message while anything is pending, and nothing otherwise. */
  lemma TickSendsOne(n: Net)
    ensures
      var n' := Apply(n, Tick);
      if Pending(n.queues) == 0 then n' == n
      else
        && Pending(n'.queues) == Pending(n.queues) - 1
        && |n'.history| == |n.history| + 1
        && n'.history[..|n.history|] == n.history && n'.history[|n.history|].Sent?
  {
    hide Pending;
    PendingNone(n.queues);
    var i := FirstBusy(n.queues);
    if i < |n.queues| {
      var q := n.queues[i];
      var k := LeastKey(q.Keys);
      PendingUpdate(n.queues, i, q - {k});
      assert (q - {k}).Keys == q.Keys - {k};
      assert |q.Keys| == |q| && |(q - {k}).Keys| == |q - {k}|;
    }
  }

  function Ticks(t: nat): (cs: seq<Command>)
    ensures |cs| == t
  {
    if t == 0 then [] else [Tick] + Ticks(t - 1)
  }

  lemma {:induction false} TicksLower(n: Net, t: nat)
    requires t <= Pending(n.queues)
    ensures Pending(Run(n, Ticks(t)).queues) == Pending(n.queues) - t
    ensures |Run(n, Ticks(t)).history| == |n.history| + t
    ensures |Run(n, Ticks(t)).queues| == |n.queues|
    decreases t
  {
    if t > 0 {
      hide Pending;
      var n' := Apply(n, Tick);
      TickSendsOne(n);
      assert |n'.queues| == |n.queues|;
      hide Apply;
      TicksLower(n', t - 1);
      assert Ticks(t)[0] == Tick && Ticks(t)[1..] == Ticks(t - 1);
    }
  }

  lemma {:induction false} LatestTellsLast(h: seq<Event>, i: nat, k: Key)
    requires Faithful(h)
    ensures
      match Latest(h, i, k)
      case None => LastRequested(h, i, k) == LastSent(h, i, k) == None
      case Some(Requested(_, _, m)) => LastRequested(h, i, k) == Some(m)
      case Some(Sent(_, _, m)) => LastRequested(h, i, k) == LastSent(h, i, k) == Some(m)
    decreases |h|
  {
    if h != [] {
      FaithfulPrefix(h);
      LatestTellsLast(h[..|h| - 1], i, k);
      assert SentWell(h, |h| - 1);
    }
  }

  lemma FaithfulPrefix(h: seq<Event>)
    requires h != [] && Faithful(h)
    ensures Faithful(h[..|h| - 1])
  {
    hide Latest;
    var h' := h[..|h| - 1];
    forall p | 0 <= p < |h'|
      ensures SentWell(h', p)
    {
      assert SentWell(h, p);
      assert h'[..p] == h[..p];
    }
  }

  /** With no new requests, exactly as many ticks as there are pending messages empty every queue, and
      then the last value sent for each remote and key is the last one requested. */
  lemma DrainsExactly(n: Net, i: nat, k: Key)
    requires Consistent(n) && Faithful(n.history) && i < |n.queues|
    ensures
      var done := Run(n, Ticks(Pending(n.queues)));
      && i < |done.queues| && done.queues[i] == map[]
      && LastSent(done.history, i, k) == LastRequested(done.history, i, k)
      && |done.history| == |n.history| + Pending(n.queues)
    ensures forall t :: 0 <= t < Pending(n.queues) ==> Pending(Run(n, Ticks(t)).queues) > 0
  {
    hide Apply, Pending, Latest, LastSent, LastRequested, Faithful;
    var total := Pending(n.queues);
    var done := Run(n, Ticks(total));
    TicksLower(n, total);
    PendingNone(done.queues);
    RunIsFaithful(n, Ticks(total));
    assert Holds(done.queues[i], k, Latest(done.history, i, k));
    LatestTellsLast(done.history, i, k);
    forall t | 0 <= t < total
      ensures Pending(Run(n, Ticks(t)).queues) > 0
    {
      TicksLower(n, t);
    }
  }

  lemma NothingYet(remotes: nat)
    ensures
      var n := Net(seq(remotes, _ => map[]), []);
      Consistent(n) && Faithful(n.history)
  {
  }
}
