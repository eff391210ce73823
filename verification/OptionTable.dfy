/**
 * libtelnet's table of option states: an array of (option, packed state)
 * pairs searched from the front, grown four entries at a time, whose length
 * is an unsigned char.
 */
module OptionTable {
  import opened Bytes
  import opened QMethod

  datatype Entry = Entry(telopt: byte, state: byte)

  /** The first `size` entries are the ones searched. */
  datatype Table = Table(q: seq<Entry>, size: byte)

  const Empty := Table([], 0)

  predicate WellFormed(t: Table) {
    && t.size <= |t.q|
    && forall i :: 0 <= i < t.size ==> IsPacked(t.q[i].state)
  }

  // ---------- packing (Q_MAKE, Q_US, Q_HIM) ----------

  function Code(q: Q): (n: byte)
    ensures n < 6 && Decode(n) == q
  {
    match q
    case No => 0
    case Yes => 1
    case WantNo => 2
    case WantYes => 3
    case WantNoOp => 4
    case WantYesOp => 5
  }

  function Decode(n: byte): Q {
    if n == 1 then Yes else if n == 2 then WantNo else if n == 3 then WantYes
    else if n == 4 then WantNoOp else if n == 5 then WantYesOp else No
  }

  function Pack(p: Pair): (state: byte)
    ensures IsPacked(state) && Unpack(state) == p
  {
    var state := Code(p.us) + 16 * Code(p.him);
    assert state % 16 == Code(p.us) && state / 16 == Code(p.him);
    state
  }

  predicate IsPacked(state: byte) { state % 16 < 6 && state / 16 < 6 }

  function Unpack(state: byte): Pair { Pair(Decode(state % 16), Decode(state / 16)) }

  /** The low half is this side's, the high half the other's. */
  lemma PackIsTwoHalves(p: Pair)
    ensures Pack(p) == Pack(Pair(p.us, No)) + Pack(Pair(No, p.him))
    ensures Pack(Pair(p.us, No)) < 16 && Pack(Pair(No, p.him)) % 16 == 0
  {
  }

  // ---------- search and store ----------

  /** The index of the first entry for `o` at or after `from`, or the table's size. */
  function Find(t: Table, o: byte, from: nat): (i: nat)
    requires from <= t.size <= |t.q|
    ensures from <= i <= t.size
    ensures i < t.size ==> t.q[i].telopt == o
    ensures forall j :: from <= j < i ==> t.q[j].telopt != o
    decreases t.size - from
  {
    if from == t.size || t.q[from].telopt == o then from else Find(t, o, from + 1)
  }

  /** _get_rfc1143 */
  function Lookup(t: Table, o: byte): Pair
    requires WellFormed(t)
  {
    var i := Find(t, o, 0);
    if i < t.size then Unpack(t.q[i].state) else Off
  }

  /** _set_rfc1143; storing a new option appends it followed by three zeroed entries. */
  function Store(t: Table, o: byte, p: Pair): (t': Table)
    requires WellFormed(t)
    ensures WellFormed(t')
  {
    var i := Find(t, o, 0);
    if i < t.size then Table(t.q[i := Entry(o, Pack(p))], t.size)
    else Table(t.q[..t.size] + [Entry(o, Pack(p)), Entry(0, 0), Entry(0, 0), Entry(0, 0)], (t.size + 4) % 256)
  }

  predicate Grows(t: Table, o: byte)
    requires WellFormed(t)
  {
    Find(t, o, 0) == t.size
  }

  // ---------- the table as a map ----------

  /** The table answers every one of the 256 options as the map does. */
  predicate Represents(t: Table, m: map<byte, Pair>)
    requires WellFormed(t)
  {
    forall o: byte :: Lookup(t, o) == if o in m then m[o] else Off
  }

  lemma FindIsFirst(t: Table, o: byte, i: nat)
    requires i <= t.size <= |t.q|
    requires i < t.size ==> t.q[i].telopt == o
    requires forall j :: 0 <= j < i ==> t.q[j].telopt != o
    ensures Find(t, o, 0) == i
  {
  }

  /** The zeroed entries alias option 0, yet no answer but the stored one changes. */
  lemma StoreThenLookup(t: Table, o: byte, p: Pair, o': byte)
    requires WellFormed(t)
    requires Grows(t, o) ==> t.size + 4 < 256
    ensures Lookup(Store(t, o, p), o') == if o' == o then p else Lookup(t, o')
    ensures Store(t, o, p).size == t.size + if Grows(t, o) then 4 else 0
  {
    var t' := Store(t, o, p);
    var i, i' := Find(t, o, 0), Find(t, o', 0);
    if i < t.size || i' < t.size || o' == o {
      FindIsFirst(t', o', i');
    } else if o' == 0 {
      FindIsFirst(t', o', t.size + 1);
    } else {
      FindIsFirst(t', o', t'.size);
    }
  }

  /** The 64th growth: the length wraps to 0 and every option reads as off. */
  lemma WrapForgetsEverything(t: Table, o: byte, p: Pair, o': byte)
    requires WellFormed(t)
    requires Grows(t, o) && t.size + 4 == 256
    ensures Store(t, o, p).size == 0
    ensures Lookup(Store(t, o, p), o') == Off
  {
  }

  // ---------- runs of stores ----------

  datatype Op = Op(telopt: byte, pair: Pair)

  function After(ops: seq<Op>): (t: Table)
    ensures WellFormed(t)
  {
    if ops == [] then Empty else Store(After(ops[..|ops| - 1]), ops[|ops| - 1].telopt, ops[|ops| - 1].pair)
  }

  function LastStored(ops: seq<Op>): map<byte, Pair> {
    if ops == [] then map[] else LastStored(ops[..|ops| - 1])[ops[|ops| - 1].telopt := ops[|ops| - 1].pair]
  }

  function Growths(ops: seq<Op>): nat {
    if ops == [] then 0
    else
      var before := ops[..|ops| - 1];
      Growths(before) + if Grows(After(before), ops[|ops| - 1].telopt) then 1 else 0
  }

  /** Until the 64th growth the table is exactly the map of last stored values. */
  lemma {:induction false} TableRefinesMap(ops: seq<Op>)
    requires Growths(ops) <= 63
    ensures Represents(After(ops), LastStored(ops))
    ensures After(ops).size == 4 * Growths(ops)
  {
    if ops != [] {
      var before, last := ops[..|ops| - 1], ops[|ops| - 1];
      TableRefinesMap(before);
      hide Store, Lookup, Find, WellFormed, Grows;
      StoreThenLookup(After(before), last.telopt, last.pair, 0);
      forall o: byte
        ensures Lookup(After(ops), o) == if o in LastStored(ops) then LastStored(ops)[o] else Off
      {
        StoreThenLookup(After(before), last.telopt, last.pair, o);
        assert Lookup(After(before), o) == if o in LastStored(before) then LastStored(before)[o] else Off;
      }
    }
  }

  /** And at the 64th growth it is still that map if and only if everything ever stored is off again. */
  lemma RefinementEndsAtWrap(ops: seq<Op>, last: Op)
    requires Growths(ops) == 63 && Grows(After(ops), last.telopt)
    ensures
      var all := ops + [last];
      Represents(After(all), LastStored(all)) <==> forall o :: o in LastStored(all) ==> LastStored(all)[o] == Off
  {
    var all := ops + [last];
    assert all[..|all| - 1] == ops;
    TableRefinesMap(ops);
    forall o: byte
      ensures Lookup(After(all), o) == Off
    {
      WrapForgetsEverything(After(ops), last.telopt, last.pair, o);
    }
  }

  /** Options 1 to n, one after the other, turned on for us. */
  function Enabling(n: nat): (ops: seq<Op>)
    requires n < 256
    ensures |ops| == n && (n > 0 ==> ops[..n - 1] == Enabling(n - 1) && ops[n - 1] == Op(n, Pair(Yes, No)))
  {
    if n == 0 then [] else Enabling(n - 1) + [Op(n, Pair(Yes, No))]
  }

  lemma StoreKeepsMissing(t: Table, o: byte, p: Pair, o': byte)
    requires WellFormed(t) && t.size + 4 < 256 && o' != o && o' != 0
    requires Grows(t, o) && Grows(t, o')
    ensures Grows(Store(t, o, p), o')
  {
    FindIsFirst(Store(t, o, p), o', t.size + 4);
  }

  lemma {:induction false} EnablingGrows(n: nat)
    requires n <= 63
    ensures Growths(Enabling(n)) == n
    ensures forall o: byte :: o > n ==> Grows(After(Enabling(n)), o)
  {
    if n > 0 {
      hide Store, Grows, WellFormed;
      EnablingGrows(n - 1);
      TableRefinesMap(Enabling(n - 1));
      var t := After(Enabling(n - 1));
      assert Grows(t, n);
      forall o: byte | o > n
        ensures Grows(After(Enabling(n)), o)
      {
        assert Grows(t, o);
        StoreKeepsMissing(t, n, Pair(Yes, No), o);
      }
    }
  }

  /** The wrap is reached: options 1 to 63 are remembered, and with the 64th every one of them reads
      as off. */
  lemma WrapIsReached()
    ensures Growths(Enabling(63)) == 63 && Lookup(After(Enabling(63)), 1) == Pair(Yes, No)
    ensures Lookup(After(Enabling(64)), 1) == Off
    ensures !Represents(After(Enabling(64)), LastStored(Enabling(64)))
  {
    hide Store, Lookup, Grows, WellFormed, Growths;
    EnablingGrows(63);
    TableRefinesMap(Enabling(63));
    FirstEnabled(63);
    WrapForgetsEverything(After(Enabling(63)), 64, Pair(Yes, No), 1);
    FirstEnabled(64);
  }

  lemma {:induction false} FirstEnabled(n: nat)
    requires 0 < n < 256
    ensures 1 in LastStored(Enabling(n)) && LastStored(Enabling(n))[1] == Pair(Yes, No)
  {
    if n > 1 {
      FirstEnabled(n - 1);
    }
  }

  function Options(ops: seq<Op>): set<byte> {
    if ops == [] then {} else Options(ops[..|ops| - 1]) + {ops[|ops| - 1].telopt}
  }

  lemma StoreKeepsFound(t: Table, o: byte, p: Pair, o': byte)
    requires WellFormed(t)
    requires Grows(t, o) ==> t.size + 4 < 256
    requires o' == o || !Grows(t, o')
    ensures !Grows(Store(t, o, p), o')
  {
    FindIsFirst(Store(t, o, p), o', Find(t, o', 0));
  }

  /** Growth happens once per new option at most: a run that stores no more than 63 different
      options, which a caller can count, stays within the refinement. */
  lemma {:induction false} GrowthsBoundedByOptions(ops: seq<Op>)
    requires |Options(ops)| <= 63
    ensures Growths(ops) <= |Options(ops)|
    ensures forall o :: o in Options(ops) ==> !Grows(After(ops), o)
  {
    if ops != [] {
      var before, last := ops[..|ops| - 1], ops[|ops| - 1];
      if last.telopt in Options(before) {
        assert Options(ops) == Options(before);
      }
      GrowthsBoundedByOptions(before);
      TableRefinesMap(before);
      forall o | o in Options(ops)
        ensures !Grows(After(ops), o)
      {
        StoreKeepsFound(After(before), last.telopt, last.pair, o);
      }
    }
  }
}
