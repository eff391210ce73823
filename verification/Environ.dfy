/**
 * The in-place ENVIRON / NEW-ENVIRON decoder of libtelnet (_environ_telnet),
 * and the encoder it answers (RFC 1572, section 2).
 */
module Environ {
  import opened Bytes

  const VAR: byte := 0
  const VALUE: byte := 1
  const ESC: byte := 2
  const USERVAR: byte := 3

  /** A variable as the event handler sees it: two NUL-terminated strings. */
  datatype Variable = Variable(kind: byte, name: bytes, value: bytes)

  datatype Outcome =
    | Ignored              // no data at all
    | BadCommand
    | MissingKind
    | EndsWithEsc
    | Accepted(cmd: byte, vars: seq<Variable>)

  predicate Marker(b: byte) { b == VAR || b == USERVAR }

  /** The bytes that end a name (VALUE included) or a value. */
  predicate Stops(b: byte, inValue: bool) { Marker(b) || (b == VALUE && !inValue) }

  // ---------- meaning of a buffer ----------

  /** Where the text starting at `c` ends. */
  function TextEnd(s: bytes, c: nat, inValue: bool): (e: nat)
    requires c <= |s|
    ensures c <= e <= |s|
    ensures e < |s| && s[|s| - 1] != ESC ==> Stops(s[e], inValue)
    decreases |s| - c
  {
    if c == |s| || Stops(s[c], inValue) then c
    else if s[c] == ESC then if c + 1 < |s| then TextEnd(s, c + 2, inValue) else c
    else TextEnd(s, c + 1, inValue)
  }

  /** That text with its ESC bytes removed. */
  function Text(s: bytes, c: nat, inValue: bool): bytes
    requires c <= |s|
    decreases |s| - c
  {
    if c == |s| || Stops(s[c], inValue) then []
    else if s[c] == ESC then if c + 1 < |s| then [s[c + 1]] + Text(s, c + 2, inValue) else []
    else [s[c]] + Text(s, c + 1, inValue)
  }

  predicate HasValue(s: bytes, c: nat)
    requires c < |s|
  {
    var e := TextEnd(s, c + 1, false);
    e < |s| && s[e] == VALUE
  }

  /** The end of the entry whose kind byte is at `c`. */
  function EntryEnd(s: bytes, c: nat): (e: nat)
    requires c < |s|
    ensures c < e <= |s|
  {
    var e := TextEnd(s, c + 1, false);
    if HasValue(s, c) then TextEnd(s, e + 1, true) else e
  }

  /** The full unescaped entry whose kind byte is at `c`. */
  function EntryAt(s: bytes, c: nat): Variable
    requires c < |s|
  {
    Variable(s[c], Text(s, c + 1, false), if HasValue(s, c) then Text(s, TextEnd(s, c + 1, false) + 1, true) else [])
  }

  /** The entries from `c` to the end. */
  function Entries(s: bytes, c: nat): seq<Variable>
    requires c <= |s|
    decreases |s| - c
  {
    if c == |s| then [] else [EntryAt(s, c)] + Entries(s, EntryEnd(s, c))
  }

  /** What a C string shows of a text. */
  function UpToNul(s: bytes): bytes {
    if s == [] || s[0] == 0 then [] else [s[0]] + UpToNul(s[1..])
  }

  function Shown(v: Variable): Variable { Variable(v.kind, UpToNul(v.name), UpToNul(v.value)) }

  function Visible(vs: seq<Variable>): (r: seq<Variable>)
    ensures |r| == |vs|
  {
    seq(|vs|, i requires 0 <= i < |vs| => Shown(vs[i]))
  }

  /** _environ_telnet on a sub-negotiation buffer. */
  function Meaning(s: bytes): Outcome {
    if s == [] then Ignored
    else if s[0] > 2 then BadCommand
    else if |s| == 1 then Accepted(s[0], [])
    else if !Marker(s[1]) then MissingKind
    else if s[|s| - 1] == ESC then EndsWithEsc
    else Accepted(s[0], Visible(Entries(s, 1)))
  }

  // ---------- the counting pass ----------

  /** Unescaped VAR and USERVAR bytes at or after `c`. */
  function Count(s: bytes, c: nat): nat
    decreases |s| - c
  {
    if c >= |s| then 0
    else if Marker(s[c]) then 1 + Count(s, c + 1)
    else if s[c] == ESC then Count(s, c + 2)
    else Count(s, c + 1)
  }

  lemma {:induction false} CountSkipsText(s: bytes, c: nat, inValue: bool)
    requires c <= |s|
    requires s != [] ==> s[|s| - 1] != ESC
    ensures Count(s, c) == Count(s, TextEnd(s, c, inValue))
    decreases |s| - c
  {
    if c == |s| || Stops(s[c], inValue) {
    } else if s[c] == ESC {
      CountSkipsText(s, c + 2, inValue);
    } else {
      CountSkipsText(s, c + 1, inValue);
    }
  }

  predicate AtEntry(s: bytes, c: nat) {
    c <= |s| && (c < |s| ==> Marker(s[c]))
  }

  lemma EntryEndsAtEntry(s: bytes, c: nat)
    requires c < |s| && Marker(s[c]) && s[|s| - 1] != ESC
    ensures AtEntry(s, EntryEnd(s, c))
    ensures Count(s, c) == 1 + Count(s, EntryEnd(s, c))
  {
    var e := TextEnd(s, c + 1, false);
    CountSkipsText(s, c + 1, false);
    if HasValue(s, c) {
      CountSkipsText(s, e + 1, true);
    }
  }

  /** The counting pass announces exactly the entries the parsing pass finds,
      and every entry starts at an unescaped VAR or USERVAR. */
  lemma {:induction false} CountIsEntries(s: bytes, c: nat)
    requires AtEntry(s, c)
    requires s != [] ==> s[|s| - 1] != ESC
    ensures Count(s, c) == |Entries(s, c)|
    ensures forall i :: 0 <= i < |Entries(s, c)| ==> Marker(Entries(s, c)[i].kind)
    decreases |s| - c
  {
    if c < |s| {
      EntryEndsAtEntry(s, c);
      CountIsEntries(s, EntryEnd(s, c));
    }
  }

  // ---------- the in-place decoder ----------

  /** A text stored at `at` in the first `out` bytes of the buffer, with its terminator. */
  predicate Stored(b: bytes, at: nat, text: bytes, out: nat) {
    && at + |text| < out <= |b|
    && b[at..at + |text|] == text
    && b[at + |text|] == 0
  }

  /** The C string at `at`. */
  function CString(b: bytes, at: nat): bytes
    requires at <= |b|
    decreases |b| - at
  {
    if at == |b| || b[at] == 0 then [] else [b[at]] + CString(b, at + 1)
  }

  lemma {:induction false} CStringShows(b: bytes, at: nat, text: bytes, out: nat)
    requires Stored(b, at, text, out)
    ensures CString(b, at) == UpToNul(text)
    decreases |text|
  {
    if text != [] {
      assert b[at..at + |text|][0] == text[0];
      assert b[at + 1..at + |text|] == b[at..at + |text|][1..];
      CStringShows(b, at + 1, text[1..], out);
    }
  }

  /** What the decoder records about a variable: its kind and where its strings are. */
  datatype Slot = Slot(kind: byte, name: nat, value: Option<nat>)

  predicate SlotHolds(b: bytes, slot: Slot, v: Variable, out: nat) {
    && slot.kind == v.kind
    && Stored(b, slot.name, v.name, out)
    && (slot.value.None? ==> v.value == [])
    && (slot.value.Some? ==> Stored(b, slot.value.value, v.value, out))
  }

  predicate SlotsHold(b: bytes, slots: seq<Slot>, vs: seq<Variable>, out: nat) {
    |slots| == |vs| && forall i :: 0 <= i < |slots| ==> SlotHolds(b, slots[i], vs[i], out)
  }

  lemma TextStep(s: bytes, c: nat, d: nat, inValue: bool)
    requires c < |s| && !Stops(s[c], inValue) && s[|s| - 1] != ESC
    requires d == if s[c] == ESC then c + 1 else c
    ensures d < |s|
    ensures Text(s, c, inValue) == [s[d]] + Text(s, d + 1, inValue)
    ensures TextEnd(s, c, inValue) == TextEnd(s, d + 1, inValue)
  {
  }

  /** The start of the text at c0 has been copied to out0..out, and c is where reading goes on. */
  predicate Copied(s: bytes, b: bytes, c0: nat, out0: nat, c: nat, out: nat, inValue: bool)
    requires c0 <= |s| <= |b|
  {
    var full, n := Text(s, c0, inValue), out - out0;
    && c0 <= c <= |s| && out0 <= out && out + 1 < c
    && n <= |full|
    && full[n..] == Text(s, c, inValue)
    && TextEnd(s, c0, inValue) == TextEnd(s, c, inValue)
    && b[out0..out] == full[..n]
    && b[c..|s|] == s[c..]
  }

  lemma CopyStep(s: bytes, b: bytes, c0: nat, out0: nat, c: nat, out: nat, inValue: bool, from: nat)
    requires c0 <= |s| <= |b| && Copied(s, b, c0, out0, c, out, inValue)
    requires c < |s| && !Stops(b[c], inValue) && s[|s| - 1] != ESC
    requires from == if b[c] == ESC then c + 1 else c
    ensures from < |s|
    ensures Copied(s, b[out := b[from]], c0, out0, from + 1, out + 1, inValue)
  {
    var full, n, b' := Text(s, c0, inValue), out - out0, b[out := b[from]];
    assert s[c..][0] == b[c] == s[c];
    TextStep(s, c, from, inValue);
    assert b[from] == b[c..|s|][from - c] == s[from];
    assert full[n] == full[n..][0];
    assert full[n + 1..] == full[n..][1..];
    assert b'[out0..out] == b[out0..out];
    assert b'[out0..out + 1] == b'[out0..out] + [s[from]] == full[..n + 1];
    assert b'[from + 1..|s|] == b[c..|s|][from + 1 - c..];
  }

  lemma CopyStart(s: bytes, b: bytes, c0: nat, out0: nat, inValue: bool)
    requires out0 + 1 < c0 <= |s| <= |b| && b[c0..|s|] == s[c0..]
    ensures Copied(s, b, c0, out0, c0, out0, inValue)
  {
    hide Text, TextEnd;
  }

  lemma CopyDone(s: bytes, b: bytes, c0: nat, out0: nat, c: nat, out: nat, inValue: bool)
    requires c0 <= |s| <= |b| && Copied(s, b, c0, out0, c, out, inValue)
    requires c == |s| || Stops(b[c], inValue)
    ensures c == TextEnd(s, c0, inValue)
    ensures Stored(b[out := 0], out0, Text(s, c0, inValue), out + 1)
    ensures c <= |s| && b[c..|s|] == s[c..]
  {
    var full, n := Text(s, c0, inValue), out - out0;
    if c < |s| {
      assert s[c..][0] == b[c] == s[c];
    }
    assert Text(s, c, inValue) == [];
    assert full[..n] == full;
    assert b[out := 0][out0..out] == b[out0..out];
  }

  /** The name or value loop: copies a text down to `out` and terminates it. The write position
      stays strictly behind the read position, so nothing unread of the received bytes `s` is lost. */
  method CopyText(ghost s: bytes, buffer: array<byte>, size: nat, c0: nat, out0: nat, inValue: bool)
    returns (c: nat, out: nat)
    requires out0 + 1 < c0 <= size == |s| <= buffer.Length
    requires buffer[c0..size] == s[c0..] && s[size - 1] != ESC
    modifies buffer
    ensures c == TextEnd(s, c0, inValue)
    ensures Stored(buffer[..], out0, Text(s, c0, inValue), out)
    ensures out0 < out < c
    ensures buffer[..out0] == old(buffer[..out0])
    ensures buffer[c..size] == s[c..]
  {
    hide Text, TextEnd, Copied, Stored;
    ghost var b := buffer[..];
    c, out := c0, out0;
    CopyStart(s, b, c0, out0, inValue);
    while c < size && !Stops(buffer[c], inValue)
      invariant c0 <= c <= size && out0 <= out && out + 1 < c
      invariant buffer[..] == b && |b| == buffer.Length
      invariant Copied(s, b, c0, out0, c, out, inValue)
      invariant b[..out0] == old(buffer[..out0])
    {
      var from := if buffer[c] == ESC then c + 1 else c;
      CopyStep(s, b, c0, out0, c, out, inValue, from);
      b := b[out := b[from]];
      buffer[out] := buffer[from];
      out, c := out + 1, from + 1;
    }
    CopyDone(s, b, c0, out0, c, out, inValue);
    ghost var b' := b[out := 0];
    buffer[out] := 0;
    assert buffer[..] == b';
    KeptAround(b, b', out0, out, c, size);
    out := out + 1;
  }

  lemma KeptAround(b: bytes, b': bytes, out0: nat, out: nat, c: nat, size: nat)
    requires out0 <= out < c <= size <= |b| && b' == b[out := 0]
    ensures b'[..out0] == b[..out0] && b'[c..size] == b[c..size]
  {
  }

  lemma StoredStays(b: bytes, b': bytes, at: nat, text: bytes, out: nat, out': nat)
    requires Stored(b, at, text, out) && out <= out' <= |b'| && b'[..out] == b[..out]
    ensures Stored(b', at, text, out')
  {
    assert b'[at..at + |text|] == b'[..out][at..at + |text|];
    assert b'[at + |text|] == b'[..out][at + |text|];
  }

  /** One turn of the parsing loop. */
  method ParseEntry(ghost s: bytes, buffer: array<byte>, size: nat, c0: nat, out0: nat)
    returns (slot: Slot, c: nat, out: nat)
    requires out0 < c0 < size == |s| <= buffer.Length
    requires buffer[c0..size] == s[c0..] && s[size - 1] != ESC
    modifies buffer
    ensures c == EntryEnd(s, c0)
    ensures SlotHolds(buffer[..], slot, EntryAt(s, c0), out)
    ensures out0 < out < c
    ensures buffer[..out0] == old(buffer[..out0])
    ensures buffer[c..size] == s[c..]
  {
    hide Text, TextEnd, Stored;
    Shifted(s, buffer[..], size, c0);
    var kind := buffer[c0];
    c, out := CopyText(s, buffer, size, c0 + 1, out0, false);
    slot := Slot(kind, out0, None);
    ghost var b, mid := buffer[..], out;
    if c < size {
      Shifted(s, b, size, c);
      if buffer[c] == VALUE {
        slot := Slot(kind, out0, Some(out));
        c, out := CopyText(s, buffer, size, c + 1, out, true);
        SamePrefix(b, buffer[..], out0, mid);
        StoredStays(b, buffer[..], out0, Text(s, c0 + 1, false), mid, out);
      }
    }
  }

  /** One byte of the unread rest is taken. */
  lemma Shifted(s: bytes, b: bytes, size: nat, c: nat)
    requires c < size == |s| <= |b| && b[c..size] == s[c..]
    ensures b[c] == s[c] && b[c + 1..size] == s[c + 1..]
  {
    assert b[c..size][0] == s[c..][0];
    assert b[c..size][1..] == s[c..][1..];
  }

  lemma SamePrefix(b: bytes, b': bytes, n: nat, m: nat)
    requires n <= m <= |b| && m <= |b'| && b'[..m] == b[..m]
    ensures b'[..n] == b[..n]
  {
    assert b'[..n] == b'[..m][..n] && b[..n] == b[..m][..n];
  }

  /** The counting loop. */
  method CountEntries(buffer: array<byte>, size: nat) returns (count: nat)
    requires 0 < size <= buffer.Length
    ensures count == Count(buffer[..size], 1)
  {
    ghost var s := buffer[..size];
    count := 0;
    var c := 1;
    while c < size
      invariant 1 <= c
      invariant count + Count(s, c) == Count(s, 1)
      decreases size - c
    {
      if Marker(buffer[c]) {
        count := count + 1;
      } else if buffer[c] == ESC {
        c := c + 1;
      }
      c := c + 1;
    }
  }

  lemma SlotsStay(b: bytes, b': bytes, slots: seq<Slot>, vs: seq<Variable>, out: nat, out': nat)
    requires SlotsHold(b, slots, vs, out) && out <= out' <= |b'| && out <= |b| && b'[..out] == b[..out]
    ensures SlotsHold(b', slots, vs, out')
  {
    forall i | 0 <= i < |slots|
      ensures SlotHolds(b', slots[i], vs[i], out')
    {
      StoredStays(b, b', slots[i].name, vs[i].name, out, out');
      if slots[i].value.Some? {
        StoredStays(b, b', slots[i].value.value, vs[i].value, out, out');
      }
    }
  }

  /** The variables the event handler reads through the recorded pointers. */
  function Read(b: bytes, slots: seq<Slot>): seq<Variable>
    requires InBounds(b, slots)
  {
    seq(|slots|, i requires 0 <= i < |slots| =>
      Variable(slots[i].kind, CString(b, slots[i].name),
               if slots[i].value.Some? then CString(b, slots[i].value.value) else []))
  }

  lemma ReadIsVisible(b: bytes, slots: seq<Slot>, vs: seq<Variable>, out: nat)
    requires SlotsHold(b, slots, vs, out)
    ensures InBounds(b, slots)
    ensures Read(b, slots) == Visible(vs)
  {
    forall i | 0 <= i < |slots|
      ensures slots[i].name <= |b| && CString(b, slots[i].name) == UpToNul(vs[i].name)
      ensures slots[i].value.Some? ==>
                slots[i].value.value <= |b| && CString(b, slots[i].value.value) == UpToNul(vs[i].value)
    {
      assert SlotHolds(b, slots[i], vs[i], out);
      CStringShows(b, slots[i].name, vs[i].name, out);
      if slots[i].value.Some? {
        CStringShows(b, slots[i].value.value, vs[i].value, out);
      }
    }
  }

  predicate InBounds(b: bytes, slots: seq<Slot>) {
    forall i :: 0 <= i < |slots| ==>
      slots[i].name <= |b| && (slots[i].value.Some? ==> slots[i].value.value <= |b|)
  }

  lemma NothingHeld(s: bytes, b: bytes)
    requires |s| > 1 && Marker(s[1])
    ensures AtEntry(s, 1) && Entries(s, 1) == [] + Entries(s, 1) && SlotsHold(b, [], [], 0)
  {
    hide Entries;
  }

  lemma OneMoreEntry(s: bytes, c: nat, done: seq<Variable>)
    requires AtEntry(s, c) && Count(s, c) > 0
    ensures c < |s| && done + Entries(s, c) == (done + [EntryAt(s, c)]) + Entries(s, EntryEnd(s, c))
  {
    hide EntryAt, EntryEnd;
  }

  lemma NoMoreEntries(s: bytes, c: nat, done: seq<Variable>)
    requires c <= |s| && |Entries(s, c)| == 0
    ensures done + Entries(s, c) == done
  {
    hide Entries;
  }

  lemma OneMoreSlot(b: bytes, slots: seq<Slot>, vs: seq<Variable>, out: nat, slot: Slot, v: Variable)
    requires SlotsHold(b, slots, vs, out) && SlotHolds(b, slot, v, out)
    ensures SlotsHold(b, slots + [slot], vs + [v], out)
  {
    hide SlotHolds;
  }

  /** The parsing loop. */
  method ParseEntries(buffer: array<byte>, size: nat, count: nat) returns (slots: seq<Slot>)
    requires 1 < size <= buffer.Length && Marker(buffer[1]) && buffer[size - 1] != ESC
    requires count == Count(buffer[..size], 1)
    modifies buffer
    ensures InBounds(buffer[..], slots)
    ensures Read(buffer[..], slots) == Visible(Entries(old(buffer[..size]), 1))
  {
    hide Count, Entries, EntryAt, EntryEnd, SlotsHold, Read, Visible, InBounds;
    ghost var s, done: seq<Variable> := buffer[..size], [];
    slots := [];
    NothingHeld(s, buffer[..]);
    var c, out := 1, 0;
    for index := 0 to count
      invariant |slots| == index
      invariant out < c && AtEntry(s, c)
      invariant buffer[c..size] == s[c..]
      invariant count - index == Count(s, c)
      invariant Entries(s, 1) == done + Entries(s, c)
      invariant SlotsHold(buffer[..], slots, done, out)
    {
      OneMoreEntry(s, c, done);
      EntryEndsAtEntry(s, c);
      ghost var b, c0, out0 := buffer[..], c, out;
      var slot;
      slot, c, out := ParseEntry(s, buffer, size, c, out);
      assert buffer[..][..out0] == b[..out0];
      SlotsStay(b, buffer[..], slots, done, out0, out);
      OneMoreSlot(buffer[..], slots, done, out, slot, EntryAt(s, c0));
      slots := slots + [slot];
      done := done + [EntryAt(s, c0)];
    }
    CountIsEntries(s, c);
    NoMoreEntries(s, c, done);
    ReadIsVisible(buffer[..], slots, done, out);
  }

  /** _environ_telnet: both passes over the buffer, decoding in place. */
  method DecodeInPlace(buffer: array<byte>, size: nat) returns (r: Outcome)
    requires size <= buffer.Length
    modifies buffer
    ensures r == Meaning(old(buffer[..size]))
  {
    if size == 0 {
      return Ignored;
    }
    if buffer[0] > 2 {
      return BadCommand;
    }
    var cmd := buffer[0];
    if size == 1 {
      return Accepted(cmd, []);
    }
    if !Marker(buffer[1]) {
      return MissingKind;
    }
    if buffer[size - 1] == ESC {
      return EndsWithEsc;
    }
    var count := CountEntries(buffer, size);
    var slots := ParseEntries(buffer, size, count);
    r := Accepted(cmd, Read(buffer[..], slots));
  }
}
