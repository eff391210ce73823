/**
 * Environment lists whose texts are escaped as section 2 of RFC 1572 asks: ESC stands before every VAR,
 * VALUE, ESC and USERVAR byte. The library's own encoder does not do this, other senders do.
 */
module EnvironEscaped {
  import opened Bytes
  import opened Environ
  import opened EnvironRoundTrip

  function Guarded(text: bytes): bytes {
    if text == [] then []
    else (if text[0] <= USERVAR then [ESC, text[0]] else [text[0]]) + Guarded(text[1..])
  }

  function GuardedSetting(v: Setting): Setting {
    Setting(v.kind, Guarded(v.name), if v.value.Some? then Some(Guarded(v.value.value)) else None)
  }

  function GuardedAll(vs: seq<Setting>): (gs: seq<Setting>)
    ensures |gs| == |vs|
    ensures forall i :: 0 <= i < |vs| ==> gs[i] == GuardedSetting(vs[i])
  {
    seq(|vs|, i requires 0 <= i < |vs| => GuardedSetting(vs[i]))
  }

  /** The first byte of an escaped text, and what follows it. */
  lemma GuardedTail(s: bytes, c: nat, text: bytes, inValue: bool)
    requires text != [] && Framed(s, c, Guarded(text), inValue)
    ensures
      var n := if text[0] <= USERVAR then 2 else 1;
      && |Guarded(text)| == n + |Guarded(text[1..])| && c + n <= |s|
      && Framed(s, c + n, Guarded(text[1..]), inValue) && s[c + n - 1] == text[0] && (n == 2 ==> s[c] == ESC)
  {
    var g := Guarded(text);
    FramedTail(s, c, g, inValue);
    if text[0] <= USERVAR {
      FramedTail(s, c + 1, g[1..], inValue);
      assert g[1..][1..] == Guarded(text[1..]);
    } else {
      assert g[1..] == Guarded(text[1..]);
    }
  }

  /** One byte is read, escaped or not. */
  lemma TextGoesOn(s: bytes, c: nat, n: nat, inValue: bool)
    requires c + n <= |s|
    requires if n == 2 then s[c] == ESC else n == 1 && s[c] > USERVAR
    ensures Text(s, c, inValue) == [s[c + n - 1]] + Text(s, c + n, inValue)
    ensures TextEnd(s, c, inValue) == TextEnd(s, c + n, inValue)
  {
  }

  lemma TextIsOver(s: bytes, c: nat, inValue: bool)
    requires Framed(s, c, [], inValue)
    ensures Text(s, c, inValue) == [] && TextEnd(s, c, inValue) == c
  {
  }

  /** Every text comes through, whatever bytes it holds. */
  lemma {:induction false} GuardedTextIsRead(s: bytes, c: nat, text: bytes, inValue: bool)
    requires Framed(s, c, Guarded(text), inValue)
    ensures TextEnd(s, c, inValue) == c + |Guarded(text)| && Text(s, c, inValue) == text
    decreases |text|
  {
    hide Text, TextEnd, Framed;
    if text == [] {
      TextIsOver(s, c, inValue);
    } else {
      var n := if text[0] <= USERVAR then 2 else 1;
      GuardedTail(s, c, text, inValue);
      TextGoesOn(s, c, n, inValue);
      GuardedTextIsRead(s, c + n, text[1..], inValue);
      assert text == [text[0]] + text[1..];
    }
  }

  lemma GuardedNameIsRead(s: bytes, c: nat, vs: seq<Setting>)
    requires vs != [] && AllKinded(GuardedAll(vs)) && Holds(s, c, GuardedAll(vs))
    ensures c < |s| && s[c] == vs[0].kind && Text(s, c + 1, false) == vs[0].name
    ensures TextEnd(s, c + 1, false) == c + 1 + |Guarded(vs[0].name)|
    ensures HasValue(s, c) <==> vs[0].value.Some?
    ensures HoldsAfterName(s, c + 1 + |GuardedAll(vs)[0].name|, GuardedAll(vs))
  {
    hide Text, TextEnd, Guarded, Payload, Framed, Holds, HoldsAfterName, AllKinded;
    var gs := GuardedAll(vs);
    NameIsFramed(s, c, gs);
    GuardedTextIsRead(s, c + 1, vs[0].name, false);
    if vs[0].value.Some? {
      ValueIsFramed(s, c + 1 + |gs[0].name|, gs);
    }
  }

  lemma GuardedEntryIsRead(s: bytes, c: nat, vs: seq<Setting>)
    requires vs != [] && AllKinded(GuardedAll(vs)) && Holds(s, c, GuardedAll(vs))
    ensures c < |s| && EntryAt(s, c) == AsVariable(vs[0])
    ensures Holds(s, EntryEnd(s, c), GuardedAll(vs)[1..])
  {
    hide Text, TextEnd, Guarded, Payload, Framed, Holds, HoldsAfterName, AllKinded;
    var gs := GuardedAll(vs);
    var e := c + 1 + |gs[0].name|;
    GuardedNameIsRead(s, c, vs);
    if vs[0].value.Some? {
      ValueIsFramed(s, e, gs);
      GuardedTextIsRead(s, e + 1, vs[0].value.value, true);
    } else {
      NameIsFramed(s, c, gs);
    }
  }

  lemma {:induction false} GuardedEntriesAreRead(s: bytes, c: nat, vs: seq<Setting>)
    requires AllKinded(GuardedAll(vs)) && Holds(s, c, GuardedAll(vs))
    ensures Entries(s, c) == Expected(vs)
    decreases |vs|
  {
    hide EntryAt, EntryEnd, Guarded;
    if vs != [] {
      GuardedEntryIsRead(s, c, vs);
      assert GuardedAll(vs)[1..] == GuardedAll(vs[1..]);
      GuardedEntriesAreRead(s, EntryEnd(s, c), vs[1..]);
      assert Expected(vs) == [AsVariable(vs[0])] + Expected(vs[1..]);
    }
  }

  /** The handler sees C strings: an escaped NUL hides what stands behind it. */
  lemma {:induction false} NulHidesTheRest(a: bytes, b: bytes)
    requires 0 !in a
    ensures UpToNul(a) == a && UpToNul(a + [0] + b) == a
    decreases |a|
  {
    if a != [] {
      NulHidesTheRest(a[1..], b);
      assert (a + [0] + b)[1..] == a[1..] + [0] + b;
    }
  }

  predicate EndsInEsc(text: bytes) { text != [] && text[|text| - 1] == ESC }

  lemma {:induction false} GuardedEnd(text: bytes)
    ensures EndsInEsc(Guarded(text)) <==> EndsInEsc(text)
    ensures Guarded(text) == [] <==> text == []
  {
    if text != [] {
      GuardedEnd(text[1..]);
    }
  }

  /** The text that a list ends with. */
  function LastText(vs: seq<Setting>): bytes
    requires vs != []
  {
    var v := vs[|vs| - 1];
    if v.value.Some? then v.value.value else v.name
  }

  lemma {:induction false} PayloadEnd(vs: seq<Setting>)
    requires vs != [] && AllKinded(vs)
    ensures EndsInEsc(Payload(vs)) <==> EndsInEsc(LastText(vs))
  {
    var v, rest := vs[0], Payload(vs[1..]);
    if |vs| > 1 {
      PayloadEnd(vs[1..]);
      assert LastText(vs) == LastText(vs[1..]);
      assert Payload(vs)[|Payload(vs)| - 1] == rest[|rest| - 1];
    } else {
      assert Payload(vs) == Encode(v);
    }
  }

  /** An escaped list is taken for exactly what it says, whatever bytes its texts hold, except that a list
      whose last text ends in ESC is refused: its last byte is an escaped ESC, and the check in front of
      the parsing does not tell it from an escape that lacks its byte. */
  lemma EscapedListIsReadExactlyUnlessItEndsInEsc(cmd: byte, vs: seq<Setting>)
    requires cmd <= 2 && AllKinded(vs) && vs != []
    ensures Meaning([cmd] + Payload(GuardedAll(vs))) ==
            if EndsInEsc(LastText(vs)) then EndsWithEsc else Accepted(cmd, Visible(Expected(vs)))
  {
    hide Entries, Guarded, Visible, Expected;
    var gs := GuardedAll(vs);
    var s := [cmd] + Payload(gs);
    assert s[1..] == Payload(gs);
    assert Payload(gs)[0] == gs[0].kind == s[1];
    PayloadEnd(gs);
    GuardedEnd(LastText(vs));
    GuardedEntriesAreRead(s, 1, vs);
  }
}
