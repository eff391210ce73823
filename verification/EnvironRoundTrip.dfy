/** What of an environment list survives the NEW-ENVIRON encoder and decoder. */
module EnvironRoundTrip {
  import opened Bytes
  import opened Environ

  /** One variable as the sender gives it, the value being optional. */
  datatype Setting = Setting(kind: byte, name: bytes, value: Option<bytes>)

  /** telnet_newenviron_value for the name and, if given, for the value. */
  function Encode(v: Setting): (r: bytes)
    ensures r != []
  {
    [v.kind] + v.name + if v.value.Some? then [VALUE] + v.value.value else []
  }

  function Payload(vs: seq<Setting>): bytes {
    if vs == [] then [] else Encode(vs[0]) + Payload(vs[1..])
  }

  function AsVariable(v: Setting): Variable {
    Variable(v.kind, v.name, if v.value.Some? then v.value.value else [])
  }

  function Expected(vs: seq<Setting>): seq<Variable> {
    seq(|vs|, i requires 0 <= i < |vs| => AsVariable(vs[i]))
  }

  /** What the API itself demands: a variable kind, and C strings. */
  predicate Sendable(v: Setting) {
    Marker(v.kind) && 0 !in v.name && (v.value.Some? ==> 0 !in v.value.value)
  }

  /** No byte that the decoder gives a meaning to. */
  predicate Plain(text: bytes, inValue: bool) {
    forall b :: b in text ==> !Stops(b, inValue) && b != ESC
  }

  predicate PlainSetting(v: Setting) {
    Plain(v.name, false) && (v.value.Some? ==> Plain(v.value.value, true))
  }

  /** `text` is in the buffer at c, followed by a byte that ends it or by the end. */
  predicate Framed(s: bytes, c: nat, text: bytes, inValue: bool) {
    && c + |text| <= |s|
    && s[c..c + |text|] == text
    && (c + |text| < |s| ==> Stops(s[c + |text|], inValue))
  }

  lemma FramedTail(s: bytes, c: nat, text: bytes, inValue: bool)
    requires Framed(s, c, text, inValue) && text != []
    ensures s[c] == text[0] && Framed(s, c + 1, text[1..], inValue)
  {
    assert s[c..c + |text|][0] == text[0];
    assert s[c + 1..c + |text|] == s[c..c + |text|][1..];
  }

  lemma {:induction false} PlainTextIsRead(s: bytes, c: nat, text: bytes, inValue: bool)
    requires Framed(s, c, text, inValue) && Plain(text, inValue)
    ensures TextEnd(s, c, inValue) == c + |text| && Text(s, c, inValue) == text
    decreases |text|
  {
    if text != [] {
      FramedTail(s, c, text, inValue);
      PlainTextIsRead(s, c + 1, text[1..], inValue);
    }
  }

  lemma {:induction false} NothingHidden(text: bytes)
    requires 0 !in text
    ensures UpToNul(text) == text
  {
    if text != [] {
      NothingHidden(text[1..]);
    }
  }

  /** Once an ESC has been dropped, reading runs ahead of the expected text and never agrees with it. */
  lemma {:induction false} NeverCatchesUp(s: bytes, c: nat, text: bytes, inValue: bool, q: nat, j: nat)
    requires Framed(s, c, text, inValue) && 0 !in text
    requires j < q <= |text| && forall i :: j <= i < q ==> text[i] == ESC
    ensures UpToNul(Text(s, c + q, inValue)) != text[j..]
    decreases |text| - q
  {
    var L := c + |text|;
    if q < |text| && text[q] == ESC {
      assert s[c + q] == s[c..L][q] && text[j..][0] == ESC;
      if q + 1 < |text| {
        assert s[c + q + 1] == s[c..L][q + 1];
        assert text[j..][1..] == text[j + 1..];
        if text[q + 1] == ESC {
          NeverCatchesUp(s, c, text, inValue, q + 2, j + 1);
        }
      }
    } else if q < |text| {
      assert s[c + q] == s[c..L][q] && text[j..][0] == ESC;
    }
  }

  lemma PlainUnfolds(text: bytes, inValue: bool)
    requires text != []
    ensures Plain(text, inValue) <==> !Stops(text[0], inValue) && text[0] != ESC && Plain(text[1..], inValue)
  {
    assert text[0] in text;
    forall b
      ensures b in text <==> b == text[0] || b in text[1..]
    {
      assert text == [text[0]] + text[1..];
    }
  }

  /** A text comes through if and only if it is plain. */
  lemma {:induction false} TextSurvivesExactlyIfPlain(s: bytes, c: nat, text: bytes, inValue: bool)
    requires Framed(s, c, text, inValue) && 0 !in text
    ensures UpToNul(Text(s, c, inValue)) == text <==> Plain(text, inValue)
    decreases |text|
  {
    if text != [] {
      FramedTail(s, c, text, inValue);
      if Stops(text[0], inValue) {
        assert text[0] in text;
      } else if text[0] == ESC {
        assert text[0] in text;
        if |text| > 1 && text[1] == ESC {
          assert s[c + 1] == s[c..c + |text|][1];
          NeverCatchesUp(s, c, text, inValue, 2, 1);
        } else if |text| > 1 {
          assert s[c + 1] == s[c..c + |text|][1];
        }
      } else {
        TextSurvivesExactlyIfPlain(s, c + 1, text[1..], inValue);
        PlainUnfolds(text, inValue);
      }
    }
  }

  /** The list `vs` is in the buffer from c to its end. */
  predicate Holds(s: bytes, c: nat, vs: seq<Setting>) {
    c <= |s| && s[c..] == Payload(vs)
  }

  predicate AllKinded(vs: seq<Setting>) { forall i :: 0 <= i < |vs| ==> Marker(vs[i].kind) }
  predicate AllSendable(vs: seq<Setting>) { forall i :: 0 <= i < |vs| ==> Sendable(vs[i]) }
  predicate AllPlain(vs: seq<Setting>) { forall i :: 0 <= i < |vs| ==> PlainSetting(vs[i]) }

  /** The rest of the list, from just after the first name. */
  predicate HoldsAfterName(s: bytes, e: nat, vs: seq<Setting>)
    requires vs != []
  {
    e <= |s| && s[e..] == (if vs[0].value.Some? then [VALUE] + vs[0].value.value else []) + Payload(vs[1..])
  }

  lemma SendableIsKinded(vs: seq<Setting>)
    requires AllSendable(vs)
    ensures AllKinded(vs)
  {
    forall i | 0 <= i < |vs|
      ensures Marker(vs[i].kind)
    {
      assert Sendable(vs[i]);
    }
  }

  /** A list begins with a kind byte. */
  lemma PayloadStart(vs: seq<Setting>)
    requires AllKinded(vs)
    ensures Payload(vs) != [] ==> Marker(Payload(vs)[0])
  {
    assert vs != [] ==> Marker(vs[0].kind);
  }

  lemma NameIsFramed(s: bytes, c: nat, vs: seq<Setting>)
    requires vs != [] && AllKinded(vs) && Holds(s, c, vs)
    ensures c < |s| && s[c] == vs[0].kind
    ensures Framed(s, c + 1, vs[0].name, false)
    ensures
      var e := c + 1 + |vs[0].name|;
      HoldsAfterName(s, e, vs) && (vs[0].value.None? ==> (e < |s| ==> s[e] != VALUE) && Holds(s, e, vs[1..]))
  {
    var v, rest := vs[0], Payload(vs[1..]);
    var after := (if v.value.Some? then [VALUE] + v.value.value else []) + rest;
    PayloadStart(vs[1..]);
    assert after != [] ==> Stops(after[0], false) && (v.value.None? ==> after[0] != VALUE);
    SplitAt(s, c, [v.kind] + v.name, after);
    hide Payload, AllKinded;
    assert s[c] == s[c..c + 1 + |v.name|][0];
    assert s[c + 1..c + 1 + |v.name|] == s[c..c + 1 + |v.name|][1..];
  }

  /** The buffer from c is `a` followed by `b`. */
  lemma SplitAt(s: bytes, c: nat, a: bytes, b: bytes)
    requires c <= |s| && s[c..] == a + b
    ensures c + |a| <= |s| && s[c..c + |a|] == a && s[c + |a|..] == b
    ensures b != [] ==> s[c + |a|] == b[0]
  {
    assert s[c..][..|a|] == a && s[c..][|a|..] == b;
    assert s[c..c + |a|] == s[c..][..|a|] && s[c + |a|..] == s[c..][|a|..];
  }

  lemma ValueIsFramed(s: bytes, e: nat, vs: seq<Setting>)
    requires vs != [] && AllKinded(vs) && vs[0].value.Some?
    requires HoldsAfterName(s, e, vs)
    ensures e < |s| && s[e] == VALUE && Framed(s, e + 1, vs[0].value.value, true)
    ensures Holds(s, e + 1 + |vs[0].value.value|, vs[1..])
  {
    var w, rest := vs[0].value.value, Payload(vs[1..]);
    PayloadStart(vs[1..]);
    SplitAt(s, e, [VALUE] + w, rest);
    hide Payload, AllKinded;
    assert s[e] == s[e..e + 1 + |w|][0];
    assert s[e + 1..e + 1 + |w|] == s[e..e + 1 + |w|][1..];
  }

  lemma PlainNameIsRead(s: bytes, c: nat, vs: seq<Setting>)
    requires vs != [] && AllKinded(vs) && Holds(s, c, vs) && Plain(vs[0].name, false)
    ensures c < |s| && s[c] == vs[0].kind && Text(s, c + 1, false) == vs[0].name
    ensures TextEnd(s, c + 1, false) == c + 1 + |vs[0].name|
    ensures HasValue(s, c) <==> vs[0].value.Some?
    ensures HoldsAfterName(s, c + 1 + |vs[0].name|, vs)
  {
    NameIsFramed(s, c, vs);
    PlainTextIsRead(s, c + 1, vs[0].name, false);
    if vs[0].value.Some? {
      ValueIsFramed(s, c + 1 + |vs[0].name|, vs);
    }
  }

  lemma PlainValueIsRead(s: bytes, e: nat, vs: seq<Setting>)
    requires vs != [] && AllKinded(vs) && HoldsAfterName(s, e, vs)
    requires vs[0].value.Some? && Plain(vs[0].value.value, true)
    ensures e < |s| && Text(s, e + 1, true) == vs[0].value.value
    ensures Holds(s, TextEnd(s, e + 1, true), vs[1..])
  {
    ValueIsFramed(s, e, vs);
    hide Framed, Holds;
    PlainTextIsRead(s, e + 1, vs[0].value.value, true);
  }

  lemma PlainEntryIsRead(s: bytes, c: nat, vs: seq<Setting>)
    requires vs != [] && AllKinded(vs) && Holds(s, c, vs) && PlainSetting(vs[0])
    ensures c < |s| && EntryAt(s, c) == AsVariable(vs[0])
    ensures Holds(s, EntryEnd(s, c), vs[1..])
  {
    hide Text, TextEnd, Payload, Framed, Plain, Holds, HoldsAfterName, AllKinded;
    var e := c + 1 + |vs[0].name|;
    PlainNameIsRead(s, c, vs);
    if vs[0].value.Some? {
      assert EntryEnd(s, c) == TextEnd(s, e + 1, true);
      PlainValueIsRead(s, e, vs);
    } else {
      assert EntryEnd(s, c) == e;
      NameIsFramed(s, c, vs);
    }
  }

  lemma SurvivingEntryIsPlain(s: bytes, c: nat, vs: seq<Setting>)
    requires vs != [] && AllSendable(vs) && Holds(s, c, vs)
    requires c < |s| && Shown(EntryAt(s, c)) == AsVariable(vs[0])
    ensures PlainSetting(vs[0])
  {
    hide Text, TextEnd, Framed, Plain, Payload, UpToNul, Holds, HasValue;
    var v, e := vs[0], c + 1 + |vs[0].name|;
    SendableIsKinded(vs);
    assert Sendable(v);
    assert Plain(v.name, false) by {
      NameIsFramed(s, c, vs);
      TextSurvivesExactlyIfPlain(s, c + 1, v.name, false);
    }
    if v.value.Some? {
      PlainNameIsRead(s, c, vs);
      ValueIsFramed(s, e, vs);
      TextSurvivesExactlyIfPlain(s, e + 1, v.value.value, true);
    }
  }

  lemma EntrySurvivesExactlyIfPlain(s: bytes, c: nat, vs: seq<Setting>)
    requires vs != [] && AllSendable(vs) && Holds(s, c, vs)
    ensures c < |s| && (Shown(EntryAt(s, c)) == AsVariable(vs[0]) <==> PlainSetting(vs[0]))
    ensures PlainSetting(vs[0]) ==> Holds(s, EntryEnd(s, c), vs[1..])
  {
    SendableIsKinded(vs);
    NameIsFramed(s, c, vs);
    hide EntryAt, EntryEnd, Plain, Framed, Holds, Payload, HoldsAfterName;
    if PlainSetting(vs[0]) {
      PlainEntryIsRead(s, c, vs);
      assert Sendable(vs[0]);
      NothingHidden(vs[0].name);
      NothingHidden(AsVariable(vs[0]).value);
    } else if Shown(EntryAt(s, c)) == AsVariable(vs[0]) {
      SurvivingEntryIsPlain(s, c, vs);
    }
  }

  lemma VisibleUnfolds(s: bytes, c: nat)
    requires c < |s|
    ensures Visible(Entries(s, c)) == [Shown(EntryAt(s, c))] + Visible(Entries(s, EntryEnd(s, c)))
  {
  }

  lemma ExpectedUnfolds(vs: seq<Setting>)
    requires vs != []
    ensures Expected(vs) == [AsVariable(vs[0])] + Expected(vs[1..])
    ensures AllPlain(vs) <==> PlainSetting(vs[0]) && AllPlain(vs[1..])
  {
    if PlainSetting(vs[0]) && AllPlain(vs[1..]) {
      forall i | 0 <= i < |vs|
        ensures PlainSetting(vs[i])
      {
        assert i > 0 ==> vs[i] == vs[1..][i - 1];
      }
    }
  }

  lemma SameHeadAndTail<T>(x: T, xs: seq<T>, y: T, ys: seq<T>)
    ensures [x] + xs == [y] + ys <==> x == y && xs == ys
  {
    assert ([x] + xs)[0] == x && ([y] + ys)[0] == y;
    assert ([x] + xs)[1..] == xs && ([y] + ys)[1..] == ys;
  }

  lemma {:induction false} EntriesSurviveExactlyIfPlain(s: bytes, c: nat, vs: seq<Setting>)
    requires AllSendable(vs) && Holds(s, c, vs)
    ensures Visible(Entries(s, c)) == Expected(vs) <==> AllPlain(vs)
    decreases |vs|
  {
    if vs != [] {
      EntrySurvivesExactlyIfPlain(s, c, vs);
      VisibleUnfolds(s, c);
      ExpectedUnfolds(vs);
      SameHeadAndTail(Shown(EntryAt(s, c)), Visible(Entries(s, EntryEnd(s, c))), AsVariable(vs[0]), Expected(vs[1..]));
      if PlainSetting(vs[0]) {
        EntriesSurviveExactlyIfPlain(s, EntryEnd(s, c), vs[1..]);
      }
    }
  }

  lemma {:induction false} PlainPayloadEndsWithoutEsc(vs: seq<Setting>)
    requires AllSendable(vs) && AllPlain(vs) && vs != []
    ensures Payload(vs) != [] && Payload(vs)[|Payload(vs)| - 1] != ESC
  {
    var v, rest := vs[0], Payload(vs[1..]);
    if |vs| > 1 {
      PlainPayloadEndsWithoutEsc(vs[1..]);
      assert Payload(vs)[|Payload(vs)| - 1] == rest[|rest| - 1];
    } else {
      assert Payload(vs) == Encode(v);
      var last := Encode(v)[|Encode(v)| - 1];
      assert v.value.Some? && v.value.value != [] ==> last in v.value.value;
      assert v.value.None? && v.name != [] ==> last in v.name;
    }
  }

  /** A list of variables comes through unchanged if and only if no name holds VALUE, ESC or USERVAR
      and no value holds ESC or USERVAR (the encoder never escapes them; NUL cannot occur in a C string). */
  lemma ListSurvivesExactlyIfPlain(cmd: byte, vs: seq<Setting>)
    requires cmd <= 2 && AllSendable(vs)
    ensures Meaning([cmd] + Payload(vs)) == Accepted(cmd, Expected(vs)) <==> AllPlain(vs)
  {
    var s := [cmd] + Payload(vs);
    assert s[1..] == Payload(vs);
    if vs != [] {
      assert Payload(vs)[0] == vs[0].kind == s[1];
      EntriesSurviveExactlyIfPlain(s, 1, vs);
      if AllPlain(vs) {
        PlainPayloadEndsWithoutEsc(vs);
      }
    }
  }
}
