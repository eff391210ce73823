/**
 * What the handler is told when a sub-negotiation does not end as it should,
 * and what it is told about the payloads of those that do.
 */
module TelnetMalformed {
  import opened Bytes
  import opened TelnetParser
  import opened TelnetWire
  import Environ

  // ---------- payloads ----------

  /** The options whose payloads are decoded. */
  predicate Decoded(o: byte) { o in {ENVIRON, NEW_ENVIRON, ZMP, TTYPE, MSSP} }

  /** Every sub-negotiation that fits is reported as it was sent, and first; for an option that has no
      decoder nothing else is. */
  lemma SubIsReported(c: Config, p: Parser, o: byte, payload: bytes)
    requires Idle(p) && SubFits(o, payload)
    ensures
      var es := Run(c, p, Encode(Sub(o, payload))).events;
      && es != [] && es[0] == Subnegotiation(o, payload) && (forall i :: 0 < i < |es| ==> !es[i].Subnegotiation?)
      && (!Decoded(o) ==> es == [Subnegotiation(o, payload)])
  {
    hide Run, Encode, Environ.Meaning;
    SubIsReceived(c, p, o, payload);
  }

  /** For the three options whose decoders are not modelled, what they report of this option and payload
      comes behind it. */
  lemma SpecialIsReported(c: Config, p: Parser, o: byte, payload: bytes)
    requires Idle(p) && SubFits(o, payload) && o in {ZMP, TTYPE, MSSP}
    ensures
      var es, codes := Run(c, p, Encode(Sub(o, payload))).events, c.special(o, payload);
      |es| == 1 + |codes| && forall i :: 0 <= i < |codes| ==> es[1 + i] == Special(o, codes[i])
  {
    hide Run, Encode, SubEvents;
    SubIsReceived(c, p, o, payload);
    assert Run(c, p, Encode(Sub(o, payload))).events == SubEvents(c, o, payload);
    SpecialsFollow(c, o, payload);
  }

  lemma SpecialsFollow(c: Config, o: byte, payload: bytes)
    requires o in {ZMP, TTYPE, MSSP}
    ensures
      var es, codes := SubEvents(c, o, payload), c.special(o, payload);
      |es| == 1 + |codes| && forall i :: 0 <= i < |codes| ==> es[1 + i] == Special(o, codes[i])
  {
    hide Environ.Meaning;
  }

  /** An environment payload that is not a list: what is warned of, if anything. */
  lemma EnvironIsJudged(c: Config, p: Parser, o: byte, payload: bytes)
    requires Idle(p) && SubFits(o, payload) && (o == ENVIRON || o == NEW_ENVIRON)
    ensures
      var es := Run(c, p, Encode(Sub(o, payload))).events;
      && (payload == [] ==> es == [Subnegotiation(o, payload)])
      && (payload != [] && payload[0] > 2 ==> es == [Subnegotiation(o, payload), Warning(EnvironBadCommand(o))])
      && (|payload| == 1 && payload[0] <= 2 ==> es == [Subnegotiation(o, payload), EnvironList(payload[0], [])])
      && (|payload| > 1 && payload[0] <= 2 && payload[1] != 0 && payload[1] != 3 ==>
            es == [Subnegotiation(o, payload), Warning(EnvironMissingKind(o))])
      && (|payload| > 1 && payload[0] <= 2 && (payload[1] == 0 || payload[1] == 3) && payload[|payload| - 1] == 2 ==>
            es == [Subnegotiation(o, payload), Warning(EnvironEndsWithEsc(o))])
  {
    hide Run, Encode, Environ.Entries, Environ.Visible;
    SubIsReceived(c, p, o, payload);
    assert Run(c, p, Encode(Sub(o, payload))).events == SubEvents(c, o, payload);
  }

  // ---------- too long ----------

  /** At the 16385th byte the sub-negotiation is given up with one warning, and what is left of it is
      reported as data. */
  lemma OverflowIsReported(c: Config, p: Parser, o: byte, payload: bytes)
    requires Idle(p) && |payload| > SB_LIMIT && !(o == COMPRESS && WILL in payload)
    ensures
      var r := Run(c, p, [IAC, SB, o] + Escape(payload));
      && r.events == [Warning(SbOverflow)] + Cut(payload[SB_LIMIT + 1..])
      && r.parser == p.(sbOpt := o, sb := [])
  {
    hide Run, Step, Escape, Cut;
    var n, b := SB_LIMIT, payload[SB_LIMIT];
    var fits, after, eb := payload[..n], payload[n + 1..], if b == IAC then [IAC, IAC] else [b];
    var head, q := [IAC, SB, o] + Escape(fits), p.(state := InSbData, sbOpt := o, sb := fits);
    BeforeMisfit(c, p, o, fits);
    EscapedAround(payload, n);
    assert [IAC, SB, o] + (Escape(fits) + eb + Escape(after)) == (head + eb) + Escape(after);
    RunAppend(c, p, head, eb);
    EscapedByteInSub(c, q, b);
    RunAppend(c, p, head + eb, Escape(after));
    TextIsReceived(c, p.(sbOpt := o, sb := []), after);
  }

  lemma EscapedAround(s: bytes, n: nat)
    requires n < |s|
    ensures Escape(s) == Escape(s[..n]) + (if s[n] == IAC then [IAC, IAC] else [s[n]]) + Escape(s[n + 1..])
  {
    hide Escape;
    var a, b, c := s[..n], s[n], s[n + 1..];
    Around(s, n);
    EscapeBetween(a, b, c);
  }

  lemma Around(s: bytes, n: nat)
    requires n < |s|
    ensures s == s[..n] + [s[n]] + s[n + 1..]
  {
  }

  lemma EscapeBetween(s: bytes, b: byte, t: bytes)
    ensures Escape(s + [b] + t) == Escape(s) + (if b == IAC then [IAC, IAC] else [b]) + Escape(t)
  {
    hide Escape;
    EscapeOneMore(s, b);
    EscapeAppend(s + [b], t);
  }

  lemma EscapeOneMore(s: bytes, b: byte)
    ensures Escape(s + [b]) == Escape(s) + if b == IAC then [IAC, IAC] else [b]
  {
    assert (s + [b])[..|s|] == s;
  }

  // ---------- cut short ----------

  /** A command inside a sub-negotiation ends it: one warning, then the report of what there was, and the
      command is taken as the command it is, unless an environment list was accepted; then it is lost, and
      the next byte is taken for the command. */
  lemma SubCutShort(c: Config, p: Parser, o: byte, payload: bytes, x: byte)
    requires Idle(p) && SubFits(o, payload) && x != SE && x != IAC
    ensures
      var r := Run(c, p, [IAC, SB, o] + Escape(payload) + [IAC, x]);
      var told := [Warning(UnexpectedInSb(x))] + SubEvents(c, o, payload);
      var rest := Run(c, p.(sbOpt := o, sb := []), [IAC, x]);
      if SubAborts(o, payload) then r == Out(p.(state := InIac, sbOpt := o, sb := []), told)
      else r == Out(rest.parser, told + rest.events)
  {
    hide Run, Step, Escape, SubEvents, SubAborts;
    var head, q := [IAC, SB, o] + Escape(payload), p.(state := InSbData, sbOpt := o, sb := payload);
    BeforeMisfit(c, p, o, payload);
    RunAppend(c, p, head, [IAC, x]);
    CommandInSub(c, q, x);
    assert [] + Run(c, q, [IAC, x]).events == Run(c, q, [IAC, x]).events;
    CommandInData(c, p.(sbOpt := o, sb := []), x);
  }

  lemma CommandInSub(c: Config, q: Parser, x: byte)
    requires InBody(q) && x != SE && x != IAC
    ensures
      var told, p' := [Warning(UnexpectedInSb(x))] + SubEvents(c, q.sbOpt, q.sb), q.(state := InIac, sb := []);
      Run(c, q, [IAC, x]) ==
      if SubAborts(q.sbOpt, q.sb) then Out(p', told) else Out(IacStep(p', x).parser, told + IacStep(p', x).events)
  {
    RunTwo(c, q, IAC, x);
    hide SubEvents, SubAborts, IacStep;
    var told := [Warning(UnexpectedInSb(x))] + SubEvents(c, q.sbOpt, q.sb);
    assert [] + told == told;
  }

  lemma CommandInData(c: Config, p: Parser, x: byte)
    requires Idle(p)
    ensures Run(c, p, [IAC, x]) == IacStep(p.(state := InIac), x)
  {
    RunTwo(c, p, IAC, x);
    hide IacStep;
    assert [] + IacStep(p.(state := InIac), x).events == IacStep(p.(state := InIac), x).events;
  }

  /** When the command byte is lost. */
  lemma CommandIsLostExactly(o: byte, payload: bytes)
    ensures SubAborts(o, payload) <==>
            && (o == ENVIRON || o == NEW_ENVIRON) && payload != [] && payload[0] <= 2
            && (|payload| > 1 ==> (payload[1] == 0 || payload[1] == 3) && payload[|payload| - 1] != 2)
  {
    hide Environ.Entries, Environ.Visible;
  }

  // ---------- the byte behind a marker ----------

  /** After the option-85 marker one byte is swallowed, whatever it is, unless it is IAC: then the handler
      is given data of a size that has wrapped below zero. */
  lemma MarkerSwallowsOne(c: Config, p: Parser, b: byte)
    requires Idle(p)
    ensures Run(c, p, [IAC, SB, COMPRESS, WILL, b]) ==
            if b == IAC then Out(p.(state := InIac, sbOpt := COMPRESS, sb := []), [WildData(SIZE_MAX)])
            else Out(p.(sbOpt := COMPRESS, sb := []), [])
  {
    hide Step;
    SubStarts(c, p, COMPRESS);
    var q := p.(state := InSbData, sbOpt := COMPRESS, sb := []);
    RunAppend(c, p, [IAC, SB, COMPRESS], [WILL, b]);
    assert [IAC, SB, COMPRESS] + [WILL, b] == [IAC, SB, COMPRESS, WILL, b];
    Swallowed(c, q, b);
  }

  lemma Swallowed(c: Config, q: Parser, b: byte)
    requires InBody(q) && q.sbOpt == COMPRESS
    ensures Run(c, q, [WILL, b]) ==
            if b == IAC then Out(q.(state := InIac, sb := []), [WildData(SIZE_MAX)])
            else Out(q.(state := InData, sb := []), [])
  {
    RunTwo(c, q, WILL, b);
  }
}
