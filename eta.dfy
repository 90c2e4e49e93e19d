/**
 * The remaining-time column of the progress display: whole seconds as
 * `m:ss`, or `h:mm:ss` from one hour on, and "-" when there is no usable
 * estimate.
 */
module Eta {
  import opened Wrappers
  import opened Numerals
  import opened Decimals

  /** Hours, minutes and seconds of a count of seconds, as two `divmod` steps by 60. */
  function Clock(n: nat): (hms: (nat, nat, nat))
    ensures hms.1 < 60 && hms.2 < 60
    ensures hms.0 * 3600 + hms.1 * 60 + hms.2 == n
  {
    var m, s := n / 60, n % 60;
    var h, m' := m / 60, m % 60;
    assert n == m * 60 + s && m == h * 60 + m';
    assert (h * 60 + m') * 60 == h * 3600 + m' * 60;
    (h, m', s)
  }

  /** A count of seconds as a clock: `m:ss` below one hour, `h:mm:ss` from one hour on. */
  function ClockText(n: nat): (r: string)
    ensures n < 3600 ==> r == NatToString(n / 60) + ":" + Pad2(n % 60)
    ensures n >= 3600 ==> r == NatToString(n / 3600) + ":" + Pad2(n / 60 % 60) + ":" + Pad2(n % 60)
  {
    var (h, m, s) := Clock(n);
    assert h == n / 3600 && (h != 0 <==> n >= 3600);
    if h != 0 then NatToString(h) + ":" + Pad2(m) + ":" + Pad2(s)
    else NatToString(m) + ":" + Pad2(s)
  }

  /** `_fmt_eta`: the estimate truncated to whole seconds and written as a clock. */
  function FmtEta(seconds: Option<Decimal>): (r: string)
    ensures r == "-" <==> seconds.None? || Trunc(seconds.value) < 0
  {
    if seconds.None? then "-"
    else
      var n := Trunc(seconds.value);
      if n < 0 then "-"
      else
        assert |ClockText(n)| >= 4;
        ClockText(n)
  }

  /** `r.split(":")`: the pieces of `r` between its colons. */
  function Fields(r: string): (f: seq<string>)
    ensures |f| >= 1
    decreases |r|
  {
    if r == [] then [""]
    else
      var f := Fields(r[..|r| - 1]);
      var c := r[|r| - 1];
      if c == ':' then f + [""] else f[..|f| - 1] + [f[|f| - 1] + [c]]
  }

  predicate ColonFree(s: string) {
    forall i :: 0 <= i < |s| ==> s[i] != ':'
  }

  lemma ColonFreeInit(s: string)
    requires s != [] && ColonFree(s)
    ensures ColonFree(s[..|s| - 1]) && s[|s| - 1] != ':'
  {
    assert forall i :: 0 <= i < |s| - 1 ==> s[..|s| - 1][i] == s[i];
  }

  lemma {:induction false} FieldsWord(a: string)
    requires ColonFree(a)
    ensures Fields(a) == [a]
    decreases |a|
  {
    if a != [] {
      var init := a[..|a| - 1];
      ColonFreeInit(a);
      FieldsWord(init);
      assert init + [a[|a| - 1]] == a;
    }
  }

  lemma {:induction false} FieldsAppend(a: string, b: string)
    requires ColonFree(b)
    ensures Fields(a + ":" + b) == Fields(a) + [b]
    decreases |b|
  {
    var r := a + ":" + b;
    if b == [] {
      assert r[..|r| - 1] == a;
    } else {
      var init := b[..|b| - 1];
      ColonFreeInit(b);
      FieldsAppend(a, init);
      assert r[..|r| - 1] == a + ":" + init;
      assert r[|r| - 1] == b[|b| - 1];
      assert init + [b[|b| - 1]] == b;
    }
  }

  lemma DigitsColonFree(s: string)
    requires AllDigits(s)
    ensures ColonFree(s)
  {
  }

  /** A seconds or minutes field of a clock: exactly two digits. */
  predicate TwoDigits(s: string) {
    |s| == 2 && AllDigits(s)
  }

  /** The seconds a list of clock fields denotes: `m`, `ss` or `h`, `mm`, `ss`. */
  function FieldsValue(f: seq<string>): Option<nat> {
    if |f| == 2 && Canonical(f[0]) && TwoDigits(f[1]) then
      Some(DigitsValue(f[0]) * 60 + DigitsValue(f[1]))
    else if |f| == 3 && Canonical(f[0]) && TwoDigits(f[1]) && TwoDigits(f[2]) then
      Some(DigitsValue(f[0]) * 3600 + DigitsValue(f[1]) * 60 + DigitsValue(f[2]))
    else None
  }

  /** Reads a clock written as `m:ss` or `h:mm:ss` back into seconds. */
  function ReadClock(r: string): Option<nat> {
    FieldsValue(Fields(r))
  }

  /** The fields of a clock with an hours field. */
  lemma LongFields(hours: string, mm: string, ss: string)
    requires AllDigits(hours) && AllDigits(mm) && AllDigits(ss)
    ensures Fields(hours + ":" + mm + ":" + ss) == [hours, mm, ss]
  {
    DigitsColonFree(hours);
    DigitsColonFree(mm);
    DigitsColonFree(ss);
    FieldsWord(hours);
    FieldsAppend(hours, mm);
    FieldsAppend(hours + ":" + mm, ss);
  }

  /** The fields of a clock without an hours field. */
  lemma ShortFields(mins: string, ss: string)
    requires AllDigits(mins) && AllDigits(ss)
    ensures Fields(mins + ":" + ss) == [mins, ss]
  {
    DigitsColonFree(mins);
    DigitsColonFree(ss);
    FieldsWord(mins);
    FieldsAppend(mins, ss);
  }

  lemma ReadLong(h: nat, m: nat, s: nat)
    requires m < 60 && s < 60
    ensures FieldsValue([NatToString(h), Pad2(m), Pad2(s)]) == Some(h * 3600 + m * 60 + s)
  {
    DigitsOfNat(h);
    DigitsOfPad2(m);
    DigitsOfPad2(s);
  }

  lemma ReadShort(m: nat, s: nat)
    requires s < 60
    ensures FieldsValue([NatToString(m), Pad2(s)]) == Some(m * 60 + s)
  {
    DigitsOfNat(m);
    DigitsOfPad2(s);
  }

  /** Reading a clock back gives the seconds it was written from. */
  lemma ReadClockText(n: nat)
    ensures ReadClock(ClockText(n)) == Some(n)
  {
    var hms := Clock(n);
    var h, m, s := hms.0, hms.1, hms.2;
    if h != 0 {
      assert ClockText(n) == NatToString(h) + ":" + Pad2(m) + ":" + Pad2(s);
      assert h * 3600 + m * 60 + s == n;
      ReadLongText(h, m, s);
    } else {
      assert ClockText(n) == NatToString(m) + ":" + Pad2(s);
      assert m * 60 + s == n;
      ReadShortText(m, s);
    }
  }

  lemma ReadLongText(h: nat, m: nat, s: nat)
    requires m < 60 && s < 60
    ensures ReadClock(NatToString(h) + ":" + Pad2(m) + ":" + Pad2(s)) == Some(h * 3600 + m * 60 + s)
  {
    LongFields(NatToString(h), Pad2(m), Pad2(s));
    ReadLong(h, m, s);
  }

  lemma ReadShortText(m: nat, s: nat)
    requires s < 60
    ensures ReadClock(NatToString(m) + ":" + Pad2(s)) == Some(m * 60 + s)
  {
    ShortFields(NatToString(m), Pad2(s));
    ReadShort(m, s);
  }

  /** Reading the display back gives the whole seconds the estimate was truncated to. */
  lemma ReadFmtEta(seconds: Decimal)
    requires Trunc(seconds) >= 0
    ensures ReadClock(FmtEta(Some(seconds))) == Some(Trunc(seconds))
  {
    ReadClockText(Trunc(seconds));
  }

  /** Two estimates with the same display truncate to the same whole seconds. */
  lemma FmtEtaInjective(a: Decimal, b: Decimal)
    requires Trunc(a) >= 0 && Trunc(b) >= 0
    requires FmtEta(Some(a)) == FmtEta(Some(b))
    ensures Trunc(a) == Trunc(b)
  {
    ReadFmtEta(a);
    ReadFmtEta(b);
  }

  /**
   * The clock has an hours field exactly from one hour on; its first field
   * is a plain number and every later field is two digits below 60.
   */
  lemma ClockFields(n: nat)
    ensures var f := Fields(ClockText(n));
      && |f| == (if n >= 3600 then 3 else 2)
      && Canonical(f[0])
      && forall k :: 1 <= k < |f| ==> TwoDigits(f[k]) && DigitsValue(f[k]) < 60
  {
    var (h, m, s) := Clock(n);
    if h != 0 {
      assert ClockText(n) == NatToString(h) + ":" + Pad2(m) + ":" + Pad2(s);
      LongClockFields(h, m, s);
    } else {
      assert ClockText(n) == NatToString(m) + ":" + Pad2(s);
      ShortClockFields(m, s);
    }
  }

  lemma LongClockFields(h: nat, m: nat, s: nat)
    requires m < 60 && s < 60
    ensures var f := Fields(NatToString(h) + ":" + Pad2(m) + ":" + Pad2(s));
      && |f| == 3 && Canonical(f[0])
      && forall k :: 1 <= k < 3 ==> TwoDigits(f[k]) && DigitsValue(f[k]) < 60
  {
    LongFields(NatToString(h), Pad2(m), Pad2(s));
    DigitsOfPad2(m);
    DigitsOfPad2(s);
  }

  lemma ShortClockFields(m: nat, s: nat)
    requires s < 60
    ensures var f := Fields(NatToString(m) + ":" + Pad2(s));
      && |f| == 2 && Canonical(f[0]) && TwoDigits(f[1]) && DigitsValue(f[1]) < 60
  {
    ShortFields(NatToString(m), Pad2(s));
    DigitsOfPad2(s);
  }
}
