/** The `yyyyMMdd-HHmmss` stamp that names a generated report. The clock
    reading is a parameter. */
module Timestamp {
  import opened Text
  import opened Numbers

  /** A local date and time as the clock reports it. */
  datatype DateTime = DateTime(year: nat, month: nat, day: nat, hour: nat, minute: nat, second: nat)

  /** A reading whose fields fit the pattern's widths: a four-digit year and
      two-digit other fields. */
  predicate Fits(t: DateTime) {
    t.year <= 9999 && t.month <= 99 && t.day <= 99 && t.hour <= 99 && t.minute <= 99 && t.second <= 99
  }

  /** `n` in exactly `width` digits, zero-filled on the left. */
  function Pad(n: nat, width: nat): (s: string)
    requires |NatToString(n)| <= width
    ensures |s| == width
    ensures AllDigits(s)
  {
    Repeat('0', width - |NatToString(n)|) + NatToString(n)
  }

  lemma {:induction false} ZerosValue(k: nat)
    ensures AllDigits(Repeat('0', k))
    ensures DigitsValue(Repeat('0', k)) == 0
  {
    if k > 0 {
      ZerosValue(k - 1);
      assert Repeat('0', k)[..k - 1] == Repeat('0', k - 1);
    }
  }

  /** Leading zeros do not change the value of a digit string. */
  lemma {:induction false} LeadingZeros(k: nat, s: string)
    requires AllDigits(s)
    ensures AllDigits(Repeat('0', k) + s)
    ensures DigitsValue(Repeat('0', k) + s) == DigitsValue(s)
  {
    ZerosValue(k);
    var z := Repeat('0', k);
    if s == [] {
      assert z + s == z;
    } else {
      LeadingZeros(k, s[..|s| - 1]);
      assert (z + s)[..|z + s| - 1] == z + s[..|s| - 1];
    }
  }

  /** Padding is undone by reading the digits back. */
  lemma PadValue(n: nat, width: nat)
    requires |NatToString(n)| <= width
    ensures DigitsValue(Pad(n, width)) == n
  {
    NatToStringValue(n);
    LeadingZeros(width - |NatToString(n)|, NatToString(n));
  }

  /** A number of at most `width` digits fits in `width` characters. */
  lemma {:induction false} DigitsFit(n: nat, width: nat)
    requires width >= 1
    requires n < Power10(width)
    ensures |NatToString(n)| <= width
  {
    if n >= 10 {
      assert Power10(1) == 10;
      DigitsFit(n / 10, width - 1);
    }
  }

  function Power10(k: nat): (p: nat)
    ensures p >= 1
  {
    if k == 0 then 1 else 10 * Power10(k - 1)
  }

  lemma FieldsFit(t: DateTime)
    requires Fits(t)
    ensures |NatToString(t.year)| <= 4
    ensures |NatToString(t.month)| <= 2 && |NatToString(t.day)| <= 2
    ensures |NatToString(t.hour)| <= 2 && |NatToString(t.minute)| <= 2 && |NatToString(t.second)| <= 2
  {
    assert Power10(2) == 100;
    assert Power10(4) == 10000;
    DigitsFit(t.year, 4);
    DigitsFit(t.month, 2);
    DigitsFit(t.day, 2);
    DigitsFit(t.hour, 2);
    DigitsFit(t.minute, 2);
    DigitsFit(t.second, 2);
  }

  /** The stamp: fifteen characters, eight digits of date, a dash, six digits
      of time. */
  function Stamp(t: DateTime): (s: string)
    requires Fits(t)
    ensures |s| == 15
    ensures s[8] == '-'
    ensures forall i | 0 <= i < 15 && i != 8 :: IsDigit(s[i])
  {
    FieldsFit(t);
    var date := Pad(t.year, 4) + Pad(t.month, 2) + Pad(t.day, 2);
    var time := Pad(t.hour, 2) + Pad(t.minute, 2) + Pad(t.second, 2);
    assert forall i | 0 <= i < 8 :: IsDigit(date[i]);
    assert forall i | 0 <= i < 6 :: IsDigit(time[i]);
    date + "-" + time
  }

  /** Reads a stamp back into the reading it was made from. */
  function ParseStamp(s: string): DateTime
    requires |s| == 15 && forall i | 0 <= i < 15 && i != 8 :: IsDigit(s[i])
  {
    DateTime(DigitsValue(s[0..4]), DigitsValue(s[4..6]), DigitsValue(s[6..8]),
             DigitsValue(s[9..11]), DigitsValue(s[11..13]), DigitsValue(s[13..15]))
  }

  /** Every field survives the stamp, so two readings that differ in any
      field give different report names. */
  lemma StampRoundTrip(t: DateTime)
    requires Fits(t)
    ensures ParseStamp(Stamp(t)) == t
  {
    FieldsFit(t);
    var s := Stamp(t);
    assert s[0..4] == Pad(t.year, 4);
    assert s[4..6] == Pad(t.month, 2);
    assert s[6..8] == Pad(t.day, 2);
    assert s[9..11] == Pad(t.hour, 2);
    assert s[11..13] == Pad(t.minute, 2);
    assert s[13..15] == Pad(t.second, 2);
    PadValue(t.year, 4);
    PadValue(t.month, 2);
    PadValue(t.day, 2);
    PadValue(t.hour, 2);
    PadValue(t.minute, 2);
    PadValue(t.second, 2);
  }

  lemma StampInjective(t: DateTime, u: DateTime)
    requires Fits(t) && Fits(u) && t != u
    ensures Stamp(t) != Stamp(u)
  {
    StampRoundTrip(t);
    StampRoundTrip(u);
  }
}
