/** The text of the stopwatch display: two-digit zero-padded fields and the
    reading of an HH:MM:SS string back into seconds. */
module Clock {
  import opened Common
  import opened Strings

  /** `n.toString().padStart(2, "0")` */
  function TwoDigits(n: nat): (r: string)
    ensures AllDigits(r)
    ensures n < 100 <==> |r| == 2
    ensures |r| >= 2
    ensures n >= 100 ==> r == NatToString(n)
    ensures |r| > 2 ==> r[0] != '0'
  {
    PadStartZerosValue(NatToString(n), 2);
    NatToStringNoLeadingZero(n);
    PadStartZeros(NatToString(n), 2)
  }

  /** A non-empty string of decimal digits. */
  predicate IsNumeral(s: string) {
    s != [] && AllDigits(s)
  }

  /** The number a field of the display denotes, if it is a numeral. */
  function FieldValue(field: string): (r: Option<nat>)
    ensures r.Some? <==> IsNumeral(field)
  {
    if IsNumeral(field) then Some(DecimalValue(field)) else None
  }

  /** A padded field reads back as the number it was made from. */
  lemma TwoDigitsValue(n: nat)
    ensures FieldValue(TwoDigits(n)) == Some(n)
  {
    PadStartZerosValue(NatToString(n), 2);
  }

  /** Reads an HH:MM:SS display back as seconds: three numerals separated by
      colons, minutes and seconds below 60. */
  function ParseTime(text: string): (r: Option<nat>)
  {
    ParseFields(Split(text, ':'))
  }

  /** The shape of the display: three colon-separated fields, minutes and
      seconds of two characters, hours of two or more with no leading zero
      beyond the padding. */
  predicate IsClockDisplay(text: string) {
    var f := Split(text, ':');
    |f| == 3 && |f[1]| == 2 && |f[2]| == 2 && |f[0]| >= 2 && (|f[0]| > 2 ==> f[0][0] != '0')
  }

  function ParseFields(f: seq<string>): (r: Option<nat>)
  {
    if |f| != 3 then None
    else
      var h, m, s := FieldValue(f[0]), FieldValue(f[1]), FieldValue(f[2]);
      if h.Some? && m.Some? && s.Some? && m.value < 60 && s.value < 60
      then Some(3600 * h.value + 60 * m.value + s.value)
      else None
  }

  /** What a successful reading says about its three fields. */
  lemma ParsedFields(f: seq<string>)
    requires ParseFields(f).Some?
    ensures |f| == 3
    ensures FieldValue(f[0]).Some? && FieldValue(f[1]).Some? && FieldValue(f[2]).Some?
    ensures FieldValue(f[1]).value < 60 && FieldValue(f[2]).value < 60
    ensures ParseFields(f).value
         == 3600 * FieldValue(f[0]).value + 60 * FieldValue(f[1]).value + FieldValue(f[2]).value
  {
  }

  /** Three fields with the given values read as that many seconds. */
  lemma ParseFieldValues(a: string, b: string, c: string, h: nat, m: nat, s: nat, seconds: nat)
    requires FieldValue(a) == Some(h) && FieldValue(b) == Some(m) && FieldValue(c) == Some(s)
    requires m < 60 && s < 60 && 3600 * h + 60 * m + s == seconds
    ensures ParseFields([a, b, c]) == Some(seconds)
  {
  }

  lemma NoColonInNumeral(a: string)
    requires AllDigits(a)
    ensures ':' !in a
  {
    forall i | 0 <= i < |a| ensures a[i] != ':' {
      assert IsDigit(a[i]);
    }
  }

  /** Three colon-free fields joined by colons split back into those fields. */
  lemma SplitThree(a: string, b: string, c: string)
    requires ':' !in a && ':' !in b && ':' !in c
    ensures Split(a + [':'] + b + [':'] + c, ':') == [a, b, c]
  {
    assert a + [':'] + b + [':'] + c == a + [':'] + (b + [':'] + c);
    SplitAtSeparator(a, ':', b + [':'] + c);
    SplitAtSeparator(b, ':', c);
    SplitWithoutSeparator(c, ':');
  }

  /** Below 100 the padded numeral is the tens digit followed by the units digit. */
  lemma TwoDigitsOfDigits(tens: nat, units: nat)
    requires tens < 10 && units < 10
    ensures TwoDigits(10 * tens + units) == [DigitChar(tens), DigitChar(units)]
  {
    if tens == 0 {
      assert NatToString(units) == [DigitChar(units)];
      assert Zeros(1) == ['0'];
    } else {
      NumeralOfTwoDigits(tens, units);
    }
  }

  lemma NumeralOfTwoDigits(tens: nat, units: nat)
    requires 0 < tens < 10 && units < 10
    ensures NatToString(10 * tens + units) == [DigitChar(tens), DigitChar(units)]
  {
    var n := 10 * tens + units;
    DivModTen(tens, units);
    NumeralStep(n);
    NumeralOfDigit(tens);
    assert [DigitChar(tens)] + [DigitChar(units)] == [DigitChar(tens), DigitChar(units)];
  }

  /** From ten on, the numeral is that of the tens followed by the last digit. */
  lemma NumeralStep(n: nat)
    requires n >= 10
    ensures NatToString(n) == NatToString(n / 10) + [DigitChar(n % 10)]
  {
  }

  /** A single digit prints as itself. */
  lemma NumeralOfDigit(d: nat)
    requires d < 10
    ensures NatToString(d) == [DigitChar(d)]
  {
  }

  lemma DivModTen(tens: nat, units: nat)
    requires units < 10
    ensures (10 * tens + units) / 10 == tens && (10 * tens + units) % 10 == units
  {
  }

  /** The value of a two-digit numeral. */
  lemma TwoDigitValue(a: string)
    requires |a| == 2 && AllDigits(a)
    ensures DecimalValue(a) == 10 * (a[0] as int - '0' as int) + (a[1] as int - '0' as int)
  {
    var p := a[..1];
    assert p[..0] == [];
    assert p[0] == a[0];
    assert DecimalValue(p) == a[0] as int - '0' as int;
    assert a[..|a| - 1] == p;
  }

  /** A numeral of three or more digits without a leading zero is the padded
      numeral of its value. */
  lemma LongFieldCanonical(a: string)
    requires |a| > 2 && AllDigits(a) && a[0] != '0'
    ensures FieldValue(a).Some? && TwoDigits(FieldValue(a).value) == a
  {
    NatToStringOfValue(a);
  }

  /** A two-digit numeral is the padded numeral of its value. */
  lemma TwoDigitCanonical(a: string)
    requires |a| == 2 && AllDigits(a)
    ensures FieldValue(a).Some? && FieldValue(a).value < 100 && TwoDigits(FieldValue(a).value) == a
  {
    DigitsOfTwo(a);
    var tens, units := a[0] as int - '0' as int, a[1] as int - '0' as int;
    TwoDigitValue(a);
    var v := 10 * tens + units;
    assert FieldValue(a) == Some(v);
    TwoDigitsOfDigits(tens, units);
    calc {
      TwoDigits(FieldValue(a).value);
      TwoDigits(v);
      [DigitChar(tens), DigitChar(units)];
      a;
    }
  }

  /** A two-character numeral spelled out digit by digit. */
  lemma DigitsOfTwo(a: string)
    requires |a| == 2 && AllDigits(a)
    ensures IsDigit(a[0]) && IsDigit(a[1])
    ensures a == [DigitChar(a[0] as int - '0' as int), DigitChar(a[1] as int - '0' as int)]
  {
    assert IsDigit(a[0]) && IsDigit(a[1]);
    var b := [DigitChar(a[0] as int - '0' as int), DigitChar(a[1] as int - '0' as int)];
    assert b[0] == a[0] && b[1] == a[1];
  }

  /** A string that splits into three fields is their join. */
  lemma SplitJoin3(text: string)
    requires |Split(text, ':')| == 3
    ensures var f := Split(text, ':'); text == f[0] + [':'] + f[1] + [':'] + f[2]
  {
    var f := Split(text, ':');
    SplitJoin(text, ':');
    assert f[1..][1..] == [f[2]];
    assert Join([f[2]], ':') == f[2];
  }
}
