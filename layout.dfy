/**
 * The fixed text layout `2006-01-02T15:04:05-0700` that both JSON directions use:
 * four-digit year, two-digit month, day, hour, minute and second, the letter `T`
 * between date and time, and the UTC offset as a sign followed by hhmm (no colon).
 */
module Layout {
  import opened Wrappers
  import opened Decimal
  import opened Timestamps

  /** The layout constant, in the reference-time notation of Go's time package. */
  const TimeFormat: string := "2006-01-02T15:04:05-0700"

  /** Index of the offset's sign; every other position is a digit or a fixed literal. */
  const SignAt: nat := 19

  /** The layout's rule for the character at position `i`. */
  predicate FitsAt(i: nat, c: char)
    requires i < |TimeFormat|
  {
    if i == SignAt then c == '+' || c == '-'
    else if IsDigit(TimeFormat[i]) then IsDigit(c)
    else c == TimeFormat[i]
  }

  /** `s` has the layout's shape: `YYYY-MM-DDThh:mm:ss` followed by a sign and `hhmm`. */
  predicate Shaped(s: string)
  {
    && |s| == 24
    && AllDigits(s[0..4]) && s[4] == '-' && AllDigits(s[5..7]) && s[7] == '-' && AllDigits(s[8..10])
    && s[10] == 'T'
    && AllDigits(s[11..13]) && s[13] == ':' && AllDigits(s[14..16]) && s[16] == ':' && AllDigits(s[17..19])
    && (s[SignAt] == '+' || s[SignAt] == '-') && AllDigits(s[20..22]) && AllDigits(s[22..24])
  }

  function Abs(x: int): nat
  {
    if x < 0 then -x else x
  }

  /** The date, `YYYY-MM-DD`. */
  function DatePart(t: Time): (r: string)
    requires 0 <= t.year <= 9999
    ensures |r| == 10
  {
    Pad(t.year, 4) + "-" + Pad(t.month, 2) + "-" + Pad(t.day, 2)
  }

  /** The wall-clock time, `hh:mm:ss`. */
  function ClockPart(t: Time): (r: string)
    ensures |r| == 8
  {
    Pad(t.hour, 2) + ":" + Pad(t.minute, 2) + ":" + Pad(t.second, 2)
  }

  /** The offset from UTC, `+hhmm` or `-hhmm`; a zero offset gets `+`. */
  function ZonePart(t: Time): (r: string)
    ensures |r| == 5
  {
    var off := Abs(t.offsetMinutes);
    [if t.offsetMinutes < 0 then '-' else '+'] + Pad(off / 60, 2) + Pad(off % 60, 2)
  }

  /** Renders `t` in the layout, every field zero-padded to its width. Only four-digit years fit. */
  function Format(t: Time): (r: string)
    requires 0 <= t.year <= 9999
    ensures Shaped(r)
  {
    var d, c, z := DatePart(t), ClockPart(t), ZonePart(t);
    assert d[0..4] == Pad(t.year, 4) && d[5..7] == Pad(t.month, 2) && d[8..10] == Pad(t.day, 2);
    assert c[0..2] == Pad(t.hour, 2) && c[3..5] == Pad(t.minute, 2) && c[6..8] == Pad(t.second, 2);
    var r := d + "T" + c + z;
    assert r[0..10] == d && r[11..19] == c && r[19..24] == z;
    r
  }

  /** The fields spelled by text of the layout's shape, before any range check. */
  function Fields(s: string): Timestamp
    requires Shaped(s)
  {
    var off := 60 * Number(s[20..22]) + Number(s[22..24]);
    Timestamp(Number(s[0..4]), Number(s[5..7]), Number(s[8..10]),
              Number(s[11..13]), Number(s[14..16]), Number(s[17..19]),
              if s[SignAt] == '-' then -off else off)
  }

  /**
   * Reads a time value written in the layout. Fails unless the text has exactly the
   * layout's shape and every field is in range; nothing may precede or follow it.
   */
  function Parse(s: string): (r: Option<Time>)
    ensures r.Some? ==> Shaped(s) && 0 <= r.value.year <= 9999
  {
    if !Shaped(s) then None
    else
      var t := Fields(s);
      if Number(s[20..22]) <= 23 && Number(s[22..24]) <= 59 && WellFormed(t) then Some(t) else None
  }

  /** The digits of a slice are the digits at its positions. */
  lemma DigitsAt(s: string, lo: nat, hi: nat)
    requires lo <= hi <= |s|
    ensures AllDigits(s[lo..hi]) <==> forall i :: lo <= i < hi ==> IsDigit(s[i])
  {
    if forall i :: lo <= i < hi ==> IsDigit(s[i]) {
      forall j | 0 <= j < hi - lo
        ensures IsDigit(s[lo..hi][j])
      {
        assert s[lo..hi][j] == s[lo + j];
      }
    }
    if AllDigits(s[lo..hi]) {
      forall i | lo <= i < hi
        ensures IsDigit(s[i])
      {
        assert s[i] == s[lo..hi][i - lo];
      }
    }
  }

  /** Where Format puts each field's numeral, and the sign. */
  lemma FormatSlices(t: Time)
    requires 0 <= t.year <= 9999
    ensures var f, off := Format(t), Abs(t.offsetMinutes);
      && f[0..4] == Pad(t.year, 4) && f[5..7] == Pad(t.month, 2) && f[8..10] == Pad(t.day, 2)
      && f[11..13] == Pad(t.hour, 2) && f[14..16] == Pad(t.minute, 2) && f[17..19] == Pad(t.second, 2)
      && f[SignAt] == (if t.offsetMinutes < 0 then '-' else '+')
      && f[20..22] == Pad(off / 60, 2) && f[22..24] == Pad(off % 60, 2)
  {
    var d, c, z, f := DatePart(t), ClockPart(t), ZonePart(t), Format(t);
    assert f == d + "T" + c + z;
    assert f[0..10] == d && f[11..19] == c && f[19..24] == z;
    assert d[0..4] == Pad(t.year, 4) && d[5..7] == Pad(t.month, 2) && d[8..10] == Pad(t.day, 2);
    assert c[0..2] == Pad(t.hour, 2) && c[3..5] == Pad(t.minute, 2) && c[6..8] == Pad(t.second, 2);
    assert z[1..3] == Pad(Abs(t.offsetMinutes) / 60, 2) && z[3..5] == Pad(Abs(t.offsetMinutes) % 60, 2);
  }

  /** Reading what Format wrote gives back every field of the time value. */
  lemma ParseFormat(t: Time)
    requires 0 <= t.year <= 9999
    ensures Parse(Format(t)) == Some(t)
  {
    var s, off := Format(t), Abs(t.offsetMinutes);
    FormatSlices(t);
    assert Pow10(2) == 100 && Pow10(4) == 10000;
    NumberOfPad(t.year, 4);
    NumberOfPad(t.month, 2);
    NumberOfPad(t.day, 2);
    NumberOfPad(t.hour, 2);
    NumberOfPad(t.minute, 2);
    NumberOfPad(t.second, 2);
    NumberOfPad(off / 60, 2);
    NumberOfPad(off % 60, 2);
    assert Fields(s) == t;
  }

  /** Text written in the layout with a zero offset signed `-`, which Format never produces. */
  function NegativeZero(t: Time): (r: string)
    requires 0 <= t.year <= 9999 && t.offsetMinutes == 0
    ensures Shaped(r) && r[SignAt] == '-'
  {
    var f := Format(t);
    var r := f[SignAt := '-'];
    assert r[0..4] == f[0..4] && r[5..7] == f[5..7] && r[8..10] == f[8..10];
    assert r[11..13] == f[11..13] && r[14..16] == f[14..16] && r[17..19] == f[17..19];
    assert r[20..22] == f[20..22] && r[22..24] == f[22..24];
    r
  }

  /** `-0000` is read as the zero offset, like `+0000`. */
  lemma ParseNegativeZero(t: Time)
    requires 0 <= t.year <= 9999 && t.offsetMinutes == 0
    ensures Parse(NegativeZero(t)) == Some(t)
  {
    var z, f := NegativeZero(t), Format(t);
    ParseFormat(t);
    assert z[0..4] == f[0..4] && z[5..7] == f[5..7] && z[8..10] == f[8..10];
    assert z[11..13] == f[11..13] && z[14..16] == f[14..16] && z[17..19] == f[17..19];
    assert z[20..22] == f[20..22] && z[22..24] == f[22..24];
  }

  /** An offset made of hours and minutes splits back into them. */
  lemma SplitHour(n: int, q: int, r: int)
    requires 0 <= r < 60 && n == 60 * q + r
    ensures n / 60 == q && n % 60 == r
  {
  }

  /** Two texts of 24 characters that agree on every field and literal agree away from the sign. */
  lemma AgreeAwayFromSign(s: string, f: string)
    requires |s| == |f| == 24
    requires s[0..4] == f[0..4] && s[5..7] == f[5..7] && s[8..10] == f[8..10]
    requires s[11..13] == f[11..13] && s[14..16] == f[14..16] && s[17..19] == f[17..19]
    requires s[20..22] == f[20..22] && s[22..24] == f[22..24]
    requires s[4] == f[4] && s[7] == f[7] && s[10] == f[10] && s[13] == f[13] && s[16] == f[16]
    ensures forall i :: 0 <= i < 24 && i != SignAt ==> s[i] == f[i]
  {
    forall i | 0 <= i < 24 && i != SignAt
      ensures s[i] == f[i]
    {
      if i < 4 { assert s[i] == s[0..4][i] && f[i] == f[0..4][i]; }
      else if 5 <= i < 7 { assert s[i] == s[5..7][i - 5] && f[i] == f[5..7][i - 5]; }
      else if 8 <= i < 10 { assert s[i] == s[8..10][i - 8] && f[i] == f[8..10][i - 8]; }
      else if 11 <= i < 13 { assert s[i] == s[11..13][i - 11] && f[i] == f[11..13][i - 11]; }
      else if 14 <= i < 16 { assert s[i] == s[14..16][i - 14] && f[i] == f[14..16][i - 14]; }
      else if 17 <= i < 19 { assert s[i] == s[17..19][i - 17] && f[i] == f[17..19][i - 17]; }
      else if 20 <= i < 22 { assert s[i] == s[20..22][i - 20] && f[i] == f[20..22][i - 20]; }
      else if 22 <= i { assert s[i] == s[22..24][i - 22] && f[i] == f[22..24][i - 22]; }
    }
  }

  /** Away from the sign, Format writes back exactly the characters Parse read. */
  lemma FormatFields(s: string, t: Time)
    requires Parse(s) == Some(t)
    ensures forall i :: 0 <= i < |s| && i != SignAt ==> s[i] == Format(t)[i]
  {
    var f, off := Format(t), Abs(t.offsetMinutes);
    assert Shaped(s) && t == Fields(s);
    FormatSlices(t);
    SplitHour(off, Number(s[20..22]), Number(s[22..24]));
    PadOfNumber(s[0..4]);
    PadOfNumber(s[5..7]);
    PadOfNumber(s[8..10]);
    PadOfNumber(s[11..13]);
    PadOfNumber(s[14..16]);
    PadOfNumber(s[17..19]);
    PadOfNumber(s[20..22]);
    PadOfNumber(s[22..24]);
    AgreeAwayFromSign(s, f);
  }

  /** Format writes the sign Parse read, unless that was the `-` of a zero offset. */
  lemma SignBack(s: string, t: Time)
    requires Parse(s) == Some(t)
    requires !(t.offsetMinutes == 0 && s[SignAt] == '-')
    ensures s[SignAt] == Format(t)[SignAt]
  {
    assert Shaped(s) && t == Fields(s);
    FormatSlices(t);
  }

  /**
   * Whatever Parse accepts, Format writes back identically, except that a
   * zero offset written `-0000` comes back as `+0000`.
   */
  lemma FormatParse(s: string, t: Time)
    requires Parse(s) == Some(t)
    ensures s == Format(t) || (t.offsetMinutes == 0 && s == NegativeZero(t))
  {
    var f := Format(t);
    FormatFields(s, t);
    if t.offsetMinutes == 0 && s[SignAt] == '-' {
      var z := NegativeZero(t);
      assert forall i :: 0 <= i < |s| ==> s[i] == z[i];
    } else {
      SignBack(s, t);
      assert forall i :: 0 <= i < |s| ==> s[i] == f[i];
    }
  }

  /** Parse accepts exactly the texts Format writes, plus their `-0000` spellings. */
  lemma ParseIff(s: string, t: Time)
    ensures Parse(s) == Some(t) <==>
      0 <= t.year <= 9999 && (s == Format(t) || (t.offsetMinutes == 0 && s == NegativeZero(t)))
  {
    if Parse(s) == Some(t) {
      FormatParse(s, t);
    }
    if 0 <= t.year <= 9999 {
      ParseFormat(t);
      if t.offsetMinutes == 0 {
        ParseNegativeZero(t);
      }
    }
  }

  /** Every character of text of the layout's shape follows the constant's rule for its position. */
  lemma ShapedFits(s: string)
    requires Shaped(s)
    ensures forall i :: 0 <= i < |s| ==> FitsAt(i, s[i])
  {
    DigitsAt(s, 0, 4);
    DigitsAt(s, 5, 7);
    DigitsAt(s, 8, 10);
    DigitsAt(s, 11, 13);
    DigitsAt(s, 14, 16);
    DigitsAt(s, 17, 19);
    DigitsAt(s, 20, 22);
    DigitsAt(s, 22, 24);
    forall i | 0 <= i < |s|
      ensures FitsAt(i, s[i])
    {
      if i < 12 {
        assert i in {0, 1, 2, 3, 4, 5, 6, 7, 8, 9, 10, 11};
      } else {
        assert i in {12, 13, 14, 15, 16, 17, 18, 19, 20, 21, 22, 23};
      }
    }
  }

  /** Text that follows the constant's rule at every position has the layout's shape. */
  lemma FitsShaped(s: string)
    requires |s| == |TimeFormat| && forall i :: 0 <= i < |s| ==> FitsAt(i, s[i])
    ensures Shaped(s)
  {
    assert FitsAt(0, s[0]) && FitsAt(1, s[1]) && FitsAt(2, s[2]) && FitsAt(3, s[3]) && FitsAt(4, s[4]);
    assert FitsAt(5, s[5]) && FitsAt(6, s[6]) && FitsAt(7, s[7]) && FitsAt(8, s[8]) && FitsAt(9, s[9]);
    assert FitsAt(10, s[10]) && FitsAt(11, s[11]) && FitsAt(12, s[12]) && FitsAt(13, s[13]);
    assert FitsAt(14, s[14]) && FitsAt(15, s[15]) && FitsAt(16, s[16]) && FitsAt(17, s[17]);
    assert FitsAt(18, s[18]) && FitsAt(19, s[19]) && FitsAt(20, s[20]) && FitsAt(21, s[21]);
    assert FitsAt(22, s[22]) && FitsAt(23, s[23]);
    DigitsAt(s, 0, 4);
    DigitsAt(s, 5, 7);
    DigitsAt(s, 8, 10);
    DigitsAt(s, 11, 13);
    DigitsAt(s, 14, 16);
    DigitsAt(s, 17, 19);
    DigitsAt(s, 20, 22);
    DigitsAt(s, 22, 24);
  }

  /**
   * The shape is the one the layout constant spells: its length, digits where it
   * has digits, its literals elsewhere, and a sign where it has `-0700`'s sign.
   */
  lemma FollowsTimeFormat(s: string)
    ensures Shaped(s) <==> |s| == |TimeFormat| && forall i :: 0 <= i < |s| ==> FitsAt(i, s[i])
  {
    if Shaped(s) {
      ShapedFits(s);
    }
    if |s| == |TimeFormat| && forall i :: 0 <= i < |s| ==> FitsAt(i, s[i]) {
      FitsShaped(s);
    }
  }

  /** Text of the layout's shape is ASCII and holds no double quote. */
  lemma ShapedAscii(s: string)
    requires Shaped(s)
    ensures forall i :: 0 <= i < |s| ==> s[i] as int < 128 && s[i] != '"'
  {
    ShapedFits(s);
    forall i | 0 <= i < |s|
      ensures s[i] as int < 128 && s[i] != '"'
    {
      assert FitsAt(i, s[i]);
    }
  }
}
