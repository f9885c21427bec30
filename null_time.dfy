/**
 * A nullable time value for database columns and JSON documents: a time value
 * together with a flag that says whether it is present (SQL NULL / JSON null when not).
 */
module Nulls {
  import opened Wrappers
  import opened Ascii
  import opened Timestamps
  import opened Layout

  /** The two ways the operations fail. */
  datatype Error =
    | RangeError   // the year has more than four digits, or is negative
    | FormatError  // the text is not in the layout

  /** What a database driver hands over or accepts: a time, NULL, or a value of another type. */
  datatype DriverValue = DNull | DTime(t: Time) | DOther

  /** The JSON literal `null`. */
  const NullLiteral: seq<byte> := Bytes("null")

  /** The double-quote byte that would open and close a JSON string. */
  const Quote: byte := 34

  /** Bytes spell `null` exactly when they are the literal's bytes. */
  lemma NullText(text: seq<byte>)
    ensures Text(text) == "null" <==> text == NullLiteral
  {
    TextOfBytes("null");
    if Text(text) == "null" {
      TextInjective(text, NullLiteral);
    }
  }

  /**
   * What UnmarshalJSON makes of its input: `Success(None)` for `null` or no text,
   * `Success(Some(t))` for text in the layout, a FormatError for anything else.
   */
  function DecodeJSON(text: seq<byte>): (r: Result<Option<Time>, Error>)
    ensures r == Success(None) <==> text == NullLiteral || text == []
    ensures r.Failure? ==> r.error == FormatError
    ensures r.Success? && r.value.Some? ==> |text| == |TimeFormat|
  {
    NullText(text);
    var txt := Text(text);
    if txt == "null" || txt == "" then Success(None)
    else
      match Parse(txt)
      case Some(t) => Success(Some(t))
      case None => Failure(FormatError)
  }

  class NullTime {
    var time: Time
    var valid: bool  // true when time is not NULL

    /** The zero value: absent, with the zero time. */
    constructor ()
      ensures time == Zero && !valid
    {
      time, valid := Zero, false;
    }

    /** A present value holding `t`. */
    constructor New(t: Time)
      ensures time == t && valid
    {
      time, valid := t, true;
    }

    /**
     * Database read. A time becomes present; NULL and every other value become
     * absent with the zero time. It never fails.
     */
    method Scan(value: DriverValue) returns (err: Option<Error>)
      modifies this
      ensures err == None
      ensures valid <==> value.DTime?
      ensures time == if value.DTime? then value.t else Zero
    {
      match value {
        case DTime(t) =>
          time, valid := t, true;
        case _ =>
          time, valid := Zero, false;
      }
      err := None;
    }

    /** Database write: NULL when absent, otherwise the time, unmodified. */
    function Value(): (v: DriverValue)
      reads this
      ensures v != DOther
      ensures v == DNull <==> !valid
      ensures valid ==> v == DTime(time)
    {
      if !valid then DNull else DTime(time)
    }

    /**
     * JSON write: `null` when absent; a RangeError when the year does not have
     * four digits; otherwise the time in the layout, without surrounding quotes.
     */
    function MarshalJSON(): (r: Result<seq<byte>, Error>)
      reads this
      ensures r.Failure? <==> valid && !(0 <= time.year <= 9999)
      ensures r.Failure? ==> r.error == RangeError
      ensures !valid ==> r == Success(NullLiteral)
      ensures valid && r.Success? ==> Text(r.value) == Format(time)
      ensures r.Success? ==> Quote !in r.value
    {
      if valid then
        if time.year < 0 || time.year >= 10000 then Failure(RangeError)
        else
          var s := Format(time);
          ShapedAscii(s);
          TextOfBytes(s);
          Success(Bytes(s))
      else
        Success(NullLiteral)
    }

    /**
     * JSON read. Marks the value absent first; `null` and no text leave it absent
     * without error. Otherwise the text is parsed in the layout: on success the
     * time is stored and marked present, on failure a FormatError is returned and
     * the stored time is left as it was.
     */
    method UnmarshalJSON(text: seq<byte>) returns (err: Option<Error>)
      modifies this
      ensures var d := DecodeJSON(text);
        && (err == if d.Failure? then Some(FormatError) else None)
        && (valid <==> d.Success? && d.value.Some?)
        && time == if valid then d.value.value else old(time)
    {
      valid := false;
      var txt := Text(text);
      if txt == "null" || txt == "" {
        return None;
      }
      match Parse(txt)
      case Some(t) =>
        time := t;
        valid := true;
        err := None;
      case None =>
        err := Some(FormatError);
    }
  }

  /**
   * What MarshalJSON writes, DecodeJSON reads back: absent stays absent and a
   * present time with a four-digit year comes back with every field equal.
   */
  lemma MarshalRoundTrip(n: NullTime)
    requires n.valid ==> 0 <= n.time.year <= 9999
    ensures n.MarshalJSON().Success?
    ensures DecodeJSON(n.MarshalJSON().value) == Success(if n.valid then Some(n.time) else None)
  {
    if n.valid {
      ParseFormat(n.time);
      var text := n.MarshalJSON().value;
      assert Text(text) == Format(n.time);
      assert |text| == |TimeFormat|;
    }
  }

  /**
   * DecodeJSON yields a present time exactly for the texts MarshalJSON writes for
   * it, plus the `-0000` spelling of a zero offset.
   */
  lemma DecodeIff(text: seq<byte>, t: Time)
    ensures DecodeJSON(text) == Success(Some(t)) <==>
      0 <= t.year <= 9999 && (Text(text) == Format(t) || (t.offsetMinutes == 0 && Text(text) == NegativeZero(t)))
  {
    var txt := Text(text);
    ParseIff(txt, t);
    if 0 <= t.year <= 9999 && (txt == Format(t) || (t.offsetMinutes == 0 && txt == NegativeZero(t))) {
      assert |txt| == |TimeFormat|;
    }
  }

  /** A value written to JSON by one NullTime and read by another arrives unchanged. */
  method JsonRoundTrip(src: NullTime, dst: NullTime) returns (err: Option<Error>)
    requires src.valid ==> 0 <= src.time.year <= 9999
    modifies dst
    ensures err == None
    ensures dst.valid == old(src.valid)
    ensures old(src.valid) ==> dst.time == old(src.time)
  {
    MarshalRoundTrip(src);
    var text := src.MarshalJSON().value;
    err := dst.UnmarshalJSON(text);
  }

  /** A value written to the database by one NullTime and read by another arrives unchanged. */
  method DatabaseRoundTrip(src: NullTime, dst: NullTime) returns (err: Option<Error>)
    modifies dst
    ensures err == None
    ensures dst.valid == old(src.valid)
    ensures dst.time == if old(src.valid) then old(src.time) else Zero
  {
    err := dst.Scan(src.Value());
  }
}
