/**
 * Elemental Conductor's `DateTime`: a `time.Time` read from XML text in the
 * layout "2006-01-02 15:04:05 -0700" and always kept in UTC, with two
 * sentinel texts that stand for the zero time, and left out of the XML it
 * is written to when it is zero.
 */
module ElementalTime {
  import opened Wrappers
  import opened Calendar
  import opened TimeLayouts

  /** What decoding an element can fail with. */
  datatype Error =
    | XMLError(message: string)               // the XML decoder could not read the element's text
    | ParseError(layout: string, value: string) // the text does not match the layout (Go's `*time.ParseError`)

  const DateTimeLayout := "2006-01-02 15:04:05 -0700"

  /** The text Elemental writes for an unset time, which the layout does not match. */
  const ZeroText := "0001-01-01T00:00:00Z"

  /** The texts that stand for the zero time; they are checked before any parse. */
  predicate IsSentinel(content: string)
  {
    content == "" || content == ZeroText
  }

  /** The time an element's text decodes to, in UTC, or the parse error. */
  function DecodeDateTime(content: string): (r: Result<Time, Error>)
    ensures r.Success? ==> ValidTime(r.value) && r.value.offset == 0
    ensures IsSentinel(content) ==> r == Success(Zero)
    ensures !IsSentinel(content) ==> (r.Success? <==> ParseConductor(content).Some?)
    ensures !IsSentinel(content) && r.Success? ==> r.value.utc == ParseConductor(content).value.utc
    ensures r.Failure? ==> r.error == ParseError(DateTimeLayout, content)
  {
    if IsSentinel(content) then Success(Zero)
    else match ParseConductor(content)
      case None => Failure(ParseError(DateTimeLayout, content))
      case Some(t) => Success(UTC(t))
  }

  /** The value a failed parse leaves in the field: Go assigns `time.Parse`'s zero result before returning the error. */
  function FieldAfter(r: Result<Time, Error>): Time
  {
    match r
    case Success(t) => t
    case Failure(_) => Zero
  }

  class DateTime {
    var time: Time

    ghost predicate Valid()
      reads this
    {
      ValidTime(time)
    }

    constructor ()
      ensures Valid() && time == Zero
    {
      time := Zero;
    }

    /**
     * `UnmarshalXML`. `element` is what the XML decoder read for the element:
     * its text, or the decoder's error, which is returned with the field left
     * as it was.
     */
    method UnmarshalXML(element: Result<string, string>) returns (err: Option<Error>)
      requires Valid()
      modifies this
      ensures Valid()
      ensures element.Failure? ==> err == Some(XMLError(element.error)) && time == old(time)
      ensures element.Success? ==> var r := DecodeDateTime(element.value);
        && time == FieldAfter(r)
        && (err.None? <==> r.Success?)
        && (r.Failure? ==> err == Some(r.error))
    {
      if element.Failure? {
        return Some(XMLError(element.error));
      }
      var content := element.value;
      if content == "" {
        time := Zero;
        return None;
      }
      if content == ZeroText {
        time := Zero;
        return None;
      }
      var parsed := ParseConductor(content);
      if parsed.None? {
        time := Zero;
        return Some(ParseError(DateTimeLayout, content));
      }
      time := parsed.value;
      time := UTC(time);
      return None;
    }

    /**
     * `MarshalXML`: the time handed to the XML encoder, or `None` when the
     * element is left out because the time is zero.
     */
    function MarshalXML(): (r: Option<Time>)
      reads this
      requires Valid()
      ensures r.None? <==> IsZero(time)
      ensures r.Some? ==> r.value == time
    {
      if IsZero(time) then None else Some(time)
    }
  }

  /** Both sentinels decode to a time that is omitted again when written. */
  lemma SentinelsDecodeToZero(content: string)
    requires IsSentinel(content)
    ensures DecodeDateTime(content) == Success(Zero) && IsZero(Zero)
  {
    ZeroIsZero();
  }

  /**
   * Text in the layout decodes to the instant its fields name, in UTC, when
   * the fields are in range, and is a parse error when they are not.
   */
  lemma DecodeShown(f: Fields, offset: int)
    requires Printable(f) && ShowableOffset(offset)
    ensures var text := ShowConductor(f, offset);
      DecodeDateTime(text) == if InRange(f) then Success(Time(ToUTC(FieldsCivil(f), offset), 0))
                              else Failure(ParseError(DateTimeLayout, text))
  {
    ConductorRoundTrip(f, offset);
    assert |ShowConductor(f, offset)| == 25;
  }

  /** "2016-02-01 11:59:20 -0800" is 19:59:20 UTC the same day. */
  lemma DecodeWestOfUTC()
    ensures DecodeDateTime("2016-02-01 11:59:20 -0800") == Success(Time(Civil(Date(2016, 2, 1), 19, 59, 20, 0), 0))
  {
    ShownWestOfUTC();
    DecodeShown(Fields(2016, 2, 1, 11, 59, 20, 0), -28800);
    WestOfUTCInUTC();
  }

  lemma ShownWestOfUTC()
    ensures ShowConductor(Fields(2016, 2, 1, 11, 59, 20, 0), -28800) == "2016-02-01 11:59:20 -0800"
  {
  }

  lemma WestOfUTCInUTC()
    ensures ToUTC(Civil(Date(2016, 2, 1), 11, 59, 20, 0), -28800) == Civil(Date(2016, 2, 1), 19, 59, 20, 0)
  {
    assert AddDays(Date(2016, 2, 1), 0) == Date(2016, 2, 1);
    assert 71960 / 86400 == 0 && 71960 % 86400 == 71960;
    assert 71960 / 3600 == 19 && 71960 % 3600 / 60 == 59 && 71960 % 60 == 20;
  }

  /** "2016-02-01 00:25:00 +0300" is 21:25 UTC the day before. */
  lemma DecodeEastRollsBack()
    ensures DecodeDateTime("2016-02-01 00:25:00 +0300") == Success(Time(Civil(Date(2016, 1, 31), 21, 25, 0, 0), 0))
  {
    ShownEast();
    DecodeShown(Fields(2016, 2, 1, 0, 25, 0, 0), 10800);
    EastInUTC();
  }

  lemma ShownEast()
    ensures ShowConductor(Fields(2016, 2, 1, 0, 25, 0, 0), 10800) == "2016-02-01 00:25:00 +0300"
  {
  }

  lemma EastInUTC()
    ensures ToUTC(Civil(Date(2016, 2, 1), 0, 25, 0, 0), 10800) == Civil(Date(2016, 1, 31), 21, 25, 0, 0)
  {
    assert AddDays(Date(2016, 2, 1), -1) == Date(2016, 1, 31) by {
      assert AddDays(Date(2016, 1, 31), 0) == Date(2016, 1, 31);
    }
    assert -9300 / 86400 == -1 && -9300 % 86400 == 77100;
    assert 77100 / 3600 == 21 && 77100 % 3600 / 60 == 25 && 77100 % 60 == 0;
  }

  /** "2016-03-25 21:49:01 -0300" is 00:49:01 UTC the day after. */
  lemma DecodeWestRollsForward()
    ensures DecodeDateTime("2016-03-25 21:49:01 -0300") == Success(Time(Civil(Date(2016, 3, 26), 0, 49, 1, 0), 0))
  {
    ShownWest();
    DecodeShown(Fields(2016, 3, 25, 21, 49, 1, 0), -10800);
    WestInUTC();
  }

  lemma ShownWest()
    ensures ShowConductor(Fields(2016, 3, 25, 21, 49, 1, 0), -10800) == "2016-03-25 21:49:01 -0300"
  {
  }

  lemma WestInUTC()
    ensures ToUTC(Civil(Date(2016, 3, 25), 21, 49, 1, 0), -10800) == Civil(Date(2016, 3, 26), 0, 49, 1, 0)
  {
    assert AddDays(Date(2016, 3, 25), 1) == Date(2016, 3, 26) by {
      assert AddDays(Date(2016, 3, 26), 0) == Date(2016, 3, 26);
    }
    assert 89341 / 86400 == 1 && 89341 % 86400 == 2941;
    assert 2941 / 3600 == 0 && 2941 % 3600 / 60 == 49 && 2941 % 60 == 1;
  }

  /** A thirteenth month is a parse error. */
  lemma MonthThirteenRejected()
    ensures DecodeDateTime("2016-13-01 15:03:02 -0300") == Failure(ParseError(DateTimeLayout, "2016-13-01 15:03:02 -0300"))
  {
    ShownMonthThirteen();
    DecodeShown(Fields(2016, 13, 1, 15, 3, 2, 0), -10800);
  }

  lemma ShownMonthThirteen()
    ensures ShowConductor(Fields(2016, 13, 1, 15, 3, 2, 0), -10800) == "2016-13-01 15:03:02 -0300"
  {
  }

  /** The zero sentinel does not match the layout: without the check before the parse it would be an error. */
  lemma ZeroTextUnparsed()
    ensures ParseConductor(ZeroText).None?
  {
    DateAndClockShape(ZeroText, ' ');
  }
}
