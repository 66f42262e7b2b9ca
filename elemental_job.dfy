/**
 * Elemental Conductor's job records: the timestamp of a job error, read in
 * the layout "2006-01-02T15:04:05-07:00" and kept in the zone it was written
 * in, and the job id taken from the end of a job's href.
 */
module ElementalJob {
  import opened Wrappers
  import opened Calendar
  import opened TimeLayouts
  import opened GoStrings
  import opened ElementalTime

  const ErrorDateTimeLayout := "2006-01-02T15:04:05-07:00"

  /**
   * The time a job error's text decodes to, in the zone the text names, or
   * the parse error. Unlike `DecodeDateTime`, nothing converts it to UTC.
   */
  function DecodeJobErrorDateTime(content: string): (r: Result<Time, Error>)
    ensures r.Success? ==> ValidTime(r.value)
    ensures IsSentinel(content) ==> r == Success(Zero)
    ensures !IsSentinel(content) && r.Success? ==> Some(r.value) == ParseJobError(content)
    ensures !IsSentinel(content) ==> (r.Failure? <==> ParseJobError(content).None?)
    ensures r.Failure? ==> r.error == ParseError(ErrorDateTimeLayout, content)
  {
    if IsSentinel(content) then Success(Zero)
    else match ParseJobError(content)
      case None => Failure(ParseError(ErrorDateTimeLayout, content))
      case Some(t) => Success(t)
  }

  class JobErrorDateTime {
    var time: Time

    ghost predicate Valid()
      reads this
    {
      ValidTime(time)
    }

    constructor ()
      ensures Valid() && time == Zero
    {
      time := Zero;
    }

    /**
     * `UnmarshalXML`. `element` is what the XML decoder read for the element:
     * its text, or the decoder's error, which is returned with the field left
     * as it was. A failed parse leaves the zero time in the field.
     */
    method UnmarshalXML(element: Result<string, string>) returns (err: Option<Error>)
      requires Valid()
      modifies this
      ensures Valid()
      ensures element.Failure? ==> err == Some(XMLError(element.error)) && time == old(time)
      ensures element.Success? ==> var r := DecodeJobErrorDateTime(element.value);
        && time == FieldAfter(r)
        && (err.None? <==> r.Success?)
        && (r.Failure? ==> err == Some(r.error))
    {
      if element.Failure? {
        return Some(XMLError(element.error));
      }
      var content := element.value;
      if content == "" {
        time := Zero;
        return None;
      }
      if content == ZeroText {
        time := Zero;
        return None;
      }
      var parsed := ParseJobError(content);
      if parsed.None? {
        time := Zero;
        return Some(ParseError(ErrorDateTimeLayout, content));
      }
      time := parsed.value;
      return None;
    }

    /** `MarshalXML`: the time handed to the XML encoder, or `None` when it is zero and left out. */
    function MarshalXML(): (r: Option<Time>)
      reads this
      requires Valid()
      ensures r.None? <==> IsZero(time)
      ensures r.Some? ==> r.value == time
    {
      if IsZero(time) then None else Some(time)
    }
  }

  /** Both sentinels decode to the zero time, which is omitted again when written. */
  lemma JobErrorSentinelsDecodeToZero(content: string)
    requires IsSentinel(content)
    ensures DecodeJobErrorDateTime(content) == Success(Zero) && IsZero(Zero)
  {
    ZeroIsZero();
  }

  /**
   * Text in the layout decodes, when its fields are in range, to the instant
   * they name, still shown in the zone the text gave; otherwise it is an error.
   */
  lemma DecodeJobErrorShown(f: Fields, offset: int)
    requires Printable(f) && ShowableOffset(offset)
    ensures var text := ShowJobError(f, offset);
      DecodeJobErrorDateTime(text) == if InRange(f) then Success(Time(ToUTC(FieldsCivil(f), offset), offset))
                                      else Failure(ParseError(ErrorDateTimeLayout, text))
  {
    JobErrorRoundTrip(f, offset);
    assert |ShowJobError(f, offset)| == 25;
  }

  /** "2016-02-01T11:59:20-08:00" is the instant 19:59:20 UTC, kept in the zone eight hours west. */
  lemma DecodeJobErrorWestOfUTC()
    ensures DecodeJobErrorDateTime("2016-02-01T11:59:20-08:00") == Success(Time(Civil(Date(2016, 2, 1), 19, 59, 20, 0), -28800))
  {
    ShownJobErrorWestOfUTC();
    DecodeJobErrorShown(Fields(2016, 2, 1, 11, 59, 20, 0), -28800);
    WestOfUTCInUTC();
  }

  lemma ShownJobErrorWestOfUTC()
    ensures ShowJobError(Fields(2016, 2, 1, 11, 59, 20, 0), -28800) == "2016-02-01T11:59:20-08:00"
  {
  }

  /** "2016-02-01T00:25:00+03:00" is the instant 21:25 UTC the day before, kept in the zone three hours east. */
  lemma DecodeJobErrorEastRollsBack()
    ensures DecodeJobErrorDateTime("2016-02-01T00:25:00+03:00") == Success(Time(Civil(Date(2016, 1, 31), 21, 25, 0, 0), 10800))
  {
    ShownJobErrorEast();
    DecodeJobErrorShown(Fields(2016, 2, 1, 0, 25, 0, 0), 10800);
    EastInUTC();
  }

  lemma ShownJobErrorEast()
    ensures ShowJobError(Fields(2016, 2, 1, 0, 25, 0, 0), 10800) == "2016-02-01T00:25:00+03:00"
  {
  }

  /**
   * The decoding the repository's test expects of a job error's time: the
   * same instant, shown in UTC as `DateTime` shows it.
   */
  function DecodeJobErrorDateTimeInUTC(content: string): (r: Result<Time, Error>)
    ensures r.Success? <==> DecodeJobErrorDateTime(content).Success?
    ensures r.Success? ==> r.value.offset == 0 && r.value.utc == DecodeJobErrorDateTime(content).value.utc
    ensures r.Failure? ==> r == DecodeJobErrorDateTime(content)
  {
    match DecodeJobErrorDateTime(content)
    case Success(t) => Success(UTC(t))
    case Failure(e) => Failure(e)
  }

  /**
   * On "2016-02-01T11:59:20-08:00" the decoding as written keeps the zone,
   * so it is not the UTC time the test expects; the UTC decoding is.
   */
  lemma JobErrorZoneKept()
    ensures var expected := Success(Time(Civil(Date(2016, 2, 1), 19, 59, 20, 0), 0));
      && DecodeJobErrorDateTime("2016-02-01T11:59:20-08:00") != expected
      && DecodeJobErrorDateTimeInUTC("2016-02-01T11:59:20-08:00") == expected
  {
    DecodeJobErrorWestOfUTC();
  }

  /** Text with a space where the layout has 'T', as in "2016-13-01 15:03:02 -0300", is an error. */
  lemma SpaceSeparatedRejected(content: string)
    requires |content| > 10 && content[10] == ' '
    ensures DecodeJobErrorDateTime(content) == Failure(ParseError(ErrorDateTimeLayout, content))
  {
    DateAndClockShape(content, 'T');
    assert content != ZeroText by {
      assert ZeroText[10] == 'T';
    }
  }

  /** The space-separated text of the invalid-format test is one of those. */
  lemma MonthThirteenSpaceRejected()
    ensures DecodeJobErrorDateTime("2016-13-01 15:03:02 -0300").Failure?
  {
    SpaceSeparatedRejected("2016-13-01 15:03:02 -0300");
  }

  /** The zero sentinel does not match the layout either: it ends before a zone could start. */
  lemma ZeroTextUnparsedAsJobError()
    ensures ParseJobError(ZeroText).None?
  {
    DateAndClockShape(ZeroText, 'T');
  }

  /** A job, as far as its id goes: the href attribute Elemental Conductor gives it. */
  datatype Job = Job(href: string)
  {
    /**
     * `GetID`: the text after the last '/' of the href; "" for an empty
     * href and for an href without a '/'.
     */
    function GetID(): (id: string)
      ensures '/' !in href ==> id == ""
      ensures '/' in href ==> && |id| < |href| && href[|href| - |id| - 1] == '/'
                              && id == href[|href| - |id|..] && '/' !in id
    {
      ContainsChar(href, '/');
      if href != "" then
        var hrefData := Split(href, "/");
        SplitSingle(href, "/");
        if |hrefData| > 1 then
          SplitLast(href, "/");
          SplitPiecesFree(href, "/");
          ContainsChar(Last(hrefData), '/');
          Last(hrefData)
        else ""
      else ""
    }

    /**
     * The id `GetID` is evidently meant to give: the last '/'-separated
     * piece of the href, which is the whole href when it has no '/'.
     */
    function IntendedID(): (id: string)
      ensures '/' !in id && |id| <= |href| && id == href[|href| - |id|..]
      ensures |id| == |href| || href[|href| - |id| - 1] == '/'
      ensures '/' in href ==> id == GetID()
      ensures '/' !in href ==> id == href
    {
      var hrefData := Split(href, "/");
      ContainsChar(href, '/');
      SplitSingle(href, "/");
      SplitPiecesFree(href, "/");
      ContainsChar(Last(hrefData), '/');
      if '/' in href then
        SplitLast(href, "/");
        Last(hrefData)
      else
        SplitFree(href, "/");
        Last(hrefData)
    }
  }

  /** The id of a job href is its last path segment. */
  lemma GetIDOfJobURL()
    ensures Job("http://myelemental/jobs/123").GetID() == "123"
  {
    var href := "http://myelemental/jobs/123";
    var id := Job(href).GetID();
    assert href[23] == '/';
  }

  /** An href that ends in '/' has an empty id. */
  lemma GetIDOfTrailingSlash()
    ensures Job("http://myelemental/jobs/").GetID() == ""
  {
    var href := "http://myelemental/jobs/";
    var id := Job(href).GetID();
  }

  /** An href without a '/' has an empty id, although the repository's test expects the href itself. */
  lemma GetIDWithoutSlash()
    ensures Job("job-1234").GetID() == "" && Job("job-1234").IntendedID() == "job-1234"
  {
  }
}
