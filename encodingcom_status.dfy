/**
 * Encoding.com's `GetStatus`: the request for the status of some media, and
 * the assembly of the decoded answer into `StatusResponse` records, with
 * each format's destinations paired with their statuses by position.
 */
module EncodingComStatus {
  import opened Wrappers
  import opened Calendar
  import opened GoStrings

  /** A `float64`, carried as its bits and copied, never computed with. */
  datatype Float64 = Float64(bits: bv64)

  /** A destination of a format and the status of the upload to it. */
  datatype DestinationStatus = DestinationStatus(name: string, status: string)

  /**
   * `formatStatusJSON` as decoded. A JSON `null` in a list of strings is
   * already "" here, and a `null` list is already empty. The dates are the
   * times the `MediaDateTime` fields hold.
   */
  datatype FormatStatusJSON = FormatStatusJSON(
    id: string,
    status: string,
    createDate: Time,
    startDate: Time,
    finishDate: Time,
    s3Destination: string,
    cfDestination: string,
    destinations: seq<string>,
    destinationsStatus: seq<string>)

  /** `FormatStatus`. */
  datatype FormatStatus = FormatStatus(
    id: string,
    status: string,
    createDate: Time,
    startDate: Time,
    finishDate: Time,
    s3Destination: string,
    cfDestination: string,
    destinations: seq<DestinationStatus>)

  /** `statusJSON` as decoded. */
  datatype StatusJSON = StatusJSON(
    mediaID: string,
    userID: string,
    sourceFile: string,
    mediaStatus: string,
    previousMediaStatus: string,
    notifyURL: string,
    createDate: Time,
    startDate: Time,
    finishDate: Time,
    downloadDate: Time,
    uploadDate: Time,
    timeLeft: string,
    progress: Float64,
    timeLeftCurrentJob: string,
    progressCurrentJob: Float64,
    formats: seq<FormatStatusJSON>)

  /** `StatusResponse`. */
  datatype StatusResponse = StatusResponse(
    mediaID: string,
    userID: string,
    sourceFile: string,
    mediaStatus: string,
    previousMediaStatus: string,
    notifyURL: string,
    createDate: Time,
    startDate: Time,
    finishDate: Time,
    downloadDate: Time,
    uploadDate: Time,
    timeLeft: string,
    progress: Float64,
    timeLeftCurrentJob: string,
    progressCurrentJob: Float64,
    formats: seq<FormatStatus>)

  // What the records are meant to hold.

  /** The status at position `i`, or "" past the end of the list of statuses. */
  function StatusAt(statuses: seq<string>, i: nat): string
  {
    if i < |statuses| then statuses[i] else ""
  }

  /** One entry per destination, each with the status at its position. */
  function Paired(destinations: seq<string>, statuses: seq<string>): seq<DestinationStatus>
  {
    seq(|destinations|, i requires 0 <= i < |destinations| => DestinationStatus(destinations[i], StatusAt(statuses, i)))
  }

  function FormatOf(f: FormatStatusJSON): FormatStatus
  {
    FormatStatus(f.id, f.status, f.createDate, f.startDate, f.finishDate, f.s3Destination, f.cfDestination,
                 Paired(f.destinations, f.destinationsStatus))
  }

  function FormatsOf(formats: seq<FormatStatusJSON>): seq<FormatStatus>
  {
    seq(|formats|, i requires 0 <= i < |formats| => FormatOf(formats[i]))
  }

  function StatusOf(s: StatusJSON): StatusResponse
  {
    StatusResponse(s.mediaID, s.userID, s.sourceFile, s.mediaStatus, s.previousMediaStatus, s.notifyURL,
                   s.createDate, s.startDate, s.finishDate, s.downloadDate, s.uploadDate,
                   s.timeLeft, s.progress, s.timeLeftCurrentJob, s.progressCurrentJob, FormatsOf(s.formats))
  }

  function StatusesOf(jobs: seq<StatusJSON>): seq<StatusResponse>
  {
    seq(|jobs|, i requires 0 <= i < |jobs| => StatusOf(jobs[i]))
  }

  // The assembly, as `toStruct` does it: arrays made to size and filled by index.

  /** The inner loop of `toStruct`: one format with its destinations paired with their statuses. */
  method ToFormatStatus(f: FormatStatusJSON) returns (r: FormatStatus)
    ensures r == FormatOf(f)
  {
    var destinations := new DestinationStatus[|f.destinations|];
    for i := 0 to |f.destinations|
      invariant forall k :: 0 <= k < i ==>
        destinations[k] == DestinationStatus(f.destinations[k], StatusAt(f.destinationsStatus, k))
    {
      var destStatus := DestinationStatus(f.destinations[i], "");
      if i < |f.destinationsStatus| {
        destStatus := destStatus.(status := f.destinationsStatus[i]);
      }
      destinations[i] := destStatus;
    }
    r := FormatStatus(f.id, f.status, f.createDate, f.startDate, f.finishDate, f.s3Destination, f.cfDestination,
                      destinations[..]);
  }

  /** `statusJSON.toStruct`: the record of one job, its fields copied and its formats converted in order. */
  method ToStruct(s: StatusJSON) returns (r: StatusResponse)
    ensures r == StatusOf(s)
  {
    var formats := new FormatStatus[|s.formats|];
    for i := 0 to |s.formats|
      invariant forall k :: 0 <= k < i ==> formats[k] == FormatOf(s.formats[k])
    {
      var format := ToFormatStatus(s.formats[i]);
      formats[i] := format;
    }
    r := StatusResponse(s.mediaID, s.userID, s.sourceFile, s.mediaStatus, s.previousMediaStatus, s.notifyURL,
                        s.createDate, s.startDate, s.finishDate, s.downloadDate, s.uploadDate,
                        s.timeLeft, s.progress, s.timeLeftCurrentJob, s.progressCurrentJob, formats[..]);
  }

  // The request.

  /** The part of the request `GetStatus` sends that it chooses itself. */
  datatype Request = Request(action: string, mediaID: string, extended: bool)

  /** The answer decoded as `map[string]map[string][]statusJSON`. */
  type Reply = map<string, map<string, seq<StatusJSON>>>

  /** `m["response"]["job"]`: Go's lookups in a nil map give a nil slice, so a missing key gives no jobs. */
  function Jobs(m: Reply): seq<StatusJSON>
  {
    if "response" in m && "job" in m["response"] then m["response"]["job"] else []
  }

  const NoMediaMessage := "please provide at least one media id"

  /**
   * `GetStatus`. `call` stands for `Client.do`: the decoded answer to a
   * request, or the error the call ends with. `sent` is the request made, if
   * any.
   */
  method GetStatus(mediaIDs: seq<string>, call: Request -> Result<Reply, string>)
    returns (sent: Option<Request>, r: Result<seq<StatusResponse>, string>)
    ensures sent.None? <==> |mediaIDs| == 0
    ensures |mediaIDs| == 0 ==> r == Failure(NoMediaMessage)
    ensures sent.Some? ==> sent.value == Request("GetStatus", Join(mediaIDs, ","), true)
    ensures sent.Some? && call(sent.value).Failure? ==> r == Failure(call(sent.value).error)
    ensures sent.Some? && call(sent.value).Success? ==> r == Success(StatusesOf(Jobs(call(sent.value).value)))
  {
    if |mediaIDs| == 0 {
      return None, Failure(NoMediaMessage);
    }
    var request := Request("GetStatus", Join(mediaIDs, ","), true);
    sent := Some(request);
    var reply := call(request);
    if reply.Failure? {
      return sent, Failure(reply.error);
    }
    var apiStatus := Jobs(reply.value);
    var statusResponse := new StatusResponse[|apiStatus|];
    for i := 0 to |apiStatus|
      invariant forall k :: 0 <= k < i ==> statusResponse[k] == StatusOf(apiStatus[k])
    {
      var status := ToStruct(apiStatus[i]);
      statusResponse[i] := status;
    }
    assert statusResponse[..] == StatusesOf(apiStatus);
    r := Success(statusResponse[..]);
  }

  // What the pairing promises.

  function Names(ds: seq<DestinationStatus>): seq<string>
  {
    seq(|ds|, i requires 0 <= i < |ds| => ds[i].name)
  }

  function Statuses(ds: seq<DestinationStatus>): seq<string>
  {
    seq(|ds|, i requires 0 <= i < |ds| => ds[i].status)
  }

  function Blanks(n: nat): seq<string>
  {
    seq(n, i => "")
  }

  /** There is exactly one entry per destination, named after it, in order. */
  lemma PairedNames(destinations: seq<string>, statuses: seq<string>)
    ensures |Paired(destinations, statuses)| == |destinations|
    ensures Names(Paired(destinations, statuses)) == destinations
  {
  }

  /** Statuses past the last destination are dropped. */
  lemma PairedDropsExtraStatuses(destinations: seq<string>, statuses: seq<string>)
    requires |statuses| >= |destinations|
    ensures Statuses(Paired(destinations, statuses)) == statuses[..|destinations|]
  {
  }

  /** Destinations past the last status get the status "". */
  lemma PairedPadsMissingStatuses(destinations: seq<string>, statuses: seq<string>)
    requires |statuses| <= |destinations|
    ensures Statuses(Paired(destinations, statuses)) == statuses + Blanks(|destinations| - |statuses|)
  {
    var ss := Statuses(Paired(destinations, statuses));
    var padded := statuses + Blanks(|destinations| - |statuses|);
    forall i | 0 <= i < |destinations|
      ensures ss[i] == padded[i]
    {
      if i >= |statuses| {
        assert padded[i] == Blanks(|destinations| - |statuses|)[i - |statuses|];
      }
    }
  }

  /** Without a list of statuses every destination has the status "". */
  lemma PairedWithoutStatuses(destinations: seq<string>)
    ensures Statuses(Paired(destinations, [])) == Blanks(|destinations|)
  {
    PairedPadsMissingStatuses(destinations, []);
    assert [] + Blanks(|destinations|) == Blanks(|destinations|);
  }

  /** A format whose destination list and status list both hold a `null` first. */
  lemma PairedWithNullEntries()
    ensures Paired(["", "s3://myunclebucket/file.mp4"], ["", "Saved"])
         == [DestinationStatus("", ""), DestinationStatus("s3://myunclebucket/file.mp4", "Saved")]
  {
  }

  /**
   * A job's record has one format per decoded format, in order, each with its
   * fields copied and its destinations paired with their statuses.
   */
  lemma FormatsInOrder(s: StatusJSON)
    ensures |StatusOf(s).formats| == |s.formats|
    ensures forall i :: 0 <= i < |s.formats| ==> StatusOf(s).formats[i] == FormatOf(s.formats[i])
    ensures forall i :: 0 <= i < |s.formats| ==>
      StatusOf(s).formats[i].destinations == Paired(s.formats[i].destinations, s.formats[i].destinationsStatus)
  {
  }

  /** The media ids are sent joined by ","; ids without a "," can be read back from it. */
  lemma MediaIDsReadBack(mediaIDs: seq<string>)
    requires |mediaIDs| >= 1
    requires forall k :: 0 <= k < |mediaIDs| ==> ',' !in mediaIDs[k]
    ensures Split(Join(mediaIDs, ","), ",") == mediaIDs
  {
    SplitJoin(mediaIDs, ",");
  }

  /** Two ids are sent as "abc123,abc124". */
  lemma TwoMediaIDs()
    ensures Join(["abc123", "abc124"], ",") == "abc123,abc124"
  {
  }

  /**
   * There is one record per job in the answer, whatever the number of ids
   * asked for: an answer without jobs gives no records.
   */
  lemma OneRecordPerJob(m: Reply)
    ensures |StatusesOf(Jobs(m))| == |Jobs(m)|
    ensures "response" !in m ==> StatusesOf(Jobs(m)) == []
  {
  }
}
