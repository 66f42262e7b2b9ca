# encoding-wrapper, modelled in Dafny

A model of the decision logic of the Go clients in `encoding-wrapper`, for
several video-encoding services, with proofs about it. Nothing is sent over
the network. The model covers what the clients decide on their own:

- **Elemental Conductor times.** `DateTime` and `JobErrorDateTime` read an
  XML element's text with `time.Parse` in their layouts. Both treat "" and
  "0001-01-01T00:00:00Z" as the zero time, and both leave a zero time out of
  the XML they write. `DateTime` converts every parsed time to UTC.
- **Elemental Conductor job ids.** `Job.GetID` takes the id from the end of
  the job's `href`.
- **Hybrik configuration.** `NewClient` runs its guards in a fixed order and
  builds the credential URL `OAPIURL`. `isExpired` decides whether the login
  token must be fetched again.
- **Encoding.com wire helpers.** This covers the quoted booleans ("yes"/"no",
  "1"/"0") and the rule in `do` that turns a response with an `errors` block
  into an `APIError`. The model covers both copies, `encodingcom` and
  `encodingdotcom`, and proves that the two copies behave alike.
- **Encoding.com `GetStatus`.** It refuses an empty id list and sends the ids
  joined by ",". It then assembles one `StatusResponse` per job in the answer,
  pairing each format's destinations with their statuses by position.

Modules:

- `Wrappers`: `Option` and `Result`.
- `GoStrings`: `strings.Split`, `strings.Join` and `strings.Index` for a
  non-empty separator.
- `Calendar`: Go's proleptic Gregorian calendar, the instants of a
  `time.Time`, and moving a reading by a zone offset.
- `TimeLayouts`: `time.Parse` for the three layouts the clients use,
  together with renderers that the parsers read back.
- `ElementalTime`: `elementalconductor/time.go`.
- `ElementalJob`: `elementalconductor/job.go`.
- `HybrikClient`: `hybrik/client.go`.
- `EncodingCom`: `encodingcom/client.go`.
- `EncodingDotCom`: `encodingdotcom/client.go`.
- `EncodingComStatus`: `encodingcom/status.go`.

Parameters stand in for what the clients get from libraries or the outside
world:

- the XML decoder's reading of an element (a `Result` of its text);
- `url.ParseRequestURI` (a predicate on the URL);
- `time.Now` (the `now` argument);
- the JSON decoders of `do`;
- the call `GetStatus` makes through `do` (a function from the request to the
  decoded answer).

`DateTime` and `JobErrorDateTime` are classes whose `time` field
`UnmarshalXML` updates. `toStruct` and `GetStatus` make arrays of the right
size and fill them by index in loops. Each loop is proved against a
specification function.

Where the code and its comments or tests disagree, the model follows the
code:

- `JobErrorDateTime.UnmarshalXML` does not convert to UTC. The test in
  `elementalconductor/time_test.go` expects UTC.
- `GetStatus` returns one record per job in the answer. Its doc comment
  promises one per media id, but nothing checks that.
- `Job.GetID` gives "" for an href without a '/'. The test expects the href
  itself.
- `DateTime.MarshalXML` and `JobErrorDateTime.MarshalXML` hand the bare
  `time.Time` to `EncodeElement`, which writes it in RFC 3339
  ("2016-12-07T21:28:43Z"). The tests in `elementalconductor/time_test.go`
  expect the text in each type's own layout ("2016-12-07 21:28:43 +0000" and
  "2016-12-07T21:28:43+00:00"). The model keeps only the code's decision to
  leave a zero time out and the time handed over, not the text written.
- `status.go` sets an `Extended` field on `request`, but the `request` struct
  in `encodingcom/client.go` has no such field. The model carries `extended`
  as a boolean in the request.

## Model

| member | source | states |
|---|---|---|
| ElementalTime.DecodeDateTime | elementalconductor/time.go:32-44 | Both sentinel texts give the zero time. Any other text decodes exactly when it parses in layout "2006-01-02 15:04:05 -0700". A decoded time is valid, names the same instant as the parse, and is shown in UTC. A failure is the parse error for that layout and text. |
| ElementalTime.DateTime.UnmarshalXML | elementalconductor/time.go:26-46 | A decoder error is returned and the field is left as it was. Otherwise the field holds the decoded time, or the zero time after a failed parse. An error is returned exactly when decoding fails. |
| ElementalTime.DateTime.MarshalXML | elementalconductor/time.go:17-23 | The element is left out exactly when the time is the zero instant. Otherwise the stored time is what gets written. |
| ElementalTime.SentinelsDecodeToZero | elementalconductor/time.go:32-39 | "" and "0001-01-01T00:00:00Z" decode to the zero time, which is left out again when written. |
| ElementalTime.DecodeShown | elementalconductor/time.go:40-44 | For any text in the layout, an in-range reading decodes to the UTC reading of the same instant. Out-of-range fields give the parse error. |
| ElementalTime.DecodeWestOfUTC | elementalconductor/time_test.go:50-51 | "2016-02-01 11:59:20 -0800" is 2016-02-01 19:59:20 UTC. |
| ElementalTime.DecodeEastRollsBack | elementalconductor/time_test.go:54-55 | "2016-02-01 00:25:00 +0300" is 2016-01-31 21:25:00 UTC; the date rolls back. |
| ElementalTime.DecodeWestRollsForward | elementalconductor/node_test.go:78 | "2016-03-25 21:49:01 -0300" is 2016-03-26 00:49:01 UTC; the date rolls forward. |
| ElementalTime.MonthThirteenRejected | elementalconductor/time_test.go:85-95 | A thirteenth month is a parse error. |
| ElementalTime.ZeroTextUnparsed | elementalconductor/time.go:36-39 | The zero sentinel does not match the layout, so only the check before the parse makes it decode. |
| ElementalJob.DecodeJobErrorDateTime | elementalconductor/job.go:54-63 | Both sentinels give the zero time. Any other text decodes exactly when it parses in layout "2006-01-02T15:04:05-07:00". The result is that parse, in the zone the text names. A failure is the parse error for that layout and text. |
| ElementalJob.JobErrorDateTime.UnmarshalXML | elementalconductor/job.go:49-64 | A decoder error is returned and the field is left as it was. Otherwise the field holds the decoded time, or the zero time after a failed parse. An error is returned exactly when decoding fails. |
| ElementalJob.JobErrorDateTime.MarshalXML | elementalconductor/job.go:39-46 | The element is left out exactly when the time is the zero instant. |
| ElementalJob.JobErrorSentinelsDecodeToZero | elementalconductor/job.go:54-61 | Both sentinels decode to the zero time, which is left out when written. |
| ElementalJob.DecodeJobErrorShown | elementalconductor/job.go:62-63 | For any text in the layout, an in-range reading decodes to that instant and keeps the text's offset. Out-of-range fields give the parse error. |
| ElementalJob.DecodeJobErrorWestOfUTC | elementalconductor/time_test.go:136-137 | "2016-02-01T11:59:20-08:00" is the instant 19:59:20 UTC, kept at offset -8 hours. |
| ElementalJob.DecodeJobErrorEastRollsBack | elementalconductor/time_test.go:140-141 | "2016-02-01T00:25:00+03:00" is the instant 2016-01-31 21:25 UTC, kept at offset +3 hours. |
| ElementalJob.JobErrorZoneKept | elementalconductor/time_test.go:136-137 | The decoding as written differs from the UTC time the test expects; the UTC decoding equals it. |
| ElementalJob.DecodeJobErrorDateTimeInUTC | elementalconductor/time_test.go:130-150 | The intended decoding succeeds exactly when the one as written does, and names the same instant in UTC. |
| ElementalJob.SpaceSeparatedRejected | elementalconductor/job.go:62-63 | A text with a space where the layout has 'T' is a parse error. |
| ElementalJob.MonthThirteenSpaceRejected | elementalconductor/time_test.go:171-181 | "2016-13-01 15:03:02 -0300" is an error for the job-error layout. |
| ElementalJob.ZeroTextUnparsedAsJobError | elementalconductor/job.go:58-61 | The zero sentinel does not match the job-error layout either. |
| ElementalJob.Job.GetID | elementalconductor/job.go:99-107 | The id is "" when the href has no '/'. Otherwise the id is the suffix after the href's last '/', and it contains no '/'. |
| ElementalJob.Job.IntendedID | elementalconductor/job_test.go:326-347 | The corrected id is the text after the last '/', or the whole href when there is none. It agrees with `GetID` whenever the href has a '/'. |
| ElementalJob.GetIDOfJobURL | elementalconductor/job_test.go:332-333 | "http://myelemental/jobs/123" has the id "123". |
| ElementalJob.GetIDOfTrailingSlash | elementalconductor/job.go:101-103 | An href ending in '/' has id "". |
| ElementalJob.GetIDWithoutSlash | elementalconductor/job_test.go:336-337 | "job-1234" has the id "" as written, and "job-1234" as intended. |
| TimeLayouts.ConductorRoundTrip | elementalconductor/time.go:8 | Any fields rendered in layout "2006-01-02 15:04:05 -0700" parse back to exactly the time those fields resolve to at that offset. |
| TimeLayouts.JobErrorRoundTrip | elementalconductor/job.go:10 | The same holds for layout "2006-01-02T15:04:05-07:00". |
| TimeLayouts.ExpirationRoundTrip | hybrik/client.go:142 | The same holds for layout "2006-01-02T15:04:05.999Z", at offset 0. |
| TimeLayouts.Resolve | elementalconductor/time.go:40 | The parsed fields give a time exactly when every field is in Go's range. The offset is kept, and the UTC reading's count of seconds is the local count minus the offset. |
| TimeLayouts.ParseConductor | elementalconductor/time.go:40 | `time.Parse` in layout "2006-01-02 15:04:05 -0700". Its own contract only says that a result is a valid time. The value is pinned by `Resolve`, `DateAndClockShape`, `Blank` and `ConductorRoundTrip`. |
| TimeLayouts.ParseJobError | elementalconductor/job.go:62 | `time.Parse` in layout "2006-01-02T15:04:05-07:00". Its own contract only says that a result is a valid time. The value is pinned by `Resolve`, `DateAndClockShape` and `JobErrorRoundTrip`. |
| TimeLayouts.ParseExpiration | hybrik/client.go:142 | `time.Parse` in layout "2006-01-02T15:04:05.999Z". Its own contract says that a result is a valid time at offset 0. The value is pinned by `Resolve`, `Fraction`, `DateAndClockShape` and `ExpirationRoundTrip`. |
| TimeLayouts.Fraction | hybrik/client.go:142 | An optional ".ddd" or ",ddd" after the seconds adds less than one second. Without such a fraction nothing is consumed. |
| TimeLayouts.Blank | elementalconductor/time.go:8 | A layout space accepts the end of the text or a run of spaces and drops the whole run. Any other character is an error. |
| TimeLayouts.DateAndClockShape | elementalconductor/job.go:10 | A text that matches a layout has its dashes and separator at positions 4, 7 and 10, and takes at least 18 characters. |
| Calendar.ToUTC | elementalconductor/time.go:40 | Shifting a valid reading by an offset gives a valid reading. Its count of seconds is the earlier count minus the offset, and its nanoseconds are unchanged. |
| Calendar.AddDays | elementalconductor/time.go:40 | Moving a valid date by k days gives a valid date whose day number is larger by k. |
| Calendar.ToUTCAtZeroOffset | hybrik/client.go:142 | A reading taken at offset 0 is its own UTC reading. |
| GoStrings.Split | elementalconductor/job.go:101 | A split has at least one piece. What the pieces are is stated by `SplitLast`, `SplitPiecesFree`, `SplitSingle` and `JoinSplit`. |
| GoStrings.Join | encodingcom/status.go:61 | The joined text starts with the first piece, and with two pieces or more the separator comes right after it. `JoinSplit`, `SplitJoin` and `TwoMediaIDs` pin the rest. |
| GoStrings.SplitLast | elementalconductor/job.go:101-103 | When the separator occurs, the last piece is what follows an occurrence of the separator that ends where the text ends. With a one-character separator that is the last occurrence; with "//" it need not be, since occurrences can overlap. |
| GoStrings.SplitPiecesFree | elementalconductor/job.go:101 | No piece of a split contains the separator. |
| GoStrings.SplitSingle | hybrik/client.go:90-93 | A split has a single piece exactly when the text does not contain the separator. |
| GoStrings.JoinSplit | encodingcom/status.go:61 | Joining the pieces of a split gives back the text. |
| GoStrings.SplitJoin | encodingcom/status.go:61 | Splitting a join on a one-character separator that occurs in no piece gives back the pieces. |
| HybrikClient.EightDigits | hybrik/client.go:81 | The definition of `^\d{8}$`: exactly eight characters, each an ASCII digit. It has no contract of its own; `DashedDateRejected` checks it on the examples. |
| HybrikClient.CredentialURL | hybrik/client.go:90-96 | The URL up to and including its first "//", then "key:secret@", then the rest of the URL up to its first "//": a prefix of the rest with no "//" starting inside it, which ends right before the next "//", or is the whole rest when there is none. |
| HybrikClient.NewClient | hybrik/client.go:66-104 | Every error comes with the empty client, and a success never does. The first empty required field decides the error, in the order URL, key, secret, auth key, auth secret, date. Next, a date that is not 8 ASCII digits gives `ErrNoComplianceDate`. A URL that fails URI parsing or has no "//" gives `ErrInvalidURL`. On success, the `API` keeps the configuration, with `OAPIURL` set to the credential URL, and has an empty token and expiration. |
| HybrikClient.FirstEmpty | hybrik/client.go:68-80 | There is no error exactly when every field is set, and an error is always that of some empty field. |
| HybrikClient.FirstEmptyRequired | hybrik/client.go:68-80 | The required fields are checked one after the other, in source order. |
| HybrikClient.SplitParts | hybrik/client.go:90-96 | The first piece of the URL is what precedes the first "//". The second piece is what follows it, up to the next "//" or the end. |
| HybrikClient.CredentialURLInsertsCredentials | hybrik/client.go:95-97 | With a single "//", the credential URL is the URL with "key:secret@" written in right after the "//", and nothing else changes. |
| HybrikClient.MissingAuthKeyBeforeDate | hybrik/client.go:75-80 | A missing auth key is reported before a missing compliance date. |
| HybrikClient.FirstGuardWins | hybrik/client.go:69-70 | An empty URL gives `ErrNoAPIURL` and the empty client, whatever else is set. |
| HybrikClient.DashedDateRejected | hybrik/client.go:81-82 | "20190604" is a compliance date; "2019-06-04" and "2019064" are not. |
| HybrikClient.IsExpired | hybrik/client.go:137-148 | An empty or unreadable expiration counts as expired. When the expiration parses, the token has expired exactly when `now` is a later instant. |
| HybrikClient.ExpiredIffPast | hybrik/client.go:142-147 | For an expiration written in the layout, the token counts as expired exactly when `now` is a later instant. |
| HybrikClient.NewClientStartsExpired | hybrik/client.go:99-103 | A fresh API has not logged in yet, so it counts as expired. |
| HybrikClient.DateOnlyExpirationExpired | hybrik/client.go:142-145 | An expiration with no time of day counts as expired. |
| EncodingCom.BoolToBytes | encodingcom/client.go:248-253 | The output is always in double quotes, and holds `t` when the boolean is true and `f` when it is false. |
| EncodingCom.BoolToBytesInjective | encodingcom/client.go:248-253 | With two different texts, equal outputs mean equal booleans, and the converse holds too. |
| EncodingCom.YesNoMarshalJSON | encodingcom/client.go:234-236 | true is written as "yes" in quotes, false as "no" in quotes. |
| EncodingCom.ZeroOneMarshalJSON | encodingcom/client.go:244-246 | true is written as "1" in quotes, false as "0" in quotes. |
| EncodingCom.MarshalJSONInjective | encodingcom/client.go:234-246 | Both encodings are one-to-one. |
| EncodingCom.Do | encodingcom/client.go:51-62 | An envelope that fails to decode gives its decode error. A missing or null "response" gives `NilResponse`. A response with an `errors` block gives an `APIError` with the message and list copied verbatim. Otherwise the result of decoding `out` is returned. |
| EncodingCom.ErrorsShortCircuit | encodingcom/client.go:56-61 | With an `errors` block, the result does not depend on what `out` would decode to. |
| EncodingCom.WrongKeyIsAPIError | encodingcom/client_test.go:180-203 | The wrong-key response gives `APIError("", ["Wrong user id or key!"])`. |
| EncodingDotCom.BoolToByte | encodingdotcom/client.go:216-221 | The output is always in double quotes, and holds `t` when the boolean is true and `f` when it is false. |
| EncodingDotCom.YesNoMarshalJSON | encodingdotcom/client.go:208-210 | true is written as "yes" in quotes, false as "no" in quotes. |
| EncodingDotCom.ZeroOneMarshalJSON | encodingdotcom/client.go:212-214 | true is written as "1" in quotes, false as "0" in quotes. |
| EncodingDotCom.Do | encodingdotcom/client.go:51-62 | The same decision as in `encodingcom`: decode error, `NilResponse`, a verbatim `APIError`, or, with no `errors` block, the decoded `out` or its decode error. |
| EncodingDotCom.BoolEncodersAgree | encodingdotcom/client.go:208-221 | Both packages' boolean encoders write the same bytes. |
| EncodingDotCom.DoAgrees | encodingdotcom/client.go:51-62 | On corresponding responses, the two packages' `do` end the same way. |
| EncodingComStatus.ToFormatStatus | encodingcom/status.go:114-130 | The converted format copies the identity and date fields. It has one destination per `destination` entry, each with the status at the same position, or "" past the end of `destination_status`. |
| EncodingComStatus.ToStruct | encodingcom/status.go:94-134 | The record copies every field of the decoded job, and has one converted format per decoded format, in order. |
| EncodingComStatus.GetStatus | encodingcom/status.go:54-73 | An empty id list is refused with "please provide at least one media id" and nothing is sent. Otherwise the request is `GetStatus` for the ids joined by ",", with `extended` set. The call's error is passed on. On success there is one record per job of `m["response"]["job"]`, in order. |
| EncodingComStatus.PairedNames | encodingcom/status.go:122-125 | There is exactly one destination entry per destination, named after it, in order. |
| EncodingComStatus.PairedDropsExtraStatuses | encodingcom/status.go:124-128 | Statuses past the last destination are dropped. |
| EncodingComStatus.PairedPadsMissingStatuses | encodingcom/status.go:125-129 | Destinations past the last status get the status "". |
| EncodingComStatus.PairedWithoutStatuses | encodingcom/media_status_test.go:243-246 | Without statuses, every destination gets "". |
| EncodingComStatus.PairedWithNullEntries | encodingcom/media_status_test.go:139-146 | `null` entries, read as "", pair up like any other entry. |
| EncodingComStatus.FormatsInOrder | encodingcom/status.go:111-131 | A record has one format per decoded format, in the same order. Each format's fields are copied and its destinations are paired with their statuses. |
| EncodingComStatus.MediaIDsReadBack | encodingcom/status.go:61 | Ids without a "," can be split back out of the joined text. |
| EncodingComStatus.TwoMediaIDs | encodingcom/status_test.go:224 | The ids "abc123" and "abc124" are sent as "abc123,abc124". |
| EncodingComStatus.OneRecordPerJob | encodingcom/status.go:67-71 | The number of records is the number of jobs in the answer. An answer without "response" gives no records. |

## Left out

- I/O is not modelled: HTTP requests and responses, reading bodies, the XML
  and JSON encoders and decoders, `connect` and `CallAPI`, and
  `hybrik/health.go`. Their results enter as parameters.
- `url.ParseRequestURI` is a predicate parameter of `NewClient`; which URLs
  it accepts is not modelled.
- `time.Now` is the `now` parameter of `IsExpired`.
- ElementalTime.DateTime.MarshalXML: gives the time handed to
  `EncodeElement`, not the text the XML encoder writes for it.
- ElementalJob.JobErrorDateTime.MarshalXML: the same as for
  `DateTime.MarshalXML`.
- A `time.Time`'s location is modelled as its offset from UTC only. Go's
  choice between `Local`, `UTC` and a fixed zone of the same offset is not
  modelled.
- Error texts are not modelled: a `*time.ParseError` is its layout and
  value, `APIError.Error()` is left out, and errors from library calls are
  opaque strings.
- TimeLayouts.Fraction: more than nine fraction digits are read like Go and
  truncated to nine. The renderers never write a fraction, so no round trip
  covers fractional expirations.
- Times outside years 0 to 9999, and any two-digit field above 99, are not
  covered by the round-trip lemmas. The renderers cannot write them.
- `MediaDateTime` parsing is left out, including its "0000-00-00 00:00:00"
  sentinel. The status records carry the times it produced as given.
- The JSON decoder's handling of `null` is taken as done: `null` entries of
  a list of strings are read as "", and a `null` list is read as empty. An
  object where the code expects an array is a decode error, so it is a
  `Failure` of `call`.
- `float64` fields (progress) are carried as opaque bits and copied.
- YesNo/ZeroOne unmarshalling is left out; only the encoders are modelled.
- HybrikClient.IsExpired: takes the clock's reading as given, as the `now`
  parameter.
- Plain tag structs, `createAuthKey`, requests other than `GetStatus`, and
  the wrappers that make one call each (`GetJobs`, `GetJob`, `PostJob`,
  presets, media) are left out. They hold no decision logic.
- A missing or `null` "response" key makes Go dereference a nil pointer and
  panic. The model returns `NilResponse` there instead.

## Findings

| source | as written | input that shows it | evidently intended | confidence | as-written member | corrected member |
|---|---|---|---|---|---|---|
| elementalconductor/job.go:99-107 | an href without '/' gives the id "" | href "job-1234" | the whole href is the id, as the test at elementalconductor/job_test.go:336-337 expects | not executed | ElementalJob.GetIDWithoutSlash | ElementalJob.Job.IntendedID |
| elementalconductor/job.go:62-63 | the parsed time keeps the text's zone | "2016-02-01T11:59:20-08:00" | the same instant in UTC, as `DateTime` does and the test at elementalconductor/time_test.go:136-137 expects | not executed | ElementalJob.JobErrorZoneKept | ElementalJob.DecodeJobErrorDateTimeInUTC |
