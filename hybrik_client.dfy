/**
 * The Hybrik API client's configuration check: `NewClient` runs the guards
 * on a `Config` in a fixed order, builds the URL with the OAPI credentials
 * written into it, and hands out an `API` whose login token has not been
 * fetched yet; `isExpired` says whether that token has to be fetched again.
 */
module HybrikClient {
  import opened Wrappers
  import opened Calendar
  import opened TimeLayouts
  import opened GoStrings

  /** The configuration that the calls to Hybrik need. */
  datatype Config = Config(
    url: string,
    complianceDate: string,
    oapiKey: string,
    oapiSecret: string,
    authKey: string,
    authSecret: string,
    oapiURL: string)

  /** The API implementation: the configuration and the login token with its expiration time. */
  datatype API = API(config: Config, token: string, expiration: string)

  /** A `Client`; `api` is `None` for the empty `Client{}` handed out with an error. */
  datatype Client = Client(api: Option<API>)

  const EmptyClient := Client(None)

  /** The errors `NewClient` reports. */
  datatype ConfigError =
    | NoAPIURL
    | NoOAPIKey
    | NoOAPISecret
    | NoAuthKey
    | NoAuthSecret
    | NoComplianceDate
    | InvalidURL

  /** What `NewClient` returns: the client and the error, as Go returns both. */
  datatype Created = Created(client: Client, err: Option<ConfigError>)

  /** The separator between a URL's scheme and its authority. */
  const SchemeSep := "//"

  /** The required fields, each with the error for its absence, in the order they are checked. */
  function Required(config: Config): seq<(string, ConfigError)>
  {
    [ (config.url, NoAPIURL),
      (config.oapiKey, NoOAPIKey),
      (config.oapiSecret, NoOAPISecret),
      (config.authKey, NoAuthKey),
      (config.authSecret, NoAuthSecret),
      (config.complianceDate, NoComplianceDate) ]
  }

  /** The error of the first empty field in `fields`, if any is empty. */
  function FirstEmpty(fields: seq<(string, ConfigError)>): (r: Option<ConfigError>)
    ensures r.None? <==> forall k :: 0 <= k < |fields| ==> fields[k].0 != ""
    ensures r.Some? ==> exists k :: 0 <= k < |fields| && fields[k].0 == "" && r.value == fields[k].1
  {
    if |fields| == 0 then None
    else if fields[0].0 == "" then Some(fields[0].1)
    else
      var r := FirstEmpty(fields[1..]);
      assert forall k :: 1 <= k < |fields| ==> fields[k] == fields[1..][k - 1];
      r
  }

  lemma FirstEmptyCons(head: (string, ConfigError), tail: seq<(string, ConfigError)>)
    ensures FirstEmpty([head] + tail) == if head.0 == "" then Some(head.1) else FirstEmpty(tail)
  {
    assert ([head] + tail)[1..] == tail;
  }

  /** The required fields are checked one after the other, in their order. */
  lemma FirstEmptyRequired(config: Config)
    ensures FirstEmpty(Required(config)) ==
      if config.url == "" then Some(NoAPIURL)
      else if config.oapiKey == "" then Some(NoOAPIKey)
      else if config.oapiSecret == "" then Some(NoOAPISecret)
      else if config.authKey == "" then Some(NoAuthKey)
      else if config.authSecret == "" then Some(NoAuthSecret)
      else if config.complianceDate == "" then Some(NoComplianceDate)
      else None
  {
    var t5 := [(config.complianceDate, NoComplianceDate)];
    var t4 := [(config.authSecret, NoAuthSecret)] + t5;
    var t3 := [(config.authKey, NoAuthKey)] + t4;
    var t2 := [(config.oapiSecret, NoOAPISecret)] + t3;
    var t1 := [(config.oapiKey, NoOAPIKey)] + t2;
    assert Required(config) == [(config.url, NoAPIURL)] + t1;
    FirstEmptyCons((config.url, NoAPIURL), t1);
    FirstEmptyCons((config.oapiKey, NoOAPIKey), t2);
    FirstEmptyCons((config.oapiSecret, NoOAPISecret), t3);
    FirstEmptyCons((config.authKey, NoAuthKey), t4);
    FirstEmptyCons((config.authSecret, NoAuthSecret), t5);
    FirstEmptyCons((config.complianceDate, NoComplianceDate), []);
    assert t5 == [(config.complianceDate, NoComplianceDate)] + [];
  }

  /** The compliance date matches `^\d{8}$`: exactly eight ASCII digits. */
  predicate EightDigits(s: string)
  {
    |s| == 8 && forall i :: 0 <= i < |s| ==> IsDigit(s[i])
  }

  /**
   * The URL with the OAPI credentials written in after the scheme: what comes
   * before the first "//", then "//key:secret@", then what comes after it up
   * to the next "//" or the end.
   */
  function CredentialURL(config: Config): (u: string)
    requires Contains(config.url, SchemeSep)
    ensures Index(config.url, SchemeSep).Some?
    ensures var i := Index(config.url, SchemeSep).value;
      var head := config.url[..i + |SchemeSep|] + config.oapiKey + ":" + config.oapiSecret + "@";
      var tail := config.url[i + |SchemeSep|..];
      && head <= u
      && var rest := u[|head|..];
      && rest <= tail
      && (forall j :: 0 <= j < |rest| ==> !OccursAt(tail, SchemeSep, j))
      && (Contains(tail, SchemeSep) ==> OccursAt(tail, SchemeSep, |rest|))
      && (!Contains(tail, SchemeSep) ==> rest == tail)
  {
    IndexSound(config.url, SchemeSep);
    var i := Index(config.url, SchemeSep).value;
    var head := config.url[..i] + SchemeSep + config.oapiKey + ":" + config.oapiSecret + "@";
    var rest := Before(config.url[i + |SchemeSep|..], SchemeSep);
    assert config.url[..i] + SchemeSep == config.url[..i + |SchemeSep|];
    assert (head + rest)[|head|..] == rest;
    head + rest
  }

  /** All of `NewClient`'s checks pass. */
  predicate Accepted(config: Config, parseRequestURI: string -> bool)
  {
    && FirstEmpty(Required(config)).None?
    && EightDigits(config.complianceDate)
    && parseRequestURI(config.url)
    && Contains(config.url, SchemeSep)
  }

  /**
   * `NewClient`. `parseRequestURI` stands for Go's `url.ParseRequestURI`: it
   * says whether the URL parses as a request URI.
   */
  function NewClient(config: Config, parseRequestURI: string -> bool): (r: Created)
    ensures r.err.Some? <==> r.client == EmptyClient
    ensures FirstEmpty(Required(config)).Some? ==> r.err == FirstEmpty(Required(config))
    ensures FirstEmpty(Required(config)).None? && !EightDigits(config.complianceDate) ==>
      r.err == Some(NoComplianceDate)
    ensures (FirstEmpty(Required(config)).None? && EightDigits(config.complianceDate)
             && !(parseRequestURI(config.url) && Contains(config.url, SchemeSep))) ==> r.err == Some(InvalidURL)
    ensures r.err.None? <==> Accepted(config, parseRequestURI)
    ensures r.err.None? ==> r.client.api == Some(API(config.(oapiURL := CredentialURL(config)), "", ""))
  {
    FirstEmptyRequired(config);
    if config.url == "" then Created(EmptyClient, Some(NoAPIURL))
    else if config.oapiKey == "" then Created(EmptyClient, Some(NoOAPIKey))
    else if config.oapiSecret == "" then Created(EmptyClient, Some(NoOAPISecret))
    else if config.authKey == "" then Created(EmptyClient, Some(NoAuthKey))
    else if config.authSecret == "" then Created(EmptyClient, Some(NoAuthSecret))
    else if config.complianceDate == "" then Created(EmptyClient, Some(NoComplianceDate))
    else if !EightDigits(config.complianceDate) then Created(EmptyClient, Some(NoComplianceDate))
    else if !parseRequestURI(config.url) then Created(EmptyClient, Some(InvalidURL))
    else
      var parts := Split(config.url, SchemeSep);
      SplitSingle(config.url, SchemeSep);
      if |parts| < 2 then Created(EmptyClient, Some(InvalidURL))
      else
        SplitParts(config.url);
        var oapiURL := parts[0] + SchemeSep + config.oapiKey + ":" + config.oapiSecret + "@" + parts[1];
        Created(Client(Some(API(config.(oapiURL := oapiURL), "", ""))), None)
  }

  /** The first two pieces of a URL split on "//" are the scheme part and the authority part. */
  lemma SplitParts(url: string)
    requires Contains(url, SchemeSep)
    ensures Index(url, SchemeSep).Some?
    ensures var i := Index(url, SchemeSep).value;
      && |Split(url, SchemeSep)| >= 2
      && Split(url, SchemeSep)[0] == url[..i]
      && Split(url, SchemeSep)[1] == Before(url[i + |SchemeSep|..], SchemeSep)
  {
    IndexSound(url, SchemeSep);
    var i := Index(url, SchemeSep).value;
    SplitFirst(url, SchemeSep);
    SplitSecond(url, SchemeSep, i);
    assert Before(url, SchemeSep) == url[..i];
  }

  /**
   * With a single "//" in the URL, the URL with the credentials is the same
   * URL with "key:secret@" written in right after the "//", and nothing else
   * changed.
   */
  lemma CredentialURLInsertsCredentials(config: Config)
    requires Contains(config.url, SchemeSep)
    ensures Index(config.url, SchemeSep).Some?
    ensures var i := Index(config.url, SchemeSep).value;
      var head := config.url[..i + |SchemeSep|];
      var tail := config.url[i + |SchemeSep|..];
      !Contains(tail, SchemeSep) ==>
        && config.url == head + tail
        && CredentialURL(config) == head + config.oapiKey + ":" + config.oapiSecret + "@" + tail
  {
    IndexSound(config.url, SchemeSep);
    var i := Index(config.url, SchemeSep).value;
    var head := config.url[..i + |SchemeSep|];
    assert head == config.url[..i] + SchemeSep;
  }

  /** Any check that fails decides the error, and each error comes with the empty client. */
  lemma FirstGuardWins(config: Config, parseRequestURI: string -> bool)
    requires config.url == ""
    ensures NewClient(config, parseRequestURI) == Created(EmptyClient, Some(NoAPIURL))
  {
  }

  /** With the URL, key and secret set, a missing authentication key is reported before a missing date. */
  lemma MissingAuthKeyBeforeDate(config: Config, parseRequestURI: string -> bool)
    requires config.url != "" && config.oapiKey != "" && config.oapiSecret != ""
    requires config.authKey == "" && config.complianceDate == ""
    ensures NewClient(config, parseRequestURI).err == Some(NoAuthKey)
  {
  }

  /** A date written with dashes is not a compliance date. */
  lemma DashedDateRejected()
    ensures !EightDigits("2019-06-04") && !EightDigits("2019064") && EightDigits("20190604")
  {
  }

  /**
   * `isExpired`: whether the login token has to be fetched again at the time
   * `now` (Go's `time.Now()`). An empty or unreadable expiration counts as
   * expired.
   */
  function IsExpired(api: API, now: Time): (expired: bool)
    requires ValidTime(now)
    ensures api.expiration == "" ==> expired
    ensures ParseExpiration(api.expiration).None? ==> expired
    ensures !expired ==> (api.expiration != "" && ParseExpiration(api.expiration).Some?
                          && Nanos(now.utc) <= Nanos(ParseExpiration(api.expiration).value.utc))
    ensures api.expiration != "" && ParseExpiration(api.expiration).Some? ==>
      (expired <==> Nanos(now.utc) > Nanos(ParseExpiration(api.expiration).value.utc))
  {
    if api.expiration == "" then true
    else match ParseExpiration(api.expiration)
      case None => true
      case Some(t) => After(now, t)
  }

  /**
   * For an expiration written in the layout "2006-01-02T15:04:05.999Z", the
   * token has expired exactly when `now` is a later instant than that UTC
   * reading.
   */
  lemma ExpiredIffPast(api: API, c: Civil, now: Time)
    requires Showable(c) && ValidTime(now)
    requires api.expiration == ShowExpiration(ShownFields(c))
    ensures IsExpired(api, now) <==> Nanos(now.utc) > Nanos(c)
  {
    ExpirationReadingRoundTrip(c);
  }

  /** An API fresh from `NewClient` has no expiration, so its first call logs in. */
  lemma NewClientStartsExpired(config: Config, parseRequestURI: string -> bool, now: Time)
    requires ValidTime(now) && Accepted(config, parseRequestURI)
    ensures IsExpired(NewClient(config, parseRequestURI).client.api.value, now)
  {
  }

  /** A date without a time of day is not an expiration time. */
  lemma DateOnlyExpirationExpired(api: API, now: Time)
    requires ValidTime(now) && api.expiration == "2019-06-04"
    ensures IsExpired(api, now)
  {
    DateAndClockShape(api.expiration, 'T');
  }
}
