/** Building signup requests and turning the service's reply into a signup
    result (src/request.rs). The HTTP transport and the JSON parser are outside
    the model: their outcome arrives as a `RawOutcome`. */
module Request {
  import opened Optional
  import opened Calendar
  import opened DateFormat
  import opened Configuration
  import opened Response

  /** The `Box<dyn Error>` payloads the signup path can carry. */
  datatype DynError =
    | RequestError(detail: string)        // reqwest error while sending or reading the body
    | StatusError(status: int)            // reqwest error from `error_for_status`
    | UnknownResponseError(text: string)  // a body that is not a service response
    | StringError(message: string)        // an unrecognised service error text

  datatype SignupError =
    | ErrorResponse(response: GrouprideErrorResponse)
    | Unknown(error: DynError)

  /** `Result<(), SignupError>`. */
  datatype SignupResponse = Ok | Err(error: SignupError)

  /** The service's error text as a signup error; the text stays recoverable. */
  function ErrorResponseFromMessage(message: string): (e: SignupError)
    ensures e.ErrorResponse? && e.response == FromMessage(message)
    ensures ServiceMessage(e.response) == message
  {
    ErrorResponse(FromMessage(message))
  }

  /** What reading the response body gave: a transport error, or the text and,
      when the text is JSON of the service's shape, its parsed form. */
  datatype Body = Unreadable(detail: string) | Text(text: string, parsed: Option<GrouprideResponse>)

  /** What the POST gave: a send failure, or a status code and a body. */
  datatype RawOutcome = SendFailed(detail: string) | Received(status: int, body: Body)

  /** `error_for_status` rejects client and server errors only. */
  predicate IsErrorStatus(status: int) {
    400 <= status <= 599
  }

  /** The reply reached the parser and parsed as a service response. */
  predicate Delivered(raw: RawOutcome) {
    raw.Received? && !IsErrorStatus(raw.status) && raw.body.Text? && raw.body.parsed.Some?
  }

  /** The result `make_request` builds from the outcome of the POST. */
  function SignupResult(raw: RawOutcome): (r: SignupResponse)
    ensures r == Ok <==> Delivered(raw) && raw.body.parsed.value.error.None?
    ensures r.Err? && r.error.ErrorResponse? <==> Delivered(raw) && raw.body.parsed.value.error.Some?
    ensures Delivered(raw) && raw.body.parsed.value.error.Some? ==>
              r.error.response == FromMessage(raw.body.parsed.value.error.value)
    ensures raw.SendFailed? ==> r == Err(Unknown(RequestError(raw.detail)))
    ensures raw.Received? && IsErrorStatus(raw.status) ==> r == Err(Unknown(StatusError(raw.status)))
    ensures raw.Received? && !IsErrorStatus(raw.status) && raw.body.Unreadable? ==>
              r == Err(Unknown(RequestError(raw.body.detail)))
    ensures raw.Received? && !IsErrorStatus(raw.status) && raw.body.Text? && raw.body.parsed.None? ==>
              r == Err(Unknown(UnknownResponseError(raw.body.text)))
  {
    match raw
    case SendFailed(e) => Err(Unknown(RequestError(e)))
    case Received(status, body) =>
      if IsErrorStatus(status) then Err(Unknown(StatusError(status)))
      else
        match body
        case Unreadable(e) => Err(Unknown(RequestError(e)))
        case Text(text, parsed) =>
          match parsed
          case None => Err(Unknown(UnknownResponseError(text)))
          case Some(response) =>
            if response.error.Some? then Err(ErrorResponseFromMessage(response.error.value)) else Ok
  }

  /** The success payload never influences the result. */
  lemma SuccessDataIgnored(status: int, text: string, error: Option<string>, a: Option<SuccessData>, b: Option<SuccessData>)
    ensures SignupResult(Received(status, Text(text, Some(GrouprideResponse(error, a)))))
         == SignupResult(Received(status, Text(text, Some(GrouprideResponse(error, b)))))
  {
  }

  /** The next ride date cannot run past the last modelled date. */
  predicate RideDateInRange(today: Date, w: Weekday)
    requires Valid(today)
  {
    DayNumber(today) + DaysUntil(WeekdayOf(today), w) <= DayNumber(LastDate)
  }

  lemma DaysUntilStep(from: Weekday, next: Weekday, to: Weekday)
    requires from != to
    requires WeekdayIndex(next) == (WeekdayIndex(from) + 1) % 7
    ensures DaysUntil(next, to) == DaysUntil(from, to) - 1
  {
    DaysUntilForward(from, to);
    DaysUntilForward(next, to);
  }

  /** The first date on or after `today` that falls on weekday `w`. */
  function NextRideDate(today: Date, w: Weekday): (r: Date)
    requires Valid(today) && RideDateInRange(today, w)
    ensures Valid(r) && WeekdayOf(r) == w
    ensures DayNumber(r) == DayNumber(today) + DaysUntil(WeekdayOf(today), w)
    decreases DaysUntil(WeekdayOf(today), w)
  {
    if WeekdayOf(today) == w then today
    else
      BeforeLastDate(today);
      WeekdayOfSucc(today);
      DaysUntilStep(WeekdayOf(today), WeekdayOf(Succ(today)), w);
      NextRideDate(Succ(today), w)
  }

  /** No date between `today` and the next ride date falls on the ride weekday. */
  lemma {:induction false} NextRideDateIsEarliest(today: Date, w: Weekday, d: Date)
    requires Valid(today) && RideDateInRange(today, w) && Valid(d)
    requires DayNumber(today) <= DayNumber(d) < DayNumber(NextRideDate(today, w))
    ensures WeekdayOf(d) != w
    decreases DaysUntil(WeekdayOf(today), w)
  {
    var k := DaysUntil(WeekdayOf(today), w);
    assert DayNumber(NextRideDate(today, w)) == DayNumber(today) + k;
    assert k != 0;
    assert WeekdayOf(today) != w;
    if DayNumber(d) == DayNumber(today) {
      SameDayNumberSameWeekday(d, today);
    } else {
      BeforeLastDate(today);
      var next := Succ(today);
      WeekdayOfSucc(today);
      DaysUntilStep(WeekdayOf(today), WeekdayOf(next), w);
      assert NextRideDate(today, w) == NextRideDate(next, w);
      NextRideDateIsEarliest(next, w, d);
    }
  }

  /** `Config::get_next_ride_date` with the clock reading passed in as `today`. */
  method GetNextRideDate(config: Config, today: Date) returns (next: Date)
    requires Valid(today) && RideDateInRange(today, config.rideWeekday)
    ensures next == NextRideDate(today, config.rideWeekday)
    ensures WeekdayOf(next) == config.rideWeekday
    ensures DayNumber(today) <= DayNumber(next) <= DayNumber(today) + 6
  {
    next := today;
    while WeekdayOf(next) != config.rideWeekday
      invariant Valid(next) && RideDateInRange(next, config.rideWeekday)
      invariant NextRideDate(next, config.rideWeekday) == NextRideDate(today, config.rideWeekday)
      decreases DaysUntil(WeekdayOf(next), config.rideWeekday)
    {
      BeforeLastDate(next);
      WeekdayOfSucc(next);
      DaysUntilStep(WeekdayOf(next), WeekdayOf(Succ(next)), config.rideWeekday);
      next := Succ(next);
    }
  }

  datatype SignupRequest = SignupRequest(url: string, rideId: string, date: Date, user: User)

  /** One request per user, in the users' order. */
  function RequestsFor(users: seq<User>, url: string, rideId: string, date: Date): (requests: seq<SignupRequest>)
    ensures |requests| == |users|
    ensures forall i :: 0 <= i < |users| ==> requests[i] == SignupRequest(url, rideId, date, users[i])
  {
    if users == [] then []
    else [SignupRequest(url, rideId, date, users[0])] + RequestsFor(users[1..], url, rideId, date)
  }

  /** `SignupRequest::from_config`, with the clock reading passed in as `today`. */
  function FromConfig(config: Config, today: Date): (requests: seq<SignupRequest>)
    requires Valid(today) && RideDateInRange(today, config.rideWeekday)
    ensures |requests| == |config.users|
    ensures forall i :: 0 <= i < |requests| ==>
              && requests[i].user == config.users[i]
              && requests[i].url == config.baseUrl
              && requests[i].rideId == config.rideId
              && requests[i].date == NextRideDate(today, config.rideWeekday)
    ensures forall r :: r in requests ==> Valid(r.date) && WeekdayOf(r.date) == config.rideWeekday
  {
    RequestsFor(config.users, config.baseUrl, config.rideId, NextRideDate(today, config.rideWeekday))
  }

  /** `<ride id>-<YYYY-MM-DD>`: the service's name for one ride. The ride id
      and the date can be read back from it. */
  function Slug(request: SignupRequest): (s: string)
    requires Valid(request.date)
    ensures |s| == |request.rideId| + 11
    ensures s[..|request.rideId|] == request.rideId
    ensures s[|request.rideId|] == '-'
    ensures ParseDate(s[|s| - 10..]) == Some(request.date)
  {
    FormatDateRoundTrip(request.date);
    var s := request.rideId + "-" + FormatDate(request.date);
    assert s[|s| - 10..] == FormatDate(request.date);
    s
  }

  /** Distinct rides (id or date) get distinct slugs. */
  lemma SlugInjective(a: SignupRequest, b: SignupRequest)
    requires Valid(a.date) && Valid(b.date)
    requires Slug(a) == Slug(b)
    ensures a.rideId == b.rideId && a.date == b.date
  {
  }

  lemma SlugExample(url: string, user: User)
    ensures Slug(SignupRequest(url, "abc123", Date(2024, 3, 15), user)) == "abc123-2024-03-15"
  {
    var request := SignupRequest(url, "abc123", Date(2024, 3, 15), user);
    FormatDateExamples();
    assert Slug(request) == "abc123" + "-" + FormatDate(Date(2024, 3, 15));
    SlugExampleText();
  }

  lemma SlugExampleText()
    ensures "abc123" + "-" + "2024-03-15" == "abc123-2024-03-15"
  {
  }

  const FormKeys: set<string> := {"firstName", "lastName", "email", "slug", "termsCheckbox"}

  /** The form fields posted for one request. */
  method FormData(request: SignupRequest) returns (form: map<string, string>)
    requires Valid(request.date)
    ensures form.Keys == FormKeys && |form| == 5
    ensures form["firstName"] == request.user.firstName
    ensures form["lastName"] == request.user.surname
    ensures form["email"] == request.user.email
    ensures form["slug"] == Slug(request)
    ensures form["termsCheckbox"] == "on"
    ensures var slug := form["slug"]; |slug| >= 10 && ParseDate(slug[|slug| - 10..]) == Some(request.date)
  {
    form := map[];
    form := form["firstName" := request.user.firstName];
    form := form["lastName" := request.user.surname];
    form := form["email" := request.user.email];
    form := form["slug" := Slug(request)];
    form := form["termsCheckbox" := "on"];
  }
}
