# sattelclub signup core in Dafny

sattelclub signs one or more riders up for a weekly group ride on a remote
booking service. This project models the part of it that decides what a
signup attempt amounts to:

- **Response classification** (`Response`, `Request`). The service's error text
  is mapped to a closed set of kinds by exact, case-sensitive comparison. The
  outcome of the HTTP POST becomes `Ok` or a `SignupError`. That outcome is a
  send failure, a rejected status, an unreadable or unparseable body, or a
  parsed body with an optional error text.
- **Per-user signup state** (`Signup`). A `SignupState` object holds a user
  and a `Pending | Done(reason)` state. `ApplyResult` overwrites the state from
  a signup result.
- **Request construction** (`Request`, `Calendar`, `DateFormat`). The search
  for the next date on the ride weekday is a loop, and it gets today's date as
  a parameter. There is one request per configured user. Each request has a
  slug `<ride id>-<YYYY-MM-DD>` and posts a five-field form.

Modules:

- `Optional`: Rust's `Option`.
- `Calendar`: dates in years 0..9999 (`Date`, `Valid`, `Succ`, `WeekdayOf`).
  A day number counted from 0000-01-01 ties the day after a date to the next
  weekday.
- `DateFormat`: chrono's `%Y-%m-%d` rendering, zero-padded to 4, 2 and 2
  digits. `ParseDate` is its inverse and serves as the reference definition.
- `Configuration`: the `User` and `Config` records.
- `Response`: src/request/groupride_response.rs.
- `Request`: src/request.rs.
- `Signup`: src/state.rs.

In two places the code does less than a reader of its design might expect, and the model follows the code:

- `apply_result` assigns the new state without looking at the old one
  (src/state.rs:29). So a `Done` state is not absorbing: a later
  "Groupride doesn't exist!" reply puts it back to `Pending`.
  `Signup.PollScenario` shows this.
- `error_for_status` rejects only 4xx and 5xx statuses (src/request.rs:72-74).
  Other non-2xx statuses reach the body parser.

As written, src/main.rs declares only `mod config`, so request.rs and state.rs
are not part of the crate. Also, `User` does not derive `Clone`, which
`from_config` calls. The model treats both files as if they compiled, and it
reads `user.clone()` as a copy of the user.

## Model

| member | source | states |
|---|---|---|
| `Response.FromMessage` | src/request/groupride_response.rs:28-37 | each of the three known texts gives its own kind, and only that text does; every other text (case or whitespace variants included) gives `UnknownError` holding the text verbatim |
| `Response.FromMessageLossless` | src/request/groupride_response.rs:29-36 | the input text can always be recovered from the kind, so no text is lost or altered |
| `Response.FromMessageOfServiceMessage` | src/request/groupride_response.rs:29-36 | each kind comes from exactly one text, so the classifier is injective and deterministic |
| `Response.VariantsAreUnknown` | src/request/groupride_response.rs:29-35 | matching is exact: a lower-case variant, a trailing space, a missing "!" and the empty text are all unknown errors |
| `Request.SignupResult` | src/request.rs:67-88 | `Ok` exactly when a parsed body has no error text. A parsed body with error text `m` gives `ErrorResponse(FromMessage(m))`. A send failure, a 4xx/5xx status or an unreadable body gives `Unknown` with the transport detail. An unparseable body gives `Unknown(UnknownResponseError(text))` with the raw text |
| `Request.ErrorResponseFromMessage` | src/request.rs:21-23 | the service's error text becomes `ErrorResponse(FromMessage(text))`, from which the text can be recovered; `SignupResult` uses it for a body with error text |
| `Request.SuccessDataIgnored` | src/request.rs:84-88 | the success payload never changes the result |
| `Request.NextRideDate` | src/request.rs:41-50 | the result is a valid date on the ride weekday, and it lies `DaysUntil(weekday(today), w)` days (0..6) after today |
| `Request.NextRideDateIsEarliest` | src/request.rs:45-47 | no date from today up to the result falls on the ride weekday |
| `Request.GetNextRideDate` | src/request.rs:41-50 | the loop that steps forward one day at a time stops at the next ride date: on the ride weekday, 0..6 days after today |
| `Request.RequestsFor` | src/request.rs:55-64 | one request per user, in the users' order, each with the given url, ride id and date |
| `Request.FromConfig` | src/request.rs:54-65 | one request per configured user in the same order, enabled or not. Each carries `base_url`, `ride_id` and the next ride date, which falls on the ride weekday |
| `Request.Slug` | src/request.rs:101-105 | the slug is the ride id, a "-" and ten date characters, and those characters parse back to the request's date |
| `Request.SlugInjective` | src/request.rs:101-105 | two requests with the same slug have the same ride id and date |
| `Request.SlugExample` | src/request.rs:101-105 | ride id "abc123" and 2024-03-15 give "abc123-2024-03-15" |
| `Request.FormData` | src/request.rs:91-99 | the form has exactly the five keys `firstName`, `lastName`, `email`, `slug`, `termsCheckbox`. Their values are the user's first name, surname and email, the slug and "on". The slug's date part parses back to the ride date |
| `DateFormat.FormatDateRoundTrip` | src/request.rs:103 | `%Y-%m-%d` renders a date as ten characters with zero-padded fields, and parsing gives the date back |
| `DateFormat.ParseDateCanonical` | src/request.rs:103 | the only string that parses to a date is that date's rendering |
| `DateFormat.FormatDateExamples` | src/request.rs:103 | 2024-03-15 renders as "2024-03-15" and 0007-12-01 as "0007-12-01" |
| `Calendar.Succ` | src/request.rs:46 | the day after a date is a valid date whose day number is one higher |
| `Calendar.WeekdayOfSucc` | src/request.rs:45-46 | the day after a date falls on the next weekday |
| `Calendar.KnownWeekdays` | src/request.rs:45 | the weekday function agrees with known dates (1970-01-01 Thursday, 2000-02-29 Tuesday, 2024-03-15 Friday) |
| `Signup.NextState` | src/state.rs:29-44 | the new state depends on the result alone. It is `Pending` exactly for `RideNotFound`; `Done(Success)` exactly for `Ok` or `AlreadySignedUp`; `Done(Full)` exactly for `RideFull`. Otherwise it is `Done(Error(_))`, keeping the unknown text or the transport error |
| `Signup.SignupState.constructor` | src/state.rs:21-26 | a new signup state holds the given user and is `Pending` |
| `Signup.SignupState.ApplyResult` | src/state.rs:28-45 | the state becomes `NextState(result)` whatever it was before, and the user is unchanged |
| `Signup.PendingOnlyForMissingRide` | src/state.rs:29-44 | a reply leaves the signup pending exactly when the service delivered "Groupride doesn't exist!" |
| `Signup.TransportFailuresAreErrors` | src/request.rs:71-82 | every outcome that does not deliver a parsed body ends in `Done(Error(_))`. A send failure and an unreadable body keep their detail, a 4xx/5xx status keeps its code, and an unparseable body keeps its raw text |
| `Signup.NoErrorTextIsSuccess` | src/request.rs:84-88 | a parsed body without error text ends in `Done(Success)`, whatever success data it has |
| `Signup.PollScenario` | src/state.rs:28-45 | a missing-ride reply keeps the user pending, and a later clean reply finishes with success. A further missing-ride reply resets the finished state to `Pending` |

## Left out

- The HTTP POST (`reqwest::Client`, form encoding, async/await) in `make_request` is network I/O. Its outcome is the `RawOutcome` input.
- JSON deserialisation (serde) is a foreign parser. `Body.Text` carries the raw text together with the parse result, and `None` stands for a body that is not a service response.
- `Box<dyn Error>`, the `Display` derives and the `StringError` / `UnknownResponseError` wrappers are modelled as the `DynError` datatype with string details. A reqwest error is represented by a detail string, and a status error by its code alone.
- The clock read `chrono::Local::now()` becomes the `today` parameter. `from_config` reads the clock again for every user. With one `today`, the model gives every request the same date, and it does not capture a date change while the list is built.
- Calendar: dates are limited to years 0..9999, where `%Y` prints four digits. chrono's other years and its internal representation are not modelled.
- Request.NextRideDate: requires the next ride date to be no later than 9999-12-31, because later dates are outside the modelled calendar. chrono would continue until its own maximum date, where `succ_opt().expect` panics.
- Request.GetNextRideDate: same range requirement as `NextRideDate`.
- Request.FromConfig: same range requirement as `NextRideDate`.
- Configuration loading (src/config.rs), config-path discovery (src/config/path.rs) and src/main.rs are file-system I/O and process exit. `main` does nothing after loading the configuration.
- The scheduling settings `checking_interval`, `signup_weekday` and `check_from` are not read by the modelled code, and no polling loop exists in it, so `Config` omits them.
