/** Per-user signup progress (src/state.rs): a user and a state that each
    signup result overwrites. */
module Signup {
  import opened Optional
  import opened Configuration
  import opened Response
  import opened Request

  datatype Reason = Success | Full | Error(error: DynError)

  datatype State = Pending | Done(reason: Reason)

  /** The state `apply_result` stores for a result. It reads nothing but the
      result, and only a missing ride leaves the signup pending. */
  function NextState(result: SignupResponse): (s: State)
    ensures s == Pending <==> result == Err(ErrorResponse(RideNotFound))
    ensures s == Done(Success) <==> result == Ok || result == Err(ErrorResponse(AlreadySignedUp))
    ensures s == Done(Full) <==> result == Err(ErrorResponse(RideFull))
    ensures s.Done? && s.reason.Error? <==>
              result.Err? && (result.error.Unknown? || result.error.response.UnknownError?)
    ensures result.Err? && result.error.Unknown? ==> s == Done(Error(result.error.error))
    ensures result.Err? && result.error.ErrorResponse? && result.error.response.UnknownError? ==>
              s == Done(Error(StringError(result.error.response.message)))
  {
    match result
    case Ok => Done(Success)
    case Err(error) =>
      match error
      case ErrorResponse(response) =>
        (match response
         case RideFull => Done(Full)
         case AlreadySignedUp => Done(Success)
         case RideNotFound => Pending
         case UnknownError(e) => Done(Error(StringError(e))))
      case Unknown(e) => Done(Error(e))
  }

  class SignupState {
    var user: User
    var state: State

    constructor (user: User)
      ensures this.user == user && state == Pending
    {
      this.user := user;
      state := Pending;
    }

    /** Overwrites the state from the result alone; a finished signup is not
        protected from being reset. */
    method ApplyResult(result: SignupResponse)
      modifies this
      ensures state == NextState(result)
      ensures user == old(user)
    {
      match result
      case Ok =>
        state := Done(Success);
      case Err(error) =>
        match error {
          case ErrorResponse(response) =>
            match response {
              case RideFull => state := Done(Full);
              case AlreadySignedUp => state := Done(Success);
              case RideNotFound => state := Pending;
              case UnknownError(e) => state := Done(Error(StringError(e)));
            }
          case Unknown(e) =>
            state := Done(Error(e));
        }
    }
  }

  /** The state a reply from the service leads to: it stays pending exactly
      when the service delivered the text for a missing ride. */
  lemma PendingOnlyForMissingRide(raw: RawOutcome)
    ensures NextState(SignupResult(raw)) == Pending <==>
              Delivered(raw) && raw.body.parsed.value.error == Some(RideNotFoundMessage)
  {
  }

  /** Transport failures, rejected statuses and unreadable or unparseable
      bodies end the signup with an error that keeps the failure's detail. */
  lemma TransportFailuresAreErrors(raw: RawOutcome)
    requires !Delivered(raw)
    ensures NextState(SignupResult(raw)).Done? && NextState(SignupResult(raw)).reason.Error?
    ensures raw.Received? && IsErrorStatus(raw.status) ==>
              NextState(SignupResult(raw)) == Done(Error(StatusError(raw.status)))
    ensures raw.Received? && !IsErrorStatus(raw.status) && raw.body.Unreadable? ==>
              NextState(SignupResult(raw)) == Done(Error(RequestError(raw.body.detail)))
    ensures raw.SendFailed? ==> NextState(SignupResult(raw)) == Done(Error(RequestError(raw.detail)))
    ensures raw.Received? && !IsErrorStatus(raw.status) && raw.body.Text? ==>
              NextState(SignupResult(raw)) == Done(Error(UnknownResponseError(raw.body.text)))
  {
  }

  /** Replies without an error text end the signup successfully, whatever
      success data they carry. */
  lemma NoErrorTextIsSuccess(status: int, text: string, data: Option<SuccessData>)
    requires !IsErrorStatus(status)
    ensures NextState(SignupResult(Received(status, Text(text, Some(GrouprideResponse(None, data)))))) == Done(Success)
  {
  }

  /** A missing ride followed by a successful reply: the second poll finishes
      the signup. Also shows that a finished state is overwritten by a later
      missing-ride reply. */
  method PollScenario(user: User) returns (first: State, second: State, reopened: State)
    ensures first == Pending && second == Done(Success) && reopened == Pending
  {
    var signup := new SignupState(user);
    signup.ApplyResult(SignupResult(Received(200, Text("", Some(GrouprideResponse(Some(RideNotFoundMessage), None))))));
    first := signup.state;
    signup.ApplyResult(SignupResult(Received(200, Text("", Some(GrouprideResponse(None, None))))));
    second := signup.state;
    signup.ApplyResult(SignupResult(Received(200, Text("", Some(GrouprideResponse(Some(RideNotFoundMessage), None))))));
    reopened := signup.state;
  }
}
