/** The remote service's answer to a signup and the classification of its
    error text (src/request/groupride_response.rs). */
module Response {
  import opened Optional

  /** Body of a successful signup; the core never inspects it. */
  datatype SuccessData = SuccessData(slug: string, email: string, isWaitlist: bool)

  /** The JSON body the service returns. */
  datatype GrouprideResponse = GrouprideResponse(error: Option<string>, successData: Option<SuccessData>)

  datatype GrouprideErrorResponse =
    | AlreadySignedUp
    | RideNotFound
    | RideFull
    | UnknownError(message: string)

  const AlreadySignedUpMessage: string := "It looks like you are already signed up with your email address"
  const RideNotFoundMessage: string := "Groupride doesn't exist!"
  const RideFullMessage: string := "Groupride is full!"

  predicate IsKnownMessage(m: string) {
    m == AlreadySignedUpMessage || m == RideNotFoundMessage || m == RideFullMessage
  }

  /** Exact, case-sensitive lookup of the service's error text; any other text
      is kept verbatim as an unknown error. */
  function FromMessage(message: string): (r: GrouprideErrorResponse)
    ensures r == AlreadySignedUp <==> message == AlreadySignedUpMessage
    ensures r == RideNotFound <==> message == RideNotFoundMessage
    ensures r == RideFull <==> message == RideFullMessage
    ensures r.UnknownError? <==> !IsKnownMessage(message)
    ensures r.UnknownError? ==> r.message == message
  {
    if message == AlreadySignedUpMessage then AlreadySignedUp
    else if message == RideNotFoundMessage then RideNotFound
    else if message == RideFullMessage then RideFull
    else UnknownError(message)
  }

  /** The service text each kind stands for. */
  function ServiceMessage(k: GrouprideErrorResponse): string {
    match k
    case AlreadySignedUp => AlreadySignedUpMessage
    case RideNotFound => RideNotFoundMessage
    case RideFull => RideFullMessage
    case UnknownError(m) => m
  }

  /** Classification loses no information: the text can be recovered from the kind. */
  lemma FromMessageLossless(m: string)
    ensures ServiceMessage(FromMessage(m)) == m
  {
  }

  /** Each kind is produced by its own text and by no other, so the classifier is injective. */
  lemma FromMessageOfServiceMessage(k: GrouprideErrorResponse)
    requires k.UnknownError? ==> !IsKnownMessage(k.message)
    ensures FromMessage(ServiceMessage(k)) == k
    ensures forall m :: FromMessage(m) == k ==> m == ServiceMessage(k)
  {
    forall m | FromMessage(m) == k ensures m == ServiceMessage(k) {
      FromMessageLossless(m);
    }
  }

  /** Case and whitespace variants of the known texts are not recognised. */
  lemma VariantsAreUnknown()
    ensures FromMessage("groupride is full!") == UnknownError("groupride is full!")
    ensures FromMessage("Groupride is full! ") == UnknownError("Groupride is full! ")
    ensures FromMessage("Groupride doesn't exist") == UnknownError("Groupride doesn't exist")
    ensures FromMessage("") == UnknownError("")
  {
  }
}
