/** What a handler answers: either a success payload or one of the refusals the handlers
    return, each with the HTTP status the routing layer sends for it. */
module Responses {

  datatype Reason =
    | FieldRequired(field: string)   // "<field> is required"
    | NoAvailableSpots               // reserve: no Available spot in the lot (or no such lot)
    | CannotReduceSpots              // edit: shrinking past the Available spots
    | LotOccupied                    // delete: some spot of the lot is Occupied
    | LotNotFound
    | NoActiveReservation            // release: caller holds no active reservation on the spot
    | CredentialsRequired            // login: username or password key missing
    | RegistrationFieldsRequired     // register: username, email or password key missing
    | UsernameExists
    | EmailRegistered
    | PasswordTooShort
    | UserDoesNotExist
    | InvalidPassword

  /** The HTTP status code that accompanies each refusal. */
  function StatusCode(r: Reason): int
  {
    match r
    case LotNotFound | NoActiveReservation | UserDoesNotExist => 404
    case UsernameExists | EmailRegistered => 409
    case InvalidPassword => 401
    case _ => 400
  }

  datatype Outcome<+T> = Ok(value: T) | Fail(reason: Reason)
}
