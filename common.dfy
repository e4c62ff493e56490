/** Identifiers, clock values and the result types shared by every module. */
module Common {

  /** Document ids. The document store hands them out; the model uses naturals. */
  type Id = nat

  /** A point in time in milliseconds, as `Date.now()` and `LocalDateTime.now()` give it. */
  type Time = int

  datatype Option<+T> = None | Some(value: T)

  /** The value returned on success, or the error thrown / the status sent on failure. */
  datatype Result<+T, +E> = Success(value: T) | Failure(error: E)

  /** One hour in milliseconds: the expiry stored with a password-reset token. */
  const ResetTokenLifetime: int := 3_600_000

  /** Ten minutes in milliseconds: the expiry signed into the reset token itself. */
  const ResetJwtLifetime: int := 600_000
}

/** What the Spring services throw, one constructor per exception message. */
module ServiceErrors {
  datatype ServiceError =
    | UserDoesNotExist        // "User does not exist"
    | NoSuchUser              // "No such user"
    | UserNotFound            // "User not found"
    | UserAlreadyExists       // "User already exists"
    | InvalidNumber           // "Please enter a valid number"
    | DescriptionNotString    // "Description must be a string"
    | ItemDoesNotExist        // "Item does not exist"
    | ItemNotOwned            // "Item not found or does not belong to the user"
    | NameRequired            // "Name is required"
    | PriceRequired           // "Price is required"
    | CategoryRequired        // "Category is required"
    | QuantityRequired        // "Quantity is required"
    | NameLengthOutOfRange    // "Name must be between 5 and 30 characters"
    | PasswordTooShort        // "Password must be at least 8 characters"
    | InvalidPassword         // "Invalid Password"
    | ResetEmailFailed        // "Failed to send reset email: ..."
    | InvalidOrExpiredToken   // "Invalid or expired token"
    | TokenRejected           // the JWT library's own exception: bad signature, malformed or expired token
}

/** What the Express handlers send on failure: an HTTP status and the error text. */
module HttpErrors {
  datatype HttpError = HttpError(status: nat, message: string)

  /** The response to a request that express-validator rejected. */
  const ValidationRejected: HttpError := HttpError(403, "validation errors")
}
