/** Error values of the location service and the two wrappers that carry them. */
module Errors {

  datatype Option<+T> = None | Some(value: T)

  /** The errors the core produces or passes on (db/db.go, pkg/handlers/handlers.go). */
  datatype Error =
    | UserEmailAlreadyExist   // db.ErrUserEmailAlreadyExist
    | NumError(input: string) // strconv.Atoi refused the path user id
    | HashFailed              // bcrypt could not hash the password
    | DeleteTokenFailed       // "couldn't delete token from the database"
    | TokenIdNotFound         // "GetTokenID: failed to get tokenid"
    | OutOfRange(value: int)  // PostgreSQL: value out of range for type integer
    | NulInText               // PostgreSQL: text parameters cannot hold U+0000
    | SequenceExhausted       // PostgreSQL: a SERIAL sequence reached its maximum value

  /** A Go `(value, error)` pair in which exactly one side is meaningful. */
  datatype Result<+T> = Ok(value: T) | Err(error: Error)
}
