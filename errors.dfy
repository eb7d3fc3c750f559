/**
 * Outcomes of the command handlers and the translation of their failures
 * into the three fixed messages printed to the user (the `input_error`
 * decorator of bot_address_book_9.py). Python exceptions are values here.
 */
module Errors {

  /** The three exception kinds the decorator catches. */
  datatype Failure =
    | KeyMissing       // KeyError
    | BadValue         // ValueError
    | MissingArgument  // IndexError

  datatype Option<+T> = None | Some(value: T)

  /** What an undecorated handler does: returns a message or raises. */
  datatype Result<+T> = Ok(value: T) | Err(error: Failure)

  const ContactNotFound := "Contact not found."
  const InvalidInputFormat := "Invalid input format."
  const NotEnoughArguments := "Not enough arguments."

  /** The fixed message for each failure; distinct failures get distinct messages. */
  function Message(e: Failure): (m: string)
    ensures m == ContactNotFound <==> e == KeyMissing
    ensures m == InvalidInputFormat <==> e == BadValue
    ensures m == NotEnoughArguments <==> e == MissingArgument
  {
    match e
    case KeyMissing => ContactNotFound
    case BadValue => InvalidInputFormat
    case MissingArgument => NotEnoughArguments
  }

  /** The decorator: a returned message passes through, a failure becomes its message. */
  function InputError(r: Result<string>): (m: string)
    ensures r.Ok? ==> m == r.value
    ensures r.Err? ==> m in {ContactNotFound, InvalidInputFormat, NotEnoughArguments}
    ensures r.Err? ==> m == Message(r.error)
  {
    match r
    case Ok(v) => v
    case Err(e) => Message(e)
  }
}
