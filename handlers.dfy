/**
 * The two command handlers, `add_contact` and `get_phone`, each an
 * undecorated body returning a `Result` and the decorated handler that
 * turns it into the message printed to the user.
 */
module Handlers {
  import opened Errors
  import opened Fields
  import opened Text
  import opened Records
  import opened Book

  /** The arguments `add_contact` accepts: exactly a name and a phone, both valid. */
  predicate AddArgsOk(args: seq<string>) {
    |args| == 2 && !IsBlank(args[0]) && IsPhone(args[1])
  }

  /** The body of `add_contact`. Unpacking `name, phone = args` raises a
      `ValueError` for any other number of arguments, as do a blank name
      and a malformed phone; the book changes only on success. */
  method AddContactBody(args: seq<string>, book: AddressBook) returns (r: Result<string>)
    requires book.Valid()
    modifies book
    ensures book.Valid()
    ensures r.Ok? <==> AddArgsOk(args)
    ensures r.Err? ==> r.error == BadValue
    ensures r.Err? ==> book.records == old(book.records) && book.order == old(book.order)
    ensures r.Ok? ==> r.value == "Contact " + args[0] + " added."
    ensures r.Ok? ==> args[0] in book.records && fresh(book.records[args[0]])
    ensures r.Ok? ==> book.records[args[0]].phones == [args[1]]
    ensures r.Ok? ==> book.records == old(book.records)[args[0] := book.records[args[0]]]
    ensures r.Ok? ==> book.order == OrderAfterAdd(old(book.order), old(book.records), args[0])
  {
    if |args| != 2 {
      return Err(BadValue);
    }
    var name, phone := args[0], args[1];
    var record := NewRecord(name);
    if record.Err? {
      return Err(record.error);
    }
    var added := record.value.AddPhone(phone);
    if added.Err? {
      return Err(added.error);
    }
    book.AddRecord(record.value);
    return Ok("Contact " + name + " added.");
  }

  /** `add_contact` as decorated: a confirmation naming the contact, or
      "Invalid input format." with the book unchanged. */
  method AddContact(args: seq<string>, book: AddressBook) returns (msg: string)
    requires book.Valid()
    modifies book
    ensures book.Valid()
    ensures AddArgsOk(args) ==> msg == "Contact " + args[0] + " added."
    ensures AddArgsOk(args) ==> args[0] in book.records && fresh(book.records[args[0]])
    ensures AddArgsOk(args) ==> book.records[args[0]].phones == [args[1]]
    ensures AddArgsOk(args) ==> book.records == old(book.records)[args[0] := book.records[args[0]]]
    ensures AddArgsOk(args) ==> book.order == OrderAfterAdd(old(book.order), old(book.records), args[0])
    ensures !AddArgsOk(args) ==> msg == InvalidInputFormat
    ensures !AddArgsOk(args) ==> book.records == old(book.records) && book.order == old(book.order)
  {
    var r := AddContactBody(args, book);
    msg := InputError(r);
  }

  /** The body of `get_phone`: `args[0]` raises an `IndexError` on no
      arguments; a missing contact is a plain "Contact not found." reply. */
  function GetPhoneBody(args: seq<string>, book: AddressBook): (r: Result<string>)
    reads book, book.records.Values
    requires book.Valid()
    ensures r.Err? <==> args == []
    ensures r.Err? ==> r.error == MissingArgument
    ensures args != [] && args[0] !in book.records ==> r == Ok(ContactNotFound)
    ensures args != [] && args[0] in book.records ==> r == Ok(book.records[args[0]].ToString())
  {
    if |args| == 0 then Err(MissingArgument)
    else match book.Find(args[0])
      case Some(record) => Ok(record.ToString())
      case None => Ok(ContactNotFound)
  }

  /** `get_phone` as decorated: "Not enough arguments." with no arguments,
      "Contact not found." for an unknown name, otherwise the record
      rendered with the looked-up name and its phones. */
  function GetPhone(args: seq<string>, book: AddressBook): (msg: string)
    reads book, book.records.Values
    requires book.Valid()
    ensures args == [] ==> msg == NotEnoughArguments
    ensures args != [] && args[0] !in book.records ==> msg == ContactNotFound
    ensures args != [] && args[0] in book.records ==>
      msg == "Contact name: " + args[0] + ", phones: " + Join("; ", book.records[args[0]].phones)
  {
    InputError(GetPhoneBody(args, book))
  }
}
