/**
 * Worked sequences of handler calls on a fresh book: add and look up,
 * add the same name twice, and the three error replies.
 */
module Session {
  import opened Errors
  import opened Fields
  import opened Text
  import opened Book
  import opened Handlers

  /** `add <name> <phone>`, `phone <name>`, then the whole book: the reply
      to the lookup and the listing both show the one phone. */
  method AddThenLookUp(name: string, phone: string) returns (added: string, found: string, listed: string)
    requires AddArgsOk([name, phone])
    ensures added == "Contact " + name + " added."
    ensures found == "Contact name: " + name + ", phones: " + phone
    ensures listed == found
  {
    var book := new AddressBook();
    added := AddContact([name, phone], book);
    assert book.records[name].phones == [phone];
    found := GetPhone([name], book);
    assert book.order == [name];
    assert book.Lines(book.order) == [found];
    listed := book.ToString();
  }

  /** `add <name> <phone>` for a name the book already holds: the keys stay
      the same and the name's record now holds just the new phone. */
  method AddAgain(book: AddressBook, name: string, phone: string)
    requires book.Valid() && name in book.records && AddArgsOk([name, phone])
    modifies book
    ensures book.Valid() && book.records.Keys == old(book.records.Keys)
    ensures name in book.records && book.records[name].phones == [phone]
  {
    var reply := AddContact([name, phone], book);
  }

  /** Adding a name twice leaves one contact holding only the second phone. */
  method AddTwice(name: string, first: string, second: string) returns (replaced: string, count: nat)
    requires AddArgsOk([name, first]) && IsPhone(second)
    ensures replaced == "Contact name: " + name + ", phones: " + second
    ensures count == 1
  {
    var book := new AddressBook();
    var reply := AddContact([name, first], book);
    assert book.records.Keys == {name};
    assert AddArgsOk([name, second]);
    AddAgain(book, name, second);
    count := |book.records|;
    replaced := GetPhone([name], book);
  }

  /** A short phone, a third argument, an unknown name and no name at all. */
  method Rejections() returns (shortPhone: string, tooMany: string, unknown: string, noName: string)
    ensures shortPhone == InvalidInputFormat
    ensures tooMany == InvalidInputFormat
    ensures unknown == ContactNotFound
    ensures noName == NotEnoughArguments
  {
    var book := new AddressBook();
    shortPhone := AddContact(["alice", "123"], book);
    tooMany := AddContact(["alice", "1234567890", "x"], book);
    unknown := GetPhone(["alice"], book);
    noName := GetPhone([], book);
  }
}
