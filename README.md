# Address book bot — a Dafny model

This project models the core of a small command-line contact manager
(`bot_address_book_9.py`): an in-memory address book whose contacts have a
validated name and a list of validated phone numbers, and the two command
handlers `add_contact` and `get_phone`, whose failures a decorator turns into
one of three fixed replies.

Modules, leaf first:

- `Errors` (`errors.dfy`): the three failure kinds (`KeyError`, `ValueError`,
  `IndexError`) as a datatype, a `Result` type for what an undecorated handler
  returns or raises, and the `input_error` decorator as the function
  `InputError`.
- `Fields` (`fields.dfy`): `Name` and `Phone` validation. `Strip` is Python's
  `str.strip()` built from `TrimStart` and `TrimEnd`. Each of those two
  functions is characterised completely by its contract. A name is accepted
  exactly when it is not all whitespace, and it is kept unstripped. A phone is
  accepted exactly when it is ten digits.
- `Text` (`text.dfy`): `str.join`, plus a reader `SplitPhones` that recovers
  the phones from a record's rendered phone list.
- `Records` (`records.dfy`): `Record` is a class, because `add_phone` appends
  to its list in place. `FindPhone` is a first-match scan, and `ToString` is
  `__str__`.
- `Book` (`book.dfy`): `AddressBook` is a class holding the dictionary as a
  `map<string, Record>` and the dictionary's insertion order as a
  `seq<string>`. Inserting a new key appends it to the order. Overwriting a
  key keeps its place. Deleting a key drops it. The book holds references to
  `Record` objects, as the Python dictionary does.
- `Handlers` (`handlers.dfy`): each handler has an undecorated body
  (`AddContactBody`, `GetPhoneBody`) that returns a `Result`, and a decorated
  form (`AddContact`, `GetPhone`) that returns the reply text.
- `Session` (`session.dfy`): sequences of handler calls on a fresh book. They
  cover adding then looking up, adding the same name twice, and the three
  error replies.

Behaviour worth knowing:

- A wrong number of arguments to `add_contact` produces "Invalid input
  format.", not "Not enough arguments.". This is because `name, phone = args`
  raises `ValueError` for any count other than two. The model follows the code.
- Only `get_phone` with no arguments produces "Not enough arguments.".
- In `get_phone`, "Contact not found." is an ordinary return value, not a
  caught `KeyError`. No handler in the core ever raises `KeyError`, but the
  decorator's mapping for it is still modelled.
- `Name` validates the stripped text but keeps the raw string, surrounding
  whitespace included.
- In `get_phone`, `if record:` is always true for a found record, because
  `Record` defines neither `__bool__` nor `__len__`.

## Model

| member | source | states |
|---|---|---|
| `Errors.Message` | bot_address_book_9.py:15-20 | KeyError gives "Contact not found.", ValueError gives "Invalid input format." and IndexError gives "Not enough arguments.". Each message belongs to exactly one failure kind. |
| `Errors.InputError` | bot_address_book_9.py:4-21 | A handler's returned text passes through unchanged. A failure becomes its fixed message, which is one of the three. |
| `Fields.TrimStart` | bot_address_book_9.py:47 | The result is a suffix of the input. Everything cut off is whitespace. The result is empty or starts with a non-whitespace character. |
| `Fields.TrimEnd` | bot_address_book_9.py:47 | The result is a prefix of the input. Everything cut off is whitespace. The result is empty or ends with a non-whitespace character. |
| `Fields.Strip` | bot_address_book_9.py:47 | `strip()` returns the empty string exactly when every character is whitespace. A non-empty result neither starts nor ends with whitespace, and it is no longer than the input. |
| `Fields.MakeName` | bot_address_book_9.py:38-49 | `Name(raw)` fails with ValueError exactly when `raw` is empty or all whitespace. On success the value is `raw` itself, not trimmed. |
| `Fields.MakePhone` | bot_address_book_9.py:55-66 | `Phone(raw)` succeeds exactly when `raw` has length 10 and every character is a digit. On success the value is `raw`. Otherwise it fails with ValueError. |
| `Text.Join` | bot_address_book_9.py:98 | Joining no parts gives the empty string. Otherwise the result begins with the first part. |
| `Text.JoinSnoc` | bot_address_book_9.py:140 | Joining one more part appends the separator and that part to the previous result. |
| `Text.SplitJoinedPhones` | bot_address_book_9.py:98 | The "; "-joined list of valid phones can be read back into exactly those phones. The reader accepts "; " only between phones and never after the last one, so the rendering is exact. |
| `Records.FirstIndex` | bot_address_book_9.py:94 | Returns none exactly when the number is not in the list. Otherwise it returns an index holding the number, and no earlier index holds it: a first-match scan. |
| `Records.Record.constructor` | bot_address_book_9.py:80-81 | A new record has the given name and no phones. |
| `Records.NewRecord` | bot_address_book_9.py:72-81 | `Record(raw)` fails with ValueError exactly on a blank name. Otherwise it returns a fresh record named `raw` with no phones. |
| `Records.Record.AddPhone` | bot_address_book_9.py:83-85 | Succeeds exactly on a valid phone and then appends it at the end of the list. On an invalid phone it fails with ValueError and the list is unchanged. |
| `Records.Record.FindPhone` | bot_address_book_9.py:87-94 | Returns none exactly when no phone in the list equals the number. Otherwise it returns a phone equal to the number. |
| `Records.Record.ToString` | bot_address_book_9.py:96-98 | The text starts with "Contact name: <name>, phones: ", and the rest reads back as exactly the record's phones. |
| `Book.Remove` | bot_address_book_9.py:129-136 | Afterwards, the keys in the order are exactly the previous keys minus the deleted one. |
| `Book.RemoveDistinct` | bot_address_book_9.py:129-136 | Deleting a key keeps the insertion order free of repeats. |
| `Book.RemoveAt` | bot_address_book_9.py:129-136 | Deleting a present key cuts out exactly its position, and the other keys keep their relative order. |
| `Book.RemoveAbsent` | bot_address_book_9.py:135-136 | Deleting an absent key leaves the order as it was. |
| `Book.AddressBook.constructor` | bot_address_book_9.py:104-110 | A new book is empty, with no keys in its order. |
| `Book.AddressBook.AddRecord` | bot_address_book_9.py:112-118 | The record is stored under its name, and `Find` of that name returns it. Any previous record under that name is overwritten. Every other key keeps its record. A new key goes last in the order, and an overwritten key keeps its place. |
| `Book.AddressBook.Find` | bot_address_book_9.py:120-127 | Returns none exactly when the name is not a key. Otherwise it returns the record stored there, and that record's name is the key. |
| `Book.AddressBook.Delete` | bot_address_book_9.py:129-136 | Removes the key if present and does nothing otherwise. Afterwards `Find` of that name returns none and every other entry is unchanged. The order loses exactly that key. |
| `Book.AddressBook.Lines` | bot_address_book_9.py:140 | There is one line per key, and line `i` is the rendering of the record under key `i`. |
| `Book.AddressBook.LinesAppend` | bot_address_book_9.py:140 | The lines for two runs of keys, one after the other, are the lines of each run concatenated. |
| `Book.AddressBook.LinesSnoc` | bot_address_book_9.py:140 | One more key adds its record's rendering as one more line at the end. |
| `Book.AddressBook.ToString` | bot_address_book_9.py:138-140 | The rendering of the book is empty exactly when the book holds no records. A book with exactly one key renders as that record's line alone. How longer books' lines follow one another is stated by `RenderLast`. |
| `Book.AddressBook.RenderLast` | bot_address_book_9.py:138-140 | The record under the last key of the order is the last line of the rendering. With no earlier keys it is the whole rendering. Otherwise it follows the lines of all earlier keys in order, joined with "\n". |
| `Handlers.AddContactBody` | bot_address_book_9.py:143-156 | Succeeds exactly when there are two arguments, the name is not blank and the phone is valid. It then returns "Contact <name> added." and stores a fresh record with exactly the phones `[args[1]]` under `args[0]`. Otherwise it fails with ValueError and the book is unchanged. |
| `Handlers.AddContact` | bot_address_book_9.py:143-156 | On valid input it replies "Contact <name> added." and stores a fresh record with the single phone. Other keys keep their records, and the name keeps its place in the order or goes last if new. On a wrong argument count, a blank name or a bad phone it replies "Invalid input format." and the book is unchanged. |
| `Handlers.GetPhoneBody` | bot_address_book_9.py:159-172 | Fails with IndexError exactly when there are no arguments. For an unknown name it returns "Contact not found." as an ordinary value. For a known name it returns the record's rendering. |
| `Handlers.GetPhone` | bot_address_book_9.py:159-172 | With no arguments it replies "Not enough arguments.". For an unknown name it replies "Contact not found.". Otherwise it replies "Contact name: <name>, phones: " followed by the record's phones joined with "; ". |
| `Session.AddThenLookUp` | bot_address_book_9.py:143-172 | In a fresh book, adding a valid name and phone replies "Contact <name> added.". Looking the name up then shows exactly that phone, and so does the listing of the whole book. |
| `Session.AddAgain` | bot_address_book_9.py:143-156 | Adding a name already in the book keeps the same keys and replaces that name's record with one holding only the new phone. |
| `Session.AddTwice` | bot_address_book_9.py:143-172 | Adding the same name twice leaves one contact, and looking it up shows only the second phone. |
| `Session.Rejections` | bot_address_book_9.py:143-172 | `add alice 123` and a three-argument add reply "Invalid input format.". Looking up an unknown name replies "Contact not found.", and looking up with no name replies "Not enough arguments.". |

## Left out

- `main()` (bot_address_book_9.py:175-217) is left out. It is the interactive loop: `input`, `print`, lower-casing of the whole line, splitting on single spaces, dispatch, and the greeting, listing and exit messages. It is I/O around the handlers. Its "all" branch depends on `AddressBook.__str__` and on whether the book is empty. The contract of `Book.AddressBook.ToString` covers the empty and the one-record book; the text of a longer book is given by `RenderLast`.
- `str.isspace` and `str.isdigit` are modelled on ASCII only. Whitespace is tab, line feed, vertical tab, form feed, carriage return, the separators 0x1C to 0x1F, and space. Digits are '0' to '9'. Unicode whitespace and Unicode digits, such as superscripts, are not modelled.
- The `Field` base class (bot_address_book_9.py:24-32) is left out because it is purely structural. Names and phones are modelled as the strings they wrap, in the subset types `NameText` and `PhoneNumber`.
- Records.Record.FindPhone returns a phone equal to the number, but does not identify which `Phone` object was found. Phones are values here, so object identity is not modelled. `FirstIndex` gives the position of the first match.
- The exception messages carried by `ValueError` ("Name cannot be empty.", "Phone number must be exactly 10 digits.") are left out, because the decorator discards them.
