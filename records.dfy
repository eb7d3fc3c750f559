/**
 * `Record`: one contact, a validated name and a growable list of validated
 * phones. The list is updated in place, so a record is an object; the book
 * holds references to records, as the Python dictionary does.
 */
module Records {
  import opened Errors
  import opened Fields
  import opened Text

  /** Index of the first element of `phones` equal to `number`, if any. */
  function FirstIndex(phones: seq<PhoneNumber>, number: string): (r: Option<nat>)
    ensures r.None? <==> number !in phones
    ensures r.Some? ==> r.value < |phones| && phones[r.value] == number
    ensures r.Some? ==> forall j :: 0 <= j < r.value ==> phones[j] != number
  {
    if phones == [] then None
    else if phones[0] == number then Some(0)
    else match FirstIndex(phones[1..], number)
      case None => None
      case Some(i) => Some(i + 1)
  }

  class Record {
    const name: NameText
    var phones: seq<PhoneNumber>

    /** A record with a validated name and no phones. */
    constructor (name: NameText)
      ensures this.name == name && phones == []
    {
      this.name := name;
      phones := [];
    }

    /** `add_phone`: validates the number, then appends it; an invalid
        number raises a `ValueError` and leaves the list as it was. */
    method AddPhone(number: string) returns (r: Result<()>)
      modifies this
      ensures r.Ok? <==> IsPhone(number)
      ensures r.Err? ==> r.error == BadValue
      ensures phones == if r.Ok? then old(phones) + [number] else old(phones)
    {
      var phone := MakePhone(number);
      if phone.Err? {
        return Err(phone.error);
      }
      phones := phones + [phone.value];
      return Ok(());
    }

    /** `find_phone`: the first phone equal to `number`, or nothing. */
    function FindPhone(number: string): (r: Option<PhoneNumber>)
      reads this
      ensures r.None? <==> number !in phones
      ensures r.Some? ==> r.value == number
    {
      match FirstIndex(phones, number)
      case None => None
      case Some(i) => Some(phones[i])
    }

    /** `__str__`: "Contact name: <name>, phones: " followed by the phones
        joined with "; ", from which the phones can be read back. */
    function ToString(): (s: string)
      reads this
      ensures var head := "Contact name: " + name + ", phones: ";
        |head| <= |s| && s[..|head|] == head && SplitPhones(s[|head|..]) == phones
    {
      var head := "Contact name: " + name + ", phones: ";
      var s := head + Join("; ", phones);
      assert s[|head|..] == Join("; ", phones);
      SplitJoinedPhones(phones);
      s
    }
  }

  /** `Record(raw)`: the name is validated first; a blank one raises a
      `ValueError` and no record comes into being. */
  method NewRecord(raw: string) returns (r: Result<Record>)
    ensures r.Ok? <==> !IsBlank(raw)
    ensures r.Err? ==> r.error == BadValue
    ensures r.Ok? ==> fresh(r.value) && r.value.name == raw && r.value.phones == []
  {
    var name := MakeName(raw);
    if name.Err? {
      return Err(name.error);
    }
    var record := new Record(name.value);
    return Ok(record);
  }
}
