/**
 * The validated fields of a contact: `Name` (not blank after stripping
 * whitespace, stored unstripped) and `Phone` (exactly ten digits).
 * Whitespace is the ASCII characters Python's `str.isspace` accepts and
 * digits are ASCII '0'..'9'.
 */
module Fields {
  import opened Errors

  /** Tab, line feed, vertical tab, form feed, carriage return, the four
      information separators 0x1C..0x1F, and the space. */
  predicate IsSpace(c: char) {
    c == ' ' || '\t' <= c <= '\r' || '\U{1C}' <= c <= '\U{1F}'
  }

  predicate IsBlank(s: string) {
    forall i :: 0 <= i < |s| ==> IsSpace(s[i])
  }

  /** `s` without its leading whitespace. */
  function TrimStart(s: string): (r: string)
    ensures |r| <= |s| && r == s[|s| - |r|..]
    ensures IsBlank(s[..|s| - |r|])
    ensures r != [] ==> !IsSpace(r[0])
  {
    if s != [] && IsSpace(s[0]) then TrimStart(s[1..]) else s
  }

  /** `s` without its trailing whitespace. */
  function TrimEnd(s: string): (r: string)
    ensures |r| <= |s| && r == s[..|r|]
    ensures IsBlank(s[|r|..])
    ensures r != [] ==> !IsSpace(r[|r| - 1])
  {
    if s != [] && IsSpace(s[|s| - 1]) then
      var r := TrimEnd(s[..|s| - 1]);
      assert s[|r|..] == s[..|s| - 1][|r|..] + [s[|s| - 1]];
      r
    else s
  }

  /** Python's `str.strip()` with no argument: nothing is left exactly
      when the string is all whitespace, and what is left neither starts
      nor ends with whitespace. */
  function Strip(s: string): (r: string)
    ensures |r| <= |s|
    ensures r == [] <==> IsBlank(s)
    ensures r != [] ==> !IsSpace(r[0]) && !IsSpace(r[|r| - 1])
  {
    var t := TrimStart(s);
    var r := TrimEnd(t);
    assert r == [] ==> t == [];
    assert t == [] ==> s[..|s|] == s;
    assert r != [] ==> r[0] == t[0];
    r
  }

  /** The check of `Name.__init__`: the stripped name is not empty. */
  predicate IsName(s: string) {
    Strip(s) != []
  }

  type NameText = s: string | IsName(s) witness "a"

  /** `Name(raw)`: fails with a `ValueError` exactly on blank input, and
      keeps the raw string, surrounding whitespace included. */
  function MakeName(raw: string): (r: Result<NameText>)
    ensures r.Ok? <==> !IsBlank(raw)
    ensures r.Ok? ==> r.value == raw
    ensures r.Err? ==> r.error == BadValue
  {
    if Strip(raw) == [] then Err(BadValue) else Ok(raw)
  }

  predicate IsDigit(c: char) {
    '0' <= c <= '9'
  }

  /** Python's `str.isdigit()`: non-empty and every character a digit. */
  predicate IsDigits(s: string) {
    s != [] && forall i :: 0 <= i < |s| ==> IsDigit(s[i])
  }

  /** The check of `Phone.__init__`. */
  predicate IsPhone(s: string) {
    IsDigits(s) && |s| == 10
  }

  type PhoneNumber = s: string | IsPhone(s) witness "0000000000"

  /** `Phone(raw)`: succeeds exactly on ten digits, and keeps the string. */
  function MakePhone(raw: string): (r: Result<PhoneNumber>)
    ensures r.Ok? <==> |raw| == 10 && forall i :: 0 <= i < |raw| ==> IsDigit(raw[i])
    ensures r.Ok? ==> r.value == raw
    ensures r.Err? ==> r.error == BadValue
  {
    if !IsDigits(raw) || |raw| != 10 then Err(BadValue) else Ok(raw)
  }
}
