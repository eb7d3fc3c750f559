/**
 * Python's `str.join`, used to render a record's phones ("; ") and the
 * whole book ("\n"), and the facts about it that the renderings rely on.
 */
module Text {
  import opened Fields

  /** `sep.join(parts)`. */
  function Join(sep: string, parts: seq<string>): (r: string)
    ensures parts == [] ==> r == ""
    ensures parts != [] ==> |parts[0]| <= |r| && r[..|parts[0]|] == parts[0]
  {
    if |parts| == 0 then ""
    else if |parts| == 1 then parts[0]
    else parts[0] + sep + Join(sep, parts[1..])
  }

  /** Joining one more part appends the separator and that part. */
  lemma {:induction false} JoinSnoc(sep: string, parts: seq<string>, last: string)
    requires parts != []
    ensures Join(sep, parts + [last]) == Join(sep, parts) + sep + last
  {
    if |parts| > 1 {
      assert (parts + [last])[1..] == parts[1..] + [last];
      JoinSnoc(sep, parts[1..], last);
    }
  }

  /** Reads back a "; "-separated list of ten-character phone numbers. */
  function SplitPhones(s: string): (ps: seq<string>)
    decreases |s|
  {
    if |s| <= 10 then (if s == "" then [] else [s])
    else if |s| <= 12 || s[10..12] != "; " then [s]
    else [s[..10]] + SplitPhones(s[12..])
  }

  /** The rendered phone list of a record determines its phones. */
  lemma {:induction false} SplitJoinedPhones(phones: seq<PhoneNumber>)
    ensures SplitPhones(Join("; ", phones)) == phones
  {
    if |phones| > 1 {
      var rest := Join("; ", phones[1..]);
      var s := phones[0] + "; " + rest;
      assert Join("; ", phones) == s;
      assert |rest| >= 10;
      assert s[..10] == phones[0];
      assert s[10..12] == "; ";
      assert s[12..] == rest;
      SplitJoinedPhones(phones[1..]);
      assert phones == [phones[0]] + phones[1..];
    }
  }
}
