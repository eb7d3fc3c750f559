/**
 * `AddressBook`: a dictionary from a contact's name to its record. The
 * dictionary's insertion order is kept in `order`: inserting a new key
 * appends it, overwriting keeps its place, deleting drops it.
 */
module Book {
  import opened Errors
  import opened Text
  import opened Records

  predicate Distinct(s: seq<string>) {
    forall i, j :: 0 <= i < j < |s| ==> s[i] != s[j]
  }

  /** `s` without `x`, the others in their order. */
  function Remove(s: seq<string>, x: string): (r: seq<string>)
    ensures forall k :: k in r <==> k in s && k != x
  {
    if s == [] then []
    else if s[0] == x then Remove(s[1..], x)
    else [s[0]] + Remove(s[1..], x)
  }

  /** Removing keeps a list free of repeats. */
  lemma {:induction false} RemoveDistinct(s: seq<string>, x: string)
    requires Distinct(s)
    ensures Distinct(Remove(s, x))
  {
    if s != [] {
      RemoveDistinct(s[1..], x);
      if s[0] != x {
        var r := Remove(s[1..], x);
        assert s[0] !in r;
        forall i, j | 0 <= i < j < |[s[0]] + r| ensures ([s[0]] + r)[i] != ([s[0]] + r)[j] {
          if i > 0 {
            assert ([s[0]] + r)[i] == r[i - 1];
          }
        }
      }
    }
  }

  /** Removing a key that occurs at position `i` cuts out exactly that position. */
  lemma {:induction false} RemoveAt(s: seq<string>, i: nat)
    requires Distinct(s) && i < |s|
    ensures Remove(s, s[i]) == s[..i] + s[i + 1..]
  {
    if i == 0 {
      assert s[0] !in s[1..];
      RemoveAbsent(s[1..], s[0]);
    } else {
      RemoveAt(s[1..], i - 1);
      assert s[1..][i - 1] == s[i];
      assert s[..i] == [s[0]] + s[1..][..i - 1];
      assert s[i + 1..] == s[1..][i..];
    }
  }

  /** Removing an absent key changes nothing. */
  lemma {:induction false} RemoveAbsent(s: seq<string>, x: string)
    requires x !in s
    ensures Remove(s, x) == s
  {
    if s != [] {
      RemoveAbsent(s[1..], x);
      assert s == [s[0]] + s[1..];
    }
  }

  /** The insertion order after storing under `name`: a new key goes last,
      an existing one keeps its place. */
  function OrderAfterAdd(order: seq<string>, records: map<string, Record>, name: string): seq<string> {
    if name in records then order else order + [name]
  }

  class AddressBook {
    var records: map<string, Record>
    var order: seq<string>

    /** Every key is listed once in insertion order, and is its record's name. */
    ghost predicate Valid()
      reads this
    {
      && (forall k :: k in records <==> k in order)
      && Distinct(order)
      && (forall k :: k in records ==> records[k].name == k)
    }

    constructor ()
      ensures Valid() && records == map[] && order == []
    {
      records := map[];
      order := [];
    }

    /** `add_record`: stores `record` under its name, replacing any record
        stored there; every other key keeps its record and its place. */
    method AddRecord(record: Record)
      requires Valid()
      modifies this
      ensures Valid()
      ensures records == old(records)[record.name := record]
      ensures Find(record.name) == Some(record)
      ensures order == OrderAfterAdd(old(order), old(records), record.name)
    {
      if record.name !in records {
        order := order + [record.name];
      }
      records := records[record.name := record];
    }

    /** `find`: the record stored under `name`, or nothing. */
    function Find(name: string): (r: Option<Record>)
      reads this
      requires Valid()
      ensures r.None? <==> name !in records
      ensures r.Some? ==> r.value == records[name] && r.value.name == name
    {
      if name in records then Some(records[name]) else None
    }

    /** `delete`: drops the key `name` if present and does nothing otherwise. */
    method Delete(name: string)
      requires Valid()
      modifies this
      ensures Valid()
      ensures records == old(records) - {name}
      ensures Find(name) == None
      ensures order == Remove(old(order), name)
      ensures name !in old(records) ==> order == old(order)
    {
      if name in records {
        records := records - {name};
      }
      if name !in order {
        RemoveAbsent(order, name);
      }
      RemoveDistinct(order, name);
      order := Remove(order, name);
      assert forall k :: k in records <==> k in order;
    }

    /** The rendering of each record named in `keys`, in that order. */
    function Lines(keys: seq<string>): (lines: seq<string>)
      reads this, records.Values
      requires forall k :: k in keys ==> k in records
      ensures |lines| == |keys|
      ensures forall i :: 0 <= i < |keys| ==> lines[i] == records[keys[i]].ToString()
    {
      if keys == [] then [] else [records[keys[0]].ToString()] + Lines(keys[1..])
    }

    /** The lines of two runs of keys are the lines of each, one after the
        other. It follows from `Lines`' element-by-element contract. */
    lemma LinesAppend(a: seq<string>, b: seq<string>)
      requires forall k :: k in a + b ==> k in records
      ensures Lines(a + b) == Lines(a) + Lines(b)
    {
    }

    /** `__str__`: the records' renderings in insertion order, one per
        line; empty exactly when the book is. */
    function ToString(): (s: string)
      reads this, records.Values
      requires Valid()
      ensures s == "" <==> records == map[]
      ensures |order| == 1 ==> s == records[order[0]].ToString()
    {
      var lines := Lines(order);
      assert order != [] ==> order[0] in records && |lines[0]| > 0;
      assert order == [] ==> records.Keys == {};
      Join("\n", lines)
    }

    /** One more key adds its record's rendering as one more line. Like
        `LinesAppend`, it follows from `Lines`' contract; the call only
        shortens the search. */
    lemma LinesSnoc(earlier: seq<string>, last: string)
      requires forall k :: k in earlier + [last] ==> k in records
      ensures Lines(earlier + [last]) == Lines(earlier) + [records[last].ToString()]
    {
      LinesAppend(earlier, [last]);
    }

    /** The most recently inserted key's record is the last line of the
        rendering, after the lines of all earlier keys; with no earlier
        keys it is the whole rendering. */
    lemma RenderLast(earlier: seq<string>, last: string)
      requires Valid() && order == earlier + [last]
      ensures ToString() == (if earlier == [] then "" else Join("\n", Lines(earlier)) + "\n")
                            + records[last].ToString()
    {
      LinesSnoc(earlier, last);
      if earlier != [] {
        JoinSnoc("\n", Lines(earlier), records[last].ToString());
      }
    }
  }
}
