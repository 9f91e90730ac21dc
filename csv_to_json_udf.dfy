/** The Dataflow text-transform UDF `transformCSVtoJSON`: one CSV line of the
    ICSA series in, one JSON object text out. The line is cut at every comma;
    the field at index 0 is named `observation_date`, the field at index 1
    `icsa`, and every later field falls on the key `undefined` (the name list
    has no entry there); a field that reads exactly `null` is skipped; the
    resulting object is serialised with `JSON.stringify`. */
module CsvToJsonUdf {
  import opened Optional
  import opened CsvSplit
  import opened JsonText
  import opened JsObjects

  /** The names given to the fields at indices 0 and 1. */
  const Properties: seq<string> := ["observation_date", "icsa"]

  /** The field text that stands for a missing value and is not stored. */
  const NullText: string := "null"

  /** The key under which a field past the end of `Properties` is stored:
      reading past the end gives `undefined`, which becomes this key. */
  const UndefinedKey: string := "undefined"

  /** `properties[count]` used as a property key. */
  function PropertyKey(index: nat): (k: string)
    ensures KeyRank(k) == if index < |Properties| then index else |Properties|
    ensures index >= |Properties| <==> k == UndefinedKey
  {
    if index < |Properties| then Properties[index] else UndefinedKey
  }

  /** The last field that is not `null`, if there is one. */
  function LastKept(fields: seq<string>): (r: Option<string>)
    ensures r.None? <==> forall i :: 0 <= i < |fields| ==> fields[i] == NullText
    ensures r.Some? ==> r.value != NullText
    ensures r.Some? ==> exists i :: 0 <= i < |fields| && fields[i] == r.value &&
                                   forall j :: i < j < |fields| ==> fields[j] == NullText
  {
    if |fields| == 0 then None
    else if fields[|fields| - 1] != NullText then Some(fields[|fields| - 1])
    else LastKept(fields[..|fields| - 1])
  }

  function Kept(key: string, field: string): seq<Entry>
  {
    if field == NullText then [] else [Entry(key, field)]
  }

  /** The object's properties once all fields are processed, described by what
      ends up under each key rather than by the loop that puts it there: the
      field at index 0 unless it is `null`, then the field at index 1 unless it
      is `null`, then the last non-`null` field at index 2 or beyond. */
  function ExpectedEntries(fields: seq<string>): seq<Entry>
  {
    (if |fields| > 0 then Kept(Properties[0], fields[0]) else [])
    + (if |fields| > 1 then Kept(Properties[1], fields[1]) else [])
    + (if |fields| > 2 then
         match LastKept(fields[2..])
         case None => []
         case Some(v) => [Entry(UndefinedKey, v)]
       else [])
  }

  /** The JSON text the UDF returns for `line`. */
  function ExpectedJson(line: string): string
  {
    Stringify(ExpectedEntries(Split(line)))
  }

  /** Position of a key in the output: `observation_date` before `icsa`
      before `undefined`. */
  function KeyRank(key: string): nat
  {
    if key == Properties[0] then 0 else if key == Properties[1] then 1 else 2
  }

  /** A `null` field leaves the object as it is. */
  lemma SkipNullField(fields: seq<string>, n: nat)
    requires n < |fields| && fields[n] == NullText
    ensures ExpectedEntries(fields[..n + 1]) == ExpectedEntries(fields[..n])
  {
    var before, after := fields[..n], fields[..n + 1];
    if n >= 2 {
      assert after[2..] == before[2..] + [fields[n]];
      assert (before[2..] + [fields[n]])[..|before[2..]|] == before[2..];
    }
  }

  /** Any other field is assigned to the key its index names: `observation_date`,
      `icsa`, then `undefined` from index 2 on. */
  lemma AssignField(fields: seq<string>, n: nat)
    requires n < |fields| && fields[n] != NullText
    ensures ExpectedEntries(fields[..n + 1]) == Put(ExpectedEntries(fields[..n]), PropertyKey(n), fields[n])
  {
    var before, after := fields[..n], fields[..n + 1];
    if n == 0 {
      assert ExpectedEntries(before) == [];
    } else if n == 1 {
      assert ExpectedEntries(before) == Kept(Properties[0], fields[0]);
      PutAppendsNewKey(ExpectedEntries(before), Properties[1], fields[1]);
    } else {
      var head := Kept(Properties[0], fields[0]) + Kept(Properties[1], fields[1]);
      assert after[2..] == before[2..] + [fields[n]];
      assert ExpectedEntries(after) == head + [Entry(UndefinedKey, fields[n])];
      if n > 2 && LastKept(before[2..]).Some? {
        var v := LastKept(before[2..]).value;
        assert ExpectedEntries(before) == head + [Entry(UndefinedKey, v)];
        PutOverwritesInPlace(head + [Entry(UndefinedKey, v)], UndefinedKey, fields[n], |head|);
        assert (head + [Entry(UndefinedKey, v)])[|head| := Entry(UndefinedKey, fields[n])]
            == head + [Entry(UndefinedKey, fields[n])];
      } else {
        assert ExpectedEntries(before) == head;
        PutAppendsNewKey(head, UndefinedKey, fields[n]);
      }
    }
  }

  /** What the object holds: `observation_date` is the field at index 0 and
      `icsa` the field at index 1, each copied verbatim and present exactly
      when that field exists and is not `null`; `undefined` holds the last
      non-`null` field at index 2 or beyond, if any; no other key occurs. */
  lemma ExpectedLookup(fields: seq<string>, key: string)
    ensures Lookup(ExpectedEntries(fields), key) ==
              if key == Properties[0] then
                (if |fields| > 0 && fields[0] != NullText then Some(fields[0]) else None)
              else if key == Properties[1] then
                (if |fields| > 1 && fields[1] != NullText then Some(fields[1]) else None)
              else if key == UndefinedKey then
                (if |fields| > 2 then LastKept(fields[2..]) else None)
              else None
  {
    var r0 := if |fields| > 0 then Kept(Properties[0], fields[0]) else [];
    var r1 := if |fields| > 1 then Kept(Properties[1], fields[1]) else [];
    var r2 := if |fields| > 2 && LastKept(fields[2..]).Some?
              then [Entry(UndefinedKey, LastKept(fields[2..]).value)] else [];
    assert ExpectedEntries(fields) == r0 + r1 + r2;
    LookupAppend(r0 + r1, r2, key);
    LookupAppend(r0, r1, key);
  }

  /** No stored value is `null`; the keys come in the order `observation_date`,
      `icsa`, `undefined`, so none of them occurs twice. */
  lemma ExpectedEntriesOrdered(fields: seq<string>)
    ensures forall i :: 0 <= i < |ExpectedEntries(fields)| ==> ExpectedEntries(fields)[i].value != NullText
    ensures forall i, j :: 0 <= i < j < |ExpectedEntries(fields)| ==>
              KeyRank(ExpectedEntries(fields)[i].key) < KeyRank(ExpectedEntries(fields)[j].key)
    ensures DistinctKeys(ExpectedEntries(fields))
  {
    var r0 := if |fields| > 0 then Kept(Properties[0], fields[0]) else [];
    var r1 := if |fields| > 1 then Kept(Properties[1], fields[1]) else [];
    var r2 := if |fields| > 2 && LastKept(fields[2..]).Some?
              then [Entry(UndefinedKey, LastKept(fields[2..]).value)] else [];
    assert ExpectedEntries(fields) == r0 + r1 + r2;
    var entries := r0 + r1 + r2;
    forall i | 0 <= i < |entries|
      ensures entries[i].value != NullText
      ensures KeyRank(entries[i].key) == (if i < |r0| then 0 else if i < |r0| + |r1| then 1 else 2)
    {
      if i < |r0| {
        assert entries[i] == r0[i];
      } else if i < |r0| + |r1| {
        assert entries[i] == r1[i - |r0|];
      } else {
        assert entries[i] == r2[i - |r0| - |r1|];
      }
    }
  }

  /** An empty line is one empty field, stored under `observation_date`. */
  lemma EmptyLineEntries()
    ensures ExpectedJson("") == Stringify([Entry("observation_date", "")])
  {
    SplitWithoutComma("");
    assert ExpectedEntries([""]) == [Entry("observation_date", "")];
  }

  /** The single property `observation_date` with an empty value, as JSON. */
  lemma EmptyLineText()
    ensures Stringify([Entry("observation_date", "")]) == "{\"observation_date\":\"\"}"
  {
    var key := "observation_date";
    assert "{\"" + key + "\":\"" + "" + "\"}" == "{\"observation_date\":\"\"}";
    StringifyPlainSingle(key, "");
  }

  /** An empty line is one empty field: only `observation_date` is stored,
      with the empty string as its value. */
  lemma EmptyLine()
    ensures ExpectedJson("") == "{\"observation_date\":\"\"}"
  {
    EmptyLineEntries();
    EmptyLineText();
  }

  /** The line `null` is one `null` field: nothing is stored. */
  lemma NullLine()
    ensures ExpectedJson("null") == "{}"
  {
    SplitWithoutComma("null");
    assert ExpectedEntries(["null"]) == [];
  }

  /** The UDF as written: split, then walk the fields with a counter, assigning
      each non-`null` field to its key on an initially empty object, then
      stringify. It accepts every line and always returns a JSON object text
      that reads back as exactly the expected properties. */
  method TransformCsvToJson(line: string) returns (jsonString: string)
    ensures jsonString == ExpectedJson(line)
    ensures ParseObject(jsonString) == Some(ExpectedEntries(Split(line)))
  {
    var values := Split(line);
    var record := new JsObject();
    var count := 0;
    while count < |values|
      invariant count <= |values|
      invariant record.Valid()
      invariant record.Entries() == ExpectedEntries(values[..count])
    {
      var field := values[count];
      if field != NullText {
        record.Set(PropertyKey(count), field);
        AssignField(values, count);
      } else {
        SkipNullField(values, count);
      }
      count := count + 1;
    }
    assert values[..count] == values;
    var entries := record.Entries();
    jsonString := Stringify(entries);
    StringifyRoundTrip(entries);
  }
}
