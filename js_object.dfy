/** An ordinary JavaScript object used as a record of string-valued data
    properties. For the string keys this UDF uses (`observation_date`, `icsa`
    and `undefined`), assigning `obj[key] = value` overwrites an existing
    property where it stands and adds a new one after all others, so the own
    keys keep their first-insertion order, which is also the order in which
    `JSON.stringify` visits them. Array-index keys, which come first in numeric
    order, and `__proto__`, whose assignment calls an inherited setter, behave
    otherwise and never occur here. */
module JsObjects {
  import opened Optional
  import opened JsonText

  /** Value stored under `key`, if any. */
  function Lookup(entries: seq<Entry>, key: string): (r: Option<string>)
    ensures r.None? <==> forall i :: 0 <= i < |entries| ==> entries[i].key != key
    ensures r.Some? ==> exists i :: 0 <= i < |entries| && entries[i] == Entry(key, r.value)
                                  && forall j :: 0 <= j < i ==> entries[j].key != key
  {
    if |entries| == 0 then None
    else if entries[0].key == key then Some(entries[0].value)
    else Lookup(entries[1..], key)
  }

  /** Looking up in two runs of properties: the first run is searched first. */
  lemma {:induction false} LookupAppend(a: seq<Entry>, b: seq<Entry>, key: string)
    ensures Lookup(a + b, key) == if Lookup(a, key).Some? then Lookup(a, key) else Lookup(b, key)
  {
    if |a| > 0 {
      LookupAppend(a[1..], b, key);
      assert (a + b)[0] == a[0];
      assert (a + b)[1..] == a[1..] + b;
      assert Lookup(a + b, key) == (if a[0].key == key then Some(a[0].value) else Lookup((a + b)[1..], key));
    } else {
      assert a + b == b;
    }
  }

  ghost predicate DistinctKeys(entries: seq<Entry>)
  {
    forall i, j :: 0 <= i < j < |entries| ==> entries[i].key != entries[j].key
  }

  /** The abstract effect of `obj[key] = value` on the object's own properties
      in order: the first property with that key gets the new value in place;
      without one, the property is added at the end. */
  function Put(entries: seq<Entry>, key: string, value: string): (r: seq<Entry>)
    ensures |r| == |entries| <==> exists i :: 0 <= i < |entries| && entries[i].key == key
    ensures |r| == |entries| + 1 <==> forall i :: 0 <= i < |entries| ==> entries[i].key != key
  {
    if |entries| == 0 then [Entry(key, value)]
    else if entries[0].key == key then [Entry(key, value)] + entries[1..]
    else [entries[0]] + Put(entries[1..], key, value)
  }

  /** A key the object does not have yet is added after all existing ones. */
  lemma {:induction false} PutAppendsNewKey(entries: seq<Entry>, key: string, value: string)
    requires forall i :: 0 <= i < |entries| ==> entries[i].key != key
    ensures Put(entries, key, value) == entries + [Entry(key, value)]
  {
    if |entries| > 0 {
      PutAppendsNewKey(entries[1..], key, value);
      assert [entries[0]] + (entries[1..] + [Entry(key, value)]) == entries + [Entry(key, value)];
    }
  }

  /** A key the object has keeps its position; only its value changes. */
  lemma {:induction false} PutOverwritesInPlace(entries: seq<Entry>, key: string, value: string, i: nat)
    requires i < |entries| && entries[i].key == key
    requires forall j :: 0 <= j < i ==> entries[j].key != key
    ensures Put(entries, key, value) == entries[i := Entry(key, value)]
  {
    if i > 0 {
      PutOverwritesInPlace(entries[1..], key, value, i - 1);
      assert [entries[0]] + entries[1..][i - 1 := Entry(key, value)] == entries[i := Entry(key, value)];
    }
  }

  /** After the assignment the key reads back the new value and every other
      key reads back what it did before. */
  lemma {:induction false} PutLookup(entries: seq<Entry>, key: string, value: string, other: string)
    ensures Lookup(Put(entries, key, value), key) == Some(value)
    ensures other != key ==> Lookup(Put(entries, key, value), other) == Lookup(entries, other)
  {
    if |entries| > 0 && entries[0].key != key {
      PutLookup(entries[1..], key, value, other);
      var r := Put(entries, key, value);
      assert r[1..] == Put(entries[1..], key, value);
    } else if |entries| > 0 {
      var r := Put(entries, key, value);
      assert r[1..] == entries[1..];
    }
  }

  /** An object never holds two properties with the same key. */
  lemma PutKeepsDistinct(entries: seq<Entry>, key: string, value: string)
    requires DistinctKeys(entries)
    ensures DistinctKeys(Put(entries, key, value))
  {
    if i :| 0 <= i < |entries| && entries[i].key == key {
      PutOverwritesInPlace(entries, key, value, i);
    } else {
      PutAppendsNewKey(entries, key, value);
    }
  }

  /** The properties named by `keys`, in that order, with their values. */
  function EntriesOf(keys: seq<string>, props: map<string, string>): (entries: seq<Entry>)
    requires forall k :: k in keys ==> k in props
    ensures |entries| == |keys|
    ensures forall i :: 0 <= i < |keys| ==> entries[i] == Entry(keys[i], props[keys[i]])
  {
    if |keys| == 0 then [] else [Entry(keys[0], props[keys[0]])] + EntriesOf(keys[1..], props)
  }

  /** The representation invariant of a `JsObject`: each key listed once, and
      exactly the listed keys carry a value. */
  ghost predicate WellFormed(keys: seq<string>, props: map<string, string>)
  {
    && (forall i, j :: 0 <= i < j < |keys| ==> keys[i] != keys[j])
    && (forall k :: k in keys <==> k in props)
  }

  /** Assigning a key the object lacks appends it to the key order. */
  lemma AssignNewKey(keys: seq<string>, props: map<string, string>, key: string, value: string)
    requires WellFormed(keys, props) && key !in props
    ensures WellFormed(keys + [key], props[key := value])
    ensures EntriesOf(keys + [key], props[key := value]) == Put(EntriesOf(keys, props), key, value)
  {
    var after := EntriesOf(keys + [key], props[key := value]);
    var before := EntriesOf(keys, props);
    forall i | 0 <= i < |keys| ensures after[i] == before[i] {
      assert (keys + [key])[i] == keys[i];
    }
    assert after == before + [Entry(key, value)];
    PutAppendsNewKey(before, key, value);
  }

  lemma EntriesOfNewValue(keys: seq<string>, props: map<string, string>, key: string, value: string, i: nat)
    requires forall k :: k in keys ==> k in props
    requires forall j, l :: 0 <= j < l < |keys| ==> keys[j] != keys[l]
    requires i < |keys| && keys[i] == key
    ensures EntriesOf(keys, props[key := value]) == EntriesOf(keys, props)[i := Entry(key, value)]
  {
    var before := EntriesOf(keys, props);
    var after := EntriesOf(keys, props[key := value]);
    var expected := before[i := Entry(key, value)];
    forall j | 0 <= j < |keys| ensures after[j] == expected[j] {
      if j != i {
        assert keys[j] != keys[i];
        assert props[key := value][keys[j]] == props[keys[j]];
      }
    }
    assert |after| == |expected|;
  }

  /** Assigning a key the object has changes its value where it stands. */
  lemma AssignExistingKey(keys: seq<string>, props: map<string, string>, key: string, value: string)
    requires WellFormed(keys, props) && key in props
    ensures WellFormed(keys, props[key := value])
    ensures EntriesOf(keys, props[key := value]) == Put(EntriesOf(keys, props), key, value)
  {
    var i :| 0 <= i < |keys| && keys[i] == key;
    AssignAt(keys, props, key, value, i);
    var updated := props[key := value];
    forall k ensures k in keys <==> k in updated {
      assert k in updated <==> k in props;
    }
  }

  lemma AssignAt(keys: seq<string>, props: map<string, string>, key: string, value: string, i: nat)
    requires WellFormed(keys, props)
    requires i < |keys| && keys[i] == key
    ensures EntriesOf(keys, props[key := value]) == Put(EntriesOf(keys, props), key, value)
  {
    var before := EntriesOf(keys, props);
    EntriesOfNewValue(keys, props, key, value, i);
    forall j | 0 <= j < i ensures before[j].key != key {
      assert keys[j] != keys[i];
    }
    PutOverwritesInPlace(before, key, value, i);
  }

  class JsObject {
    /** Own property keys, in insertion order. */
    var keys: seq<string>
    /** Own property values. */
    var props: map<string, string>

    ghost predicate Valid()
      reads this
    {
      WellFormed(keys, props)
    }

    /** The object's own properties, in the order `JSON.stringify` lists them. */
    function Entries(): (entries: seq<Entry>)
      reads this
      requires Valid()
      ensures DistinctKeys(entries)
    {
      EntriesOf(keys, props)
    }

    /** `{}` */
    constructor ()
      ensures Valid() && Entries() == []
    {
      keys := [];
      props := map[];
    }

    /** `this[key] = value` */
    method Set(key: string, value: string)
      requires Valid()
      modifies this
      ensures Valid()
      ensures Entries() == Put(old(Entries()), key, value)
    {
      if key !in props {
        AssignNewKey(keys, props, key, value);
        keys := keys + [key];
      } else {
        AssignExistingKey(keys, props, key, value);
      }
      props := props[key := value];
    }
  }
}
