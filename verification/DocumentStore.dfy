// Insertion-ordered storage in two maps (typeferry-ts/src/minimongo/document-store.ts).  A
// JavaScript Map is a sequence of fields with distinct keys: setting a present key keeps its place.
module DocumentStore {
  import opened Results
  import opened Fields
  import opened ValueOrder

  // Map.delete
  function Drop<T>(fields: seq<Field<T>>, key: string): seq<Field<T>> {
    if fields == [] then []
    else if fields[0].key == key then fields[1..]
    else [fields[0]] + Drop(fields[1..], key)
  }

  function DropKey(keys: seq<string>, key: string): seq<string> {
    if keys == [] then [] else if keys[0] == key then keys[1..] else [keys[0]] + DropKey(keys[1..], key)
  }

  // The identity map that goes with a list of keys: the string codec leaves an id as it is.
  function Identities(keys: seq<string>): (r: seq<Field<string>>)
    ensures |r| == |keys| && Keys(r) == keys
  {
    seq(|keys|, i requires 0 <= i < |keys| => Field(keys[i], keys[i]))
  }

  function Values(fields: seq<Field<Value>>): (r: seq<Value>)
    ensures |r| == |fields|
  {
    seq(|fields|, i requires 0 <= i < |fields| => fields[i].value)
  }

  lemma {:induction false} DropKeys<T(!new)>(fields: seq<Field<T>>, key: string)
    ensures Keys(Drop(fields, key)) == DropKey(Keys(fields), key)
  {
    if fields != [] {
      assert Keys(fields) == [fields[0].key] + Keys(fields[1..]);
      DropKeys(fields[1..], key);
      if fields[0].key != key {
        var dropped := Drop(fields, key);
        assert Keys(dropped) == [dropped[0].key] + Keys(dropped[1..]);
        assert dropped[1..] == Drop(fields[1..], key);
      }
    }
  }

  lemma {:induction false} DropKeyMembers(keys: seq<string>, key: string)
    requires Distinct(keys)
    ensures Distinct(DropKey(keys, key))
    ensures forall k :: k in DropKey(keys, key) <==> k in keys && k != key
    ensures key in keys <==> |DropKey(keys, key)| < |keys|
    ensures key !in keys ==> DropKey(keys, key) == keys
  {
    if keys != [] {
      assert keys == [keys[0]] + keys[1..];
      DropKeyMembers(keys[1..], key);
      var rest := DropKey(keys[1..], key);
      forall j | 0 <= j < |rest|
        ensures rest[j] != keys[0]
      {
        assert rest[j] in keys[1..];
      }
    }
  }

  lemma {:induction false} DropSuffix<T(!new)>(prefix: seq<Field<T>>, f: Field<T>, rest: seq<Field<T>>)
    requires f.key !in Keys(prefix)
    ensures Drop(prefix + [f] + rest, f.key) == prefix + rest
  {
    var whole := prefix + [f] + rest;
    if prefix == [] {
      assert whole == [f] + rest && prefix + rest == rest;
    } else {
      assert Keys(prefix) == [prefix[0].key] + Keys(prefix[1..]);
      assert whole[1..] == prefix[1..] + [f] + rest;
      DropSuffix(prefix[1..], f, rest);
      assert prefix + rest == [prefix[0]] + (prefix[1..] + rest);
    }
  }

  lemma {:induction false} PutInside<T(!new)>(prefix: seq<Field<T>>, f: Field<T>, rest: seq<Field<T>>, value: T)
    requires f.key !in Keys(prefix)
    ensures Put(prefix + [f] + rest, f.key, value) == prefix + [Field(f.key, value)] + rest
  {
    var whole := prefix + [f] + rest;
    if prefix == [] {
      assert whole == [f] + rest && whole[1..] == rest;
    } else {
      assert Keys(prefix) == [prefix[0].key] + Keys(prefix[1..]);
      assert whole[1..] == prefix[1..] + [f] + rest;
      PutInside(prefix[1..], f, rest, value);
      assert prefix + [Field(f.key, value)] + rest == [prefix[0]] + (prefix[1..] + [Field(f.key, value)] + rest);
    }
  }

  lemma {:induction false} PutIdentity(keys: seq<string>, key: string)
    ensures Put(Identities(keys), key, key) == Identities(if key in keys then keys else keys + [key])
  {
    var fields := Identities(keys);
    if keys != [] {
      assert fields[1..] == Identities(keys[1..]);
      assert keys == [keys[0]] + keys[1..];
      PutIdentity(keys[1..], key);
    }
  }

  lemma {:induction false} DropIdentity(keys: seq<string>, key: string)
    ensures Drop(Identities(keys), key) == Identities(DropKey(keys, key))
  {
    if keys != [] {
      assert Identities(keys)[1..] == Identities(keys[1..]);
      DropIdentity(keys[1..], key);
    }
  }

  lemma PutDistinct<T(!new)>(fields: seq<Field<T>>, key: string, value: T)
    requires Distinct(Keys(fields))
    ensures Distinct(Keys(Put(fields, key, value)))
  {
    PutKeys(fields, key, value);
  }

  class MemoryDocumentStore {
    var documents: seq<Field<Value>>
    var identities: seq<Field<string>>

    // The two maps hold the same keys, in the same order.
    ghost predicate Valid()
      reads this
    {
      Distinct(Keys(documents)) && identities == Identities(Keys(documents))
    }

    constructor ()
      ensures Valid() && documents == []
    {
      documents, identities := [], [];
    }

    method Has(id: string) returns (found: bool)
      ensures found == (id in Keys(documents))
    {
      found := id in Keys(documents);
    }

    method Set(id: string, document: Value)
      requires Valid()
      modifies this
      ensures Valid() && documents == Put(old(documents), id, document)
    {
      PutIdentity(Keys(documents), id);
      PutKeys(documents, id, document);
      PutDistinct(documents, id, document);
      identities := Put(identities, id, id);
      documents := Put(documents, id, document);
    }

    method Delete(id: string) returns (existed: bool)
      requires Valid()
      modifies this
      ensures Valid() && documents == Drop(old(documents), id) && existed == (id in Keys(old(documents)))
    {
      DropIdentity(Keys(documents), id);
      DropKeys(documents, id);
      DropKeyMembers(Keys(documents), id);
      identities := Drop(identities, id);
      var kept := Drop(documents, id);
      existed := |kept| < |documents|;
      documents := kept;
    }

    method Clear()
      modifies this
      ensures Valid() && documents == []
    {
      documents, identities := [], [];
    }

    // Skips a document whose identity is missing; Valid says there is none.
    method Entries() returns (docs: seq<Value>)
      requires Valid()
      ensures docs == Values(documents)
    {
      docs := [];
      for i := 0 to |documents|
        invariant docs == Values(documents)[..i]
      {
        LookupAt(identities, i);
        var id := Lookup(identities, documents[i].key);
        if id.Some? {
          docs := docs + [documents[i].value];
        }
      }
    }
  }
}
