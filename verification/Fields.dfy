// Objects as sequences of keyed fields, and sorting them by key.
module Fields {
  import opened Results
  import opened Text

  datatype Field<T> = Field(key: string, value: T)

  function Keys<T>(fields: seq<Field<T>>): (keys: seq<string>)
    ensures |keys| == |fields|
  {
    seq(|fields|, i requires 0 <= i < |fields| => fields[i].key)
  }

  predicate Distinct(keys: seq<string>) {
    forall i, j :: 0 <= i < j < |keys| ==> keys[i] != keys[j]
  }

  function Lookup<T>(fields: seq<Field<T>>, key: string): Option<T> {
    if fields == [] then None
    else if fields[0].key == key then Some(fields[0].value)
    else Lookup(fields[1..], key)
  }

  lemma {:induction false} LookupAt<T(!new)>(fields: seq<Field<T>>, i: nat)
    requires i < |fields| && Distinct(Keys(fields))
    ensures Lookup(fields, fields[i].key) == Some(fields[i].value)
  {
    if i > 0 {
      assert Keys(fields)[0] != Keys(fields)[i];
      assert Keys(fields[1..]) == Keys(fields)[1..];
      LookupAt(fields[1..], i - 1);
    }
  }

  lemma {:induction false} LookupFinds<T(!new)>(fields: seq<Field<T>>, key: string) returns (i: nat)
    requires Lookup(fields, key).Some?
    ensures i < |fields| && fields[i] == Field(key, Lookup(fields, key).value)
  {
    if fields[0].key == key {
      i := 0;
    } else {
      i := LookupFinds(fields[1..], key);
      i := i + 1;
    }
  }

  lemma {:induction false} NotFound<T(!new)>(fields: seq<Field<T>>, key: string)
    requires key !in Keys(fields)
    ensures Lookup(fields, key) == None
  {
    if fields != [] {
      assert Keys(fields) == [fields[0].key] + Keys(fields[1..]);
      NotFound(fields[1..], key);
    }
  }

  lemma {:induction false} LookupSnoc<T(!new)>(front: seq<Field<T>>, last: Field<T>, key: string)
    requires last.key !in Keys(front)
    ensures Lookup(front + [last], key) == if key == last.key then Some(last.value) else Lookup(front, key)
  {
    if front != [] {
      assert Keys(front) == [front[0].key] + Keys(front[1..]);
      assert (front + [last])[1..] == front[1..] + [last];
      LookupSnoc(front[1..], last, key);
      assert front[0].key != last.key;
    }
  }

  lemma FrontKeys<T(!new)>(fields: seq<Field<T>>)
    requires fields != [] && Distinct(Keys(fields))
    ensures var front := fields[..|fields| - 1];
            Distinct(Keys(front)) && fields[|fields| - 1].key !in Keys(front)
  {
    var front := fields[..|fields| - 1];
    forall i | 0 <= i < |front|
      ensures Keys(front)[i] == Keys(fields)[i] != Keys(fields)[|front|]
    {
    }
  }

  // Keys that all occur among as many others leave none of those out.
  lemma {:induction false} SameKeySet(a: seq<string>, b: seq<string>)
    requires Distinct(a) && |a| == |b| && forall k :: k in a ==> k in b
    ensures forall k :: k in b ==> k in a
  {
    if a != [] {
      var last := a[|a| - 1];
      assert last in a && last in b;
      var j :| 0 <= j < |b| && b[j] == last;
      var rest := b[..j] + b[j + 1..];
      forall k | k in a[..|a| - 1]
        ensures k in rest
      {
        var i :| 0 <= i < |a| - 1 && a[i] == k;
        assert a[i] != a[|a| - 1] && a[i] in b;
        var m :| 0 <= m < |b| && b[m] == k;
        assert if m < j then rest[m] == k else rest[m - 1] == k;
      }
      SameKeySet(a[..|a| - 1], rest);
      forall k | k in b
        ensures k in a
      {
        var m :| 0 <= m < |b| && b[m] == k;
        if m != j {
          assert if m < j then rest[m] == k else rest[m - 1] == k;
          assert k in a[..|a| - 1];
        }
      }
    }
  }

  lemma {:induction false} DistinctFit(a: seq<string>, b: seq<string>)
    requires Distinct(a) && forall k :: k in a ==> k in b
    ensures |a| <= |b|
  {
    if a != [] {
      var last := a[|a| - 1];
      assert last in a;
      var j :| 0 <= j < |b| && b[j] == last;
      var rest := b[..j] + b[j + 1..];
      forall k | k in a[..|a| - 1]
        ensures k in rest
      {
        var i :| 0 <= i < |a| - 1 && a[i] == k;
        assert a[i] != a[|a| - 1] && a[i] in b;
        var m :| 0 <= m < |b| && b[m] == k;
        assert if m < j then rest[m] == k else rest[m - 1] == k;
      }
      DistinctFit(a[..|a| - 1], rest);
    }
  }

  // So fields that all occur among as many others, all under different keys, are those others.
  lemma SameFields<T(!new)>(a: seq<Field<T>>, b: seq<Field<T>>)
    requires Distinct(Keys(a)) && Distinct(Keys(b)) && |a| == |b| && forall x :: x in a ==> x in b
    ensures forall x :: x in b ==> x in a
  {
    forall k | k in Keys(a)
      ensures k in Keys(b)
    {
      var i :| 0 <= i < |a| && Keys(a)[i] == k;
      assert a[i] in b;
      var j :| 0 <= j < |b| && b[j] == a[i];
      assert Keys(b)[j] == k;
    }
    SameKeySet(Keys(a), Keys(b));
    forall x | x in b
      ensures x in a
    {
      var j :| 0 <= j < |b| && b[j] == x;
      assert Keys(b)[j] in Keys(a);
      var i :| 0 <= i < |a| && Keys(a)[i] == x.key;
      assert a[i] in b;
      var m :| 0 <= m < |b| && b[m] == a[i];
      assert Keys(b)[m] == Keys(b)[j];
    }
  }

  // Appending a field the way JSON.parse does: a repeated key keeps its first position.
  function Put<T>(fields: seq<Field<T>>, key: string, value: T): seq<Field<T>> {
    if fields == [] then [Field(key, value)]
    else if fields[0].key == key then [Field(key, value)] + fields[1..]
    else [fields[0]] + Put(fields[1..], key, value)
  }

  lemma {:induction false} PutAppends<T(!new)>(fields: seq<Field<T>>, key: string, value: T)
    requires key !in Keys(fields)
    ensures Put(fields, key, value) == fields + [Field(key, value)]
  {
    if fields != [] {
      assert Keys(fields) == [fields[0].key] + Keys(fields[1..]);
      PutAppends(fields[1..], key, value);
      assert fields == [fields[0]] + fields[1..];
    }
  }

  lemma {:induction false} PutPresent<T(!new)>(fields: seq<Field<T>>, key: string, value: T)
    requires key in Keys(fields)
    ensures Keys(Put(fields, key, value)) == Keys(fields)
  {
    assert Keys(fields) == [fields[0].key] + Keys(fields[1..]);
    var put := Put(fields, key, value);
    assert Keys(put) == [put[0].key] + Keys(put[1..]);
    if fields[0].key != key {
      PutPresent(fields[1..], key, value);
      assert put[1..] == Put(fields[1..], key, value);
    }
  }

  lemma PutKeys<T(!new)>(fields: seq<Field<T>>, key: string, value: T)
    ensures Keys(Put(fields, key, value)) == (if key in Keys(fields) then Keys(fields) else Keys(fields) + [key])
    ensures key !in Keys(fields) ==> Put(fields, key, value) == fields + [Field(key, value)]
  {
    hide Put;
    if key in Keys(fields) {
      PutPresent(fields, key, value);
    } else {
      PutAppends(fields, key, value);
    }
  }

  lemma {:induction false} PutLooks<T(!new)>(fields: seq<Field<T>>, key: string, value: T, k: string)
    ensures Lookup(Put(fields, key, value), k) == if k == key then Some(value) else Lookup(fields, k)
  {
    if fields != [] && fields[0].key != key {
      PutLooks(fields[1..], key, value, k);
    }
  }

  function MapFields<T, U>(fields: seq<Field<T>>, h: T -> U): (r: seq<Field<U>>)
    ensures |r| == |fields| && Keys(r) == Keys(fields)
  {
    seq(|fields|, i requires 0 <= i < |fields| => Field(fields[i].key, h(fields[i].value)))
  }

  /* ---------- Sorting by key ---------- */

  function Insert<T>(f: Field<T>, sorted: seq<Field<T>>): seq<Field<T>> {
    if sorted == [] || Less(f.key, sorted[0].key) then [f] + sorted
    else [sorted[0]] + Insert(f, sorted[1..])
  }

  function Sort<T>(fields: seq<Field<T>>): seq<Field<T>> {
    if fields == [] then [] else Insert(fields[0], Sort(fields[1..]))
  }

  predicate Ascending<T>(fields: seq<Field<T>>) {
    forall i, j :: 0 <= i < j < |fields| ==> Less(fields[i].key, fields[j].key)
  }

  lemma {:induction false} InsertMembers<T(!new)>(f: Field<T>, sorted: seq<Field<T>>)
    ensures |Insert(f, sorted)| == |sorted| + 1
    ensures forall g :: g in Insert(f, sorted) <==> g == f || g in sorted
  {
    if sorted != [] && !Less(f.key, sorted[0].key) {
      InsertMembers(f, sorted[1..]);
      assert sorted == [sorted[0]] + sorted[1..];
    }
  }

  lemma {:induction false} InsertAscending<T(!new)>(f: Field<T>, sorted: seq<Field<T>>)
    requires Ascending(sorted) && forall g :: g in sorted ==> g.key != f.key
    ensures Ascending(Insert(f, sorted))
  {
    hide Less;
    if sorted == [] {
    } else if Less(f.key, sorted[0].key) {
      forall j | 0 < j < |sorted|
        ensures Less(f.key, sorted[j].key)
      {
        LessTransitive(f.key, sorted[0].key, sorted[j].key);
      }
    } else {
      var rest := sorted[1..];
      var ins := Insert(f, rest);
      InsertAscending(f, rest);
      InsertMembers(f, rest);
      LessTrichotomy(f.key, sorted[0].key);
      forall j | 0 <= j < |ins|
        ensures Less(sorted[0].key, ins[j].key)
      {
        assert ins[j] in ins;
        if ins[j] != f {
          var i :| 0 <= i < |rest| && rest[i] == ins[j];
          assert sorted[i + 1] == ins[j];
        }
      }
    }
  }

  lemma {:induction false} SortMembers<T(!new)>(fields: seq<Field<T>>)
    ensures |Sort(fields)| == |fields|
    ensures forall f :: f in Sort(fields) <==> f in fields
  {
    if fields != [] {
      SortMembers(fields[1..]);
      InsertMembers(fields[0], Sort(fields[1..]));
      assert fields == [fields[0]] + fields[1..];
    }
  }

  lemma {:induction false} SortAscending<T(!new)>(fields: seq<Field<T>>)
    requires Distinct(Keys(fields))
    ensures Ascending(Sort(fields))
  {
    if fields != [] {
      var rest := fields[1..];
      assert Keys(rest) == Keys(fields)[1..];
      SortAscending(rest);
      SortMembers(rest);
      forall g | g in Sort(rest)
        ensures g.key != fields[0].key
      {
        assert g in rest;
        var j :| 0 <= j < |rest| && rest[j] == g;
        assert Keys(fields)[j + 1] == g.key && Keys(fields)[0] == fields[0].key;
      }
      InsertAscending(fields[0], Sort(rest));
    }
  }

  lemma AscendingDistinct<T(!new)>(fields: seq<Field<T>>)
    requires Ascending(fields)
    ensures Distinct(Keys(fields))
  {
    forall i, j | 0 <= i < j < |fields|
      ensures fields[i].key != fields[j].key
    {
      LessTrichotomy(fields[i].key, fields[j].key);
    }
  }

  // A set of fields has one ascending arrangement.
  lemma {:induction false} AscendingUnique<T(!new)>(a: seq<Field<T>>, b: seq<Field<T>>)
    requires Ascending(a) && Ascending(b)
    requires forall f :: f in a <==> f in b
    ensures a == b
  {
    assert a != [] ==> a[0] in b;
    assert b != [] ==> b[0] in a;
    if a != [] {
      LessTrichotomy(a[0].key, b[0].key);
      assert a[0] == b[0];
      forall f
        ensures f in a[1..] <==> f in b[1..]
      {
        LessTrichotomy(a[0].key, a[0].key);
        assert f in a <==> f == a[0] || f in a[1..];
        assert f in b <==> f == b[0] || f in b[1..];
      }
      AscendingUnique(a[1..], b[1..]);
      assert a == [a[0]] + a[1..] && b == [b[0]] + b[1..];
    }
  }

  lemma {:induction false} InsertMap<T(!new), U(!new)>(f: Field<T>, sorted: seq<Field<T>>, h: T -> U)
    ensures MapFields(Insert(f, sorted), h) == Insert(Field(f.key, h(f.value)), MapFields(sorted, h))
  {
    if sorted != [] && !Less(f.key, sorted[0].key) {
      InsertMap(f, sorted[1..], h);
      assert MapFields(sorted, h)[1..] == MapFields(sorted[1..], h);
      assert MapFields([sorted[0]] + Insert(f, sorted[1..]), h)
          == [Field(sorted[0].key, h(sorted[0].value))] + MapFields(Insert(f, sorted[1..]), h);
    } else {
      assert MapFields([f] + sorted, h) == [Field(f.key, h(f.value))] + MapFields(sorted, h);
    }
  }

  lemma {:induction false} SortMap<T(!new), U(!new)>(fields: seq<Field<T>>, h: T -> U)
    ensures Sort(MapFields(fields, h)) == MapFields(Sort(fields), h)
  {
    if fields != [] {
      SortMap(fields[1..], h);
      InsertMap(fields[0], Sort(fields[1..]), h);
      assert MapFields(fields, h)[1..] == MapFields(fields[1..], h);
    }
  }
}
