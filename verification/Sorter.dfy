// Sort keys and the document comparator (typeferry-ts/src/minimongo/sorter.ts).
module Sorter {
  import opened Results
  import opened Fields
  import opened ValueOrder
  import opened Path

  // A sort path split at its dots, and its direction.
  datatype Part = Part(path: seq<string>, ascending: bool)

  datatype Thrown = MultipleBranches | DuplicatePath | ParallelArrays

  datatype KeyResult = Key(key: seq<Value>) | Throws(error: Thrown)

  datatype OrderResult = Ordered(sign: int) | Fails(error: Thrown)

  /* ---------- Comparing keys ---------- */

  function CompareKeys(parts: seq<Part>, l: seq<Value>, r: seq<Value>): int
    requires |l| == |r| == |parts|
    decreases |parts|
  {
    if parts == [] then 0
    else
      var compared := Compare(l[0], r[0]);
      if compared != 0 then (if parts[0].ascending then compared else -compared)
      else CompareKeys(parts[1..], l[1..], r[1..])
  }

  method CompareSortKeys(parts: seq<Part>, l: seq<Value>, r: seq<Value>) returns (c: int)
    requires |l| == |r| == |parts|
    ensures c == CompareKeys(parts, l, r)
  {
    hide Compare;
    for index := 0 to |parts|
      invariant CompareKeys(parts, l, r) == CompareKeys(parts[index..], l[index..], r[index..])
    {
      var compared := CompareValues(l[index], r[index]);
      if compared != 0 {
        return if parts[index].ascending then compared else -compared;
      }
      assert parts[index..][1..] == parts[index + 1..];
      assert l[index..][1..] == l[index + 1..] && r[index..][1..] == r[index + 1..];
    }
    return 0;
  }

  ghost predicate SaneKey(k: seq<Value>) {
    forall i :: 0 <= i < |k| ==> Sane(k[i])
  }

  lemma {:induction false} KeysZero(parts: seq<Part>, l: seq<Value>, r: seq<Value>)
    requires |l| == |r| == |parts| && SaneKey(l) && SaneKey(r)
    ensures CompareKeys(parts, l, r) == 0 <==> l == r
    decreases |parts|
  {
    hide Compare;
    if parts != [] {
      ZeroIsEqual(l[0], r[0]);
      KeysZero(parts[1..], l[1..], r[1..]);
      assert l == [l[0]] + l[1..] && r == [r[0]] + r[1..];
    }
  }

  lemma {:induction false} KeysAntisymmetric(parts: seq<Part>, l: seq<Value>, r: seq<Value>)
    requires |l| == |r| == |parts| && SaneKey(l) && SaneKey(r)
    ensures CompareKeys(parts, l, r) == -CompareKeys(parts, r, l)
    decreases |parts|
  {
    hide Compare;
    if parts != [] {
      Antisymmetric(l[0], r[0]);
      KeysAntisymmetric(parts[1..], l[1..], r[1..]);
    }
  }

  lemma {:induction false} KeysTransitive(parts: seq<Part>, a: seq<Value>, b: seq<Value>, c: seq<Value>)
    requires |a| == |b| == |c| == |parts| && SaneKey(a) && SaneKey(b) && SaneKey(c)
    requires CompareKeys(parts, a, b) <= 0 && CompareKeys(parts, b, c) <= 0
    ensures CompareKeys(parts, a, c) <= 0
    decreases |parts|
  {
    hide Compare;
    if parts != [] {
      ZeroIsEqual(a[0], b[0]);
      ZeroIsEqual(b[0], c[0]);
      ZeroIsEqual(a[0], c[0]);
      if a[0] == b[0] == c[0] {
        KeysTransitive(parts[1..], a[1..], b[1..], c[1..]);
      } else if parts[0].ascending {
        AtMostTransitive(a[0], b[0], c[0]);
      } else {
        Antisymmetric(a[0], b[0]);
        Antisymmetric(b[0], c[0]);
        Antisymmetric(a[0], c[0]);
        AtMostTransitive(c[0], b[0], a[0]);
      }
    }
  }

  /* ---------- The candidate keys of a document ---------- */

  function KeyOf(b: Branch): string {
    if b.indices.Some? then PathText(b.indices.value) else ""
  }

  function Found(doc: Value, path: seq<string>): seq<Branch> {
    var expanded := Expand(BranchAt(doc, path, None, true), true);
    if expanded != [] then expanded else [Branch(Undefined, false, None)]
  }

  function Entries(bs: seq<Branch>): (r: seq<Field<Value>>)
    ensures |r| == |bs|
  {
    seq(|bs|, i requires 0 <= i < |bs| => Field(KeyOf(bs[i]), bs[i].value))
  }

  // The values of one sort part by array path; the path is empty outside arrays.
  function Table(doc: Value, path: seq<string>): seq<Field<Value>> { Entries(Found(doc, path)) }

  predicate Plain(table: seq<Field<Value>>) { "" in Keys(table) }

  lemma FoundSeparates(doc: Value, path: seq<string>)
    ensures Separated(Found(doc, path)) && Found(doc, path) != []
  {
    LookupSeparates(doc, path);
    ExpandSeparates(BranchAt(doc, path, None, true));
  }

  lemma SeparatedEntries(bs: seq<Branch>)
    requires Separated(bs)
    ensures Distinct(Keys(Entries(bs)))
    ensures Plain(Entries(bs)) <==> |bs| == 1 && bs[0].indices == None
    ensures Plain(Entries(bs)) <==> exists i :: 0 <= i < |bs| && bs[i].indices == None
  {
    var keys := Keys(Entries(bs));
    if Spread(bs, []) {
      forall i | 0 <= i < |bs|
        ensures keys[i] != "" && bs[i].indices.Some?
      {
        assert Under(bs[i], []);
      }
      forall i, j | 0 <= i < j < |bs|
        ensures keys[i] != keys[j]
      {
        assert Apart(bs[i].indices.value, bs[j].indices.value);
        if keys[i] == keys[j] {
          PathTextInjective(bs[i].indices.value, bs[j].indices.value);
        }
      }
    } else {
      assert keys[0] == "";
    }
  }

  function Tables(parts: seq<Part>, doc: Value): (r: seq<seq<Field<Value>>>)
    ensures |r| == |parts|
  {
    seq(|parts|, i requires 0 <= i < |parts| => Table(doc, parts[i].path))
  }

  // The array paths of the first part that runs into an array.
  function Known(tables: seq<seq<Field<Value>>>): Option<seq<string>> {
    if tables == [] then None
    else
      var earlier := Known(tables[..|tables| - 1]);
      var last := tables[|tables| - 1];
      if earlier.Some? || Plain(last) then earlier else Some(Keys(last))
  }

  function Pick(table: seq<Field<Value>>, path: string): Value {
    if Plain(table) then FieldOf(table, "") else FieldOf(table, path)
  }

  function Candidate(tables: seq<seq<Field<Value>>>, path: string): (k: seq<Value>)
    ensures |k| == |tables|
  {
    seq(|tables|, i requires 0 <= i < |tables| => Pick(tables[i], path))
  }

  function Candidates(tables: seq<seq<Field<Value>>>): (ks: seq<seq<Value>>)
    ensures forall i :: 0 <= i < |ks| ==> |ks[i]| == |tables|
  {
    var known := Known(tables);
    if known == None then [Candidate(tables, "")]
    else seq(|known.value|, i requires 0 <= i < |known.value| => Candidate(tables, known.value[i]))
  }

  // All parts that run into arrays run into the same positions.
  ghost predicate Parallel(tables: seq<seq<Field<Value>>>) {
    forall i, j :: 0 <= i < |tables| && 0 <= j < |tables| && !Plain(tables[i]) && !Plain(tables[j]) ==>
      forall k :: k in Keys(tables[i]) ==> k in Keys(tables[j])
  }

  function Least(parts: seq<Part>, keys: seq<seq<Value>>): (k: seq<Value>)
    requires keys != [] && forall i :: 0 <= i < |keys| ==> |keys[i]| == |parts|
    ensures |k| == |parts|
  {
    if |keys| == 1 then keys[0]
    else
      var best := Least(parts, keys[..|keys| - 1]);
      var last := keys[|keys| - 1];
      if CompareKeys(parts, last, best) < 0 then last else best
  }

  lemma {:induction false} KnownNone(tables: seq<seq<Field<Value>>>)
    requires Known(tables) == None
    ensures forall i :: 0 <= i < |tables| ==> Plain(tables[i])
  {
    hide Plain;
    if tables != [] {
      KnownNone(tables[..|tables| - 1]);
    }
  }

  lemma {:induction false} KnownSome(tables: seq<seq<Field<Value>>>) returns (i: nat)
    requires Known(tables).Some?
    ensures i < |tables| && !Plain(tables[i]) && Keys(tables[i]) == Known(tables).value
  {
    hide Plain;
    var front := tables[..|tables| - 1];
    if Known(front).Some? {
      i := KnownSome(front);
    } else {
      i := |tables| - 1;
    }
  }

  lemma SaneTable(doc: Value, path: seq<string>)
    requires Sane(doc)
    ensures forall i :: 0 <= i < |Table(doc, path)| ==> Sane(Table(doc, path)[i].value)
  {
    BranchesSane(doc, path, None, true);
    ExpandSane(BranchAt(doc, path, None, true), true);
  }

  lemma SaneCandidate(parts: seq<Part>, doc: Value, path: string)
    requires Sane(doc)
    ensures SaneKey(Candidate(Tables(parts, doc), path))
  {
    var tables := Tables(parts, doc);
    forall i | 0 <= i < |tables|
      ensures Sane(Pick(tables[i], path))
    {
      SaneTable(doc, parts[i].path);
      var key := if Plain(tables[i]) then "" else path;
      if Lookup(tables[i], key).Some? {
        var j := LookupFinds(tables[i], key);
      }
    }
  }

  lemma CandidatesExist(parts: seq<Part>, doc: Value)
    ensures Candidates(Tables(parts, doc)) != []
  {
    var tables := Tables(parts, doc);
    if Known(tables).Some? {
      var i := KnownSome(tables);
      FoundSeparates(doc, parts[i].path);
    }
  }

  // The key a document sorts by, when its arrays allow one.
  ghost function SortKey(parts: seq<Part>, doc: Value): (k: Option<seq<Value>>)
    ensures k.Some? ==> |k.value| == |parts|
  {
    var tables := Tables(parts, doc);
    CandidatesExist(parts, doc);
    if Parallel(tables) then Some(Least(parts, Candidates(tables))) else None
  }

  /* ---------- documentKey as written ---------- */

  // One part: fills the map of values by array path.
  method PartValues(doc: Value, path: seq<string>, known: Option<seq<string>>)
    returns (thrown: Option<Thrown>, values: seq<Field<Value>>, usesArrayPath: bool)
    ensures thrown.None?
            <==> known.None? || Plain(Table(doc, path)) || forall k :: k in Keys(Table(doc, path)) ==> k in known.value
    ensures thrown.Some? ==> thrown.value == ParallelArrays
    ensures thrown.None? ==> values == Table(doc, path) && usesArrayPath == !Plain(Table(doc, path))
  {
    var found := CollectBranches(doc, path, None, true);
    var branches := ExpandArrays(found, true);
    if branches == [] {
      branches := [Branch(Undefined, false, None)];
    }
    FoundSeparates(doc, path);
    thrown, values, usesArrayPath := FillValues(branches, known);
  }

  method FillValues(branches: seq<Branch>, known: Option<seq<string>>)
    returns (thrown: Option<Thrown>, values: seq<Field<Value>>, usesArrayPath: bool)
    requires Separated(branches) && branches != []
    ensures thrown.None?
            <==> known.None? || Plain(Entries(branches))
                 || forall k :: k in Keys(Entries(branches)) ==> k in known.value
    ensures thrown.Some? ==> thrown.value == ParallelArrays
    ensures thrown.None? ==> values == Entries(branches) && usesArrayPath == !Plain(Entries(branches))
  {
    SeparatedEntries(branches);
    ghost var table := Entries(branches);
    hide Plain, Put, PathText, Distinct, Separated, Keys;
    thrown, values, usesArrayPath := None, [], false;
    for i := 0 to |branches|
      invariant values == table[..i]
      invariant usesArrayPath <==> i > 0 && !Plain(table)
      invariant known.Some? && !Plain(table) ==> forall j :: 0 <= j < i ==> table[j].key in known.value
    {
      var branch := branches[i];
      EntryGoesLast(table, i);
      if branch.indices == None {
        if |branches| > 1 {
          return Some(MultipleBranches), [], false;
        }
        values := Put(values, "", branch.value);
      } else {
        usesArrayPath := true;
        var arrayPath := PathText(branch.indices.value);
        if arrayPath in Keys(values) {
          return Some(DuplicatePath), [], false;
        }
        values := Put(values, arrayPath, branch.value);
        if known.Some? && arrayPath !in known.value {
          KeysAt(table, i);
          return Some(ParallelArrays), [], false;
        }
      }
    }
    assert table[..|branches|] == table;
    if known.Some? && !Plain(table) {
      KeysWithin(table, known.value);
    }
  }

  lemma KeysAt(table: seq<Field<Value>>, i: nat)
    requires i < |table|
    ensures table[i].key in Keys(table)
  {
    assert Keys(table)[i] == table[i].key;
  }

  lemma KeysWithin(table: seq<Field<Value>>, known: seq<string>)
    requires forall j :: 0 <= j < |table| ==> table[j].key in known
    ensures forall k :: k in Keys(table) ==> k in known
  {
  }

  lemma EntryGoesLast(table: seq<Field<Value>>, i: nat)
    requires Distinct(Keys(table)) && i < |table|
    ensures table[i].key !in Keys(table[..i]) && Put(table[..i], table[i].key, table[i].value) == table[..i + 1]
  {
    FreshEntry(table, i);
    PutKeys(table[..i], table[i].key, table[i].value);
    assert table[..i + 1] == table[..i] + [table[i]];
  }

  lemma FreshEntry(table: seq<Field<Value>>, i: nat)
    requires Distinct(Keys(table)) && i < |table|
    ensures table[i].key !in Keys(table[..i])
  {
    forall j | 0 <= j < i
      ensures Keys(table[..i])[j] != table[i].key
    {
      assert Keys(table)[j] != Keys(table)[i];
    }
  }

  // One more part keeps the arrays parallel exactly when its positions are the known ones.
  lemma OneMoreTable(tables: seq<seq<Field<Value>>>, t: seq<Field<Value>>)
    requires Parallel(tables)
    ensures Parallel(tables + [t]) <==>
              || Plain(t) || Known(tables).None?
              || (forall k :: k in Keys(t) <==> k in Known(tables).value)
    ensures Known(tables + [t]) == if Known(tables).Some? || Plain(t) then Known(tables) else Some(Keys(t))
  {
    hide Plain;
    var more := tables + [t];
    assert more[..|more| - 1] == tables;
    if Known(tables).None? {
      KnownNone(tables);
    } else {
      var i := KnownSome(tables);
      assert more[i] == tables[i] && more[|tables|] == t;
      if !Plain(t) && Parallel(more) {
        assert forall k :: k in Keys(more[i]) ==> k in Keys(more[|tables|]);
        assert forall k :: k in Keys(more[|tables|]) ==> k in Keys(more[i]);
      }
    }
  }

  lemma ParallelPrefix(tables: seq<seq<Field<Value>>>, n: nat)
    requires n <= |tables| && Parallel(tables)
    ensures Parallel(tables[..n])
  {
  }

  method DocumentKey(parts: seq<Part>, doc: Value) returns (r: KeyResult)
    ensures r.Key? <==> Parallel(Tables(parts, doc))
    ensures r.Throws? ==> r.error == ParallelArrays
    ensures r.Key? ==> Some(r.key) == SortKey(parts, doc)
  {
    hide Plain, Table, Least, Keys;
    if parts == [] {
      CandidatesExist(parts, doc);
      return Key([]);
    }
    ghost var tables := Tables(parts, doc);
    var known: Option<seq<string>> := None;
    var valuesByPart: seq<seq<Field<Value>>> := [];
    for i := 0 to |parts|
      invariant valuesByPart == tables[..i]
      invariant Parallel(valuesByPart) && known == Known(valuesByPart)
    {
      assert tables[..i + 1] == tables[..i] + [tables[i]];
      OneMoreTable(valuesByPart, tables[i]);
      KnownCovers(parts, doc, i);
      var thrown, values, usesArrayPath := PartValues(doc, parts[i].path, known);
      var misfit := thrown;
      if thrown == None && known.Some? && !Plain(values) && |values| != |known.value| {
        misfit := Some(ParallelArrays);
      }
      if misfit.Some? {
        if Parallel(tables) {
          ParallelPrefix(tables, i + 1);
        }
        return Throws(misfit.value);
      }
      if known == None && usesArrayPath {
        known := Some(Keys(values));
      }
      valuesByPart := valuesByPart + [values];
    }
    assert tables[..|parts|] == tables;
    var keys := Candidates(valuesByPart);
    CandidatesExist(parts, doc);
    r := Minimum(parts, keys);
  }

  // The paths known so far are distinct, and a part with the same number of paths, all known, has them all.
  lemma KnownCovers(parts: seq<Part>, doc: Value, i: nat)
    requires i < |parts|
    ensures var known, t := Known(Tables(parts, doc)[..i]), Keys(Tables(parts, doc)[i]);
            known.Some? && (forall k :: k in t ==> k in known.value) ==>
              ((forall k :: k in known.value ==> k in t) <==> |t| == |known.value|)
  {
    var tables := Tables(parts, doc);
    var known := Known(tables[..i]);
    if known.Some? {
      var j := KnownSome(tables[..i]);
      FoundSeparates(doc, parts[i].path);
      FoundSeparates(doc, parts[j].path);
      SeparatedEntries(Found(doc, parts[i].path));
      SeparatedEntries(Found(doc, parts[j].path));
      var t := Keys(tables[i]);
      if forall k :: k in t ==> k in known.value {
        DistinctFit(t, known.value);
        if |t| == |known.value| {
          SameKeySet(t, known.value);
        } else if forall k :: k in known.value ==> k in t {
          DistinctFit(known.value, t);
        }
      }
    }
  }

  method Minimum(parts: seq<Part>, keys: seq<seq<Value>>) returns (r: KeyResult)
    requires keys != [] && forall i :: 0 <= i < |keys| ==> |keys[i]| == |parts|
    ensures r == Key(Least(parts, keys))
  {
    hide CompareKeys;
    var minimum := keys[0];
    for i := 1 to |keys|
      invariant minimum == Least(parts, keys[..i])
    {
      assert keys[..i + 1][..i] == keys[..i];
      var compared := CompareSortKeys(parts, keys[i], minimum);
      if compared < 0 {
        minimum := keys[i];
      }
    }
    assert keys[..|keys|] == keys;
    return Key(minimum);
  }

  // The comparator of getComparator, for a sort specification without distances.
  method Comparator(parts: seq<Part>, l: Value, r: Value) returns (o: OrderResult)
    ensures o.Ordered? <==> SortKey(parts, l).Some? && SortKey(parts, r).Some?
    ensures o.Fails? ==> o.error == ParallelArrays
    ensures o.Ordered? ==> o.sign == CompareKeys(parts, SortKey(parts, l).value, SortKey(parts, r).value)
  {
    hide CompareKeys, Parallel;
    var leftKey := DocumentKey(parts, l);
    if leftKey.Throws? {
      return Fails(leftKey.error);
    }
    var rightKey := DocumentKey(parts, r);
    if rightKey.Throws? {
      return Fails(rightKey.error);
    }
    var sign := CompareSortKeys(parts, leftKey.key, rightKey.key);
    return Ordered(sign);
  }

  /* ---------- The key is the least candidate, and the comparator a total preorder ---------- */

  lemma {:induction false} LeastIsLeast(parts: seq<Part>, keys: seq<seq<Value>>)
    requires keys != [] && forall i :: 0 <= i < |keys| ==> |keys[i]| == |parts| && SaneKey(keys[i])
    ensures Least(parts, keys) in keys
    ensures forall i :: 0 <= i < |keys| ==> CompareKeys(parts, Least(parts, keys), keys[i]) <= 0
  {
    hide CompareKeys, SaneKey;
    var best := Least(parts, keys);
    if |keys| == 1 {
      KeysZero(parts, best, best);
    } else {
      var front, last := keys[..|keys| - 1], keys[|keys| - 1];
      LeastIsLeast(parts, front);
      var earlier := Least(parts, front);
      KeysZero(parts, last, last);
      KeysAntisymmetric(parts, last, earlier);
      forall i | 0 <= i < |keys|
        ensures CompareKeys(parts, best, keys[i]) <= 0
      {
        if i < |front| {
          assert keys[i] == front[i];
          if best == last && CompareKeys(parts, last, earlier) < 0 {
            KeysTransitive(parts, last, earlier, front[i]);
          }
        }
      }
    }
  }

  // No other key would do: the least candidate is one value, whatever order the candidates come in.
  lemma SortKeyExactly(parts: seq<Part>, doc: Value, k: seq<Value>)
    requires Sane(doc) && Parallel(Tables(parts, doc))
    ensures SortKey(parts, doc) == Some(k) <==>
              var candidates := Candidates(Tables(parts, doc));
              k in candidates && forall i :: 0 <= i < |candidates| ==> CompareKeys(parts, k, candidates[i]) <= 0
  {
    var tables := Tables(parts, doc);
    var candidates := Candidates(tables);
    CandidatesExist(parts, doc);
    forall i | 0 <= i < |candidates|
      ensures SaneKey(candidates[i])
    {
      SaneCandidate(parts, doc, if Known(tables).Some? then Known(tables).value[i] else "");
    }
    hide CompareKeys, SaneKey, Parallel, Tables, Candidates;
    LeastIsLeast(parts, candidates);
    var least := Least(parts, candidates);
    if k in candidates && forall i :: 0 <= i < |candidates| ==> CompareKeys(parts, k, candidates[i]) <= 0 {
      var j :| 0 <= j < |candidates| && candidates[j] == least;
      var i :| 0 <= i < |candidates| && candidates[i] == k;
      KeysAntisymmetric(parts, k, least);
      KeysZero(parts, k, least);
    }
  }

  lemma SortKeySane(parts: seq<Part>, doc: Value)
    requires Sane(doc) && SortKey(parts, doc).Some?
    ensures SaneKey(SortKey(parts, doc).value)
  {
    var tables := Tables(parts, doc);
    var key := SortKey(parts, doc).value;
    SortKeyExactly(parts, doc, key);
    var i :| 0 <= i < |Candidates(tables)| && Candidates(tables)[i] == key;
    SaneCandidate(parts, doc, if Known(tables).Some? then Known(tables).value[i] else "");
  }

  ghost predicate Sortable(parts: seq<Part>, doc: Value) {
    Sane(doc) && SortKey(parts, doc).Some?
  }

  // What the comparator answers for two documents it does not fail on.
  ghost function Order(parts: seq<Part>, l: Value, r: Value): int
    requires Sortable(parts, l) && Sortable(parts, r)
  {
    CompareKeys(parts, SortKey(parts, l).value, SortKey(parts, r).value)
  }

  lemma ComparatorIsAPreorder(parts: seq<Part>, a: Value, b: Value, c: Value)
    requires Sortable(parts, a) && Sortable(parts, b) && Sortable(parts, c)
    ensures Order(parts, a, b) == -Order(parts, b, a)
    ensures Order(parts, a, b) <= 0 && Order(parts, b, c) <= 0 ==> Order(parts, a, c) <= 0
    ensures Order(parts, a, b) == 0 <==> SortKey(parts, a) == SortKey(parts, b)
  {
    hide CompareKeys, SortKey, SaneKey;
    SortKeySane(parts, a);
    SortKeySane(parts, b);
    SortKeySane(parts, c);
    var ka, kb, kc := SortKey(parts, a).value, SortKey(parts, b).value, SortKey(parts, c).value;
    KeysAntisymmetric(parts, ka, kb);
    KeysZero(parts, ka, kb);
    if Order(parts, a, b) <= 0 && Order(parts, b, c) <= 0 {
      KeysTransitive(parts, ka, kb, kc);
    }
  }

  // A document without arrays sorts by the values at its paths.
  lemma PlainDocuments(parts: seq<Part>, doc: Value)
    requires ArrayFree(doc)
    ensures SortKey(parts, doc) == Some(seq(|parts|, i requires 0 <= i < |parts| => At(doc, parts[i].path)))
  {
    var tables := Tables(parts, doc);
    forall i | 0 <= i < |parts|
      ensures Plain(tables[i]) && Pick(tables[i], "") == At(doc, parts[i].path)
    {
      PlainLookup(doc, parts[i].path);
      assert Keys(tables[i])[0] == "";
    }
    if Known(tables).Some? {
      var i := KnownSome(tables);
    }
    assert Candidate(tables, "") == seq(|parts|, i requires 0 <= i < |parts| => At(doc, parts[i].path));
  }
}
