// A cursor's sort as the arrangement of a live query: when it throws, and what it gives.
module SortedQuery {
  import opened Results
  import opened Fields
  import opened ValueOrder
  import opened LiveQuery
  import opened LocalCollection
  import P = Path
  import S = Sorter

  ghost predicate Keyed(parts: seq<S.Part>, d: Value) { S.SortKey(parts, d).Some? }

  // The comparator's answer for two documents that have keys.
  ghost predicate AtMost(parts: seq<S.Part>, l: Value, r: Value)
    requires Keyed(parts, l) && Keyed(parts, r)
  {
    S.CompareKeys(parts, S.SortKey(parts, l).value, S.SortKey(parts, r).value) <= 0
  }

  // A stable sort that compares documents and fails with the comparator.
  ghost function Place(parts: seq<S.Part>, d: Value, sorted: seq<Value>): Option<seq<Value>> {
    if sorted == [] then Some([d])
    else
      var front, last := sorted[..|sorted| - 1], sorted[|sorted| - 1];
      if !Keyed(parts, last) || !Keyed(parts, d) then None
      else if AtMost(parts, last, d) then Some(sorted + [d])
      else
        var placed := Place(parts, d, front);
        if placed == None then None else Some(placed.value + [last])
  }

  ghost function SortDocuments(parts: seq<S.Part>, docs: seq<Value>): Option<seq<Value>> {
    if docs == [] then Some([])
    else
      var sorted := SortDocuments(parts, docs[..|docs| - 1]);
      if sorted == None then None else Place(parts, docs[|docs| - 1], sorted.value)
  }

  lemma {:induction false} PlacePermutes(parts: seq<S.Part>, d: Value, sorted: seq<Value>)
    requires Place(parts, d, sorted).Some?
    ensures multiset(Place(parts, d, sorted).value) == multiset(sorted) + multiset{d}
  {
    hide AtMost, Keyed;
    if sorted != [] {
      var front, last := sorted[..|sorted| - 1], sorted[|sorted| - 1];
      assert sorted == front + [last];
      if !AtMost(parts, last, d) {
        PlacePermutes(parts, d, front);
      }
    }
  }

  lemma {:induction false} SortPermutes(parts: seq<S.Part>, docs: seq<Value>)
    requires SortDocuments(parts, docs).Some?
    ensures multiset(SortDocuments(parts, docs).value) == multiset(docs)
  {
    hide Place;
    if docs != [] {
      var front, last := docs[..|docs| - 1], docs[|docs| - 1];
      assert docs == front + [last];
      SortPermutes(parts, front);
      PlacePermutes(parts, last, SortDocuments(parts, front).value);
    }
  }

  lemma {:induction false} PlaceSucceeds(parts: seq<S.Part>, d: Value, sorted: seq<Value>)
    requires Keyed(parts, d) && forall i :: 0 <= i < |sorted| ==> Keyed(parts, sorted[i])
    ensures Place(parts, d, sorted).Some?
  {
    hide AtMost, Keyed;
    if sorted != [] {
      PlaceSucceeds(parts, d, sorted[..|sorted| - 1]);
    }
  }

  ghost predicate AllKeyed(parts: seq<S.Part>, docs: seq<Value>) {
    forall i :: 0 <= i < |docs| ==> Keyed(parts, docs[i])
  }

  lemma KeyedPermuted(parts: seq<S.Part>, a: seq<Value>, b: seq<Value>)
    requires multiset(a) == multiset(b) && AllKeyed(parts, a)
    ensures AllKeyed(parts, b)
  {
    hide Keyed;
    forall i | 0 <= i < |b|
      ensures Keyed(parts, b[i])
    {
      assert b[i] in multiset(b);
      assert b[i] in a;
    }
  }

  // The sort throws exactly when there are two documents to compare and one has no key.
  lemma {:induction false} SortThrowsExactly(parts: seq<S.Part>, docs: seq<Value>)
    ensures SortDocuments(parts, docs) == None <==> |docs| >= 2 && !AllKeyed(parts, docs)
  {
    hide AtMost, Keyed;
    if docs != [] {
      var front, last := docs[..|docs| - 1], docs[|docs| - 1];
      assert docs == front + [last];
      SortThrowsExactly(parts, front);
      if SortDocuments(parts, front).Some? {
        var sorted := SortDocuments(parts, front).value;
        SortPermutes(parts, front);
        SameLength(sorted, front);
        if AllKeyed(parts, docs) {
          assert AllKeyed(parts, front);
          KeyedPermuted(parts, front, sorted);
          PlaceSucceeds(parts, last, sorted);
        } else if |front| == 1 {
          assert sorted[0] == front[0] by { assert sorted[0] in multiset(front); }
        }
      }
    }
  }

  lemma SameLength(a: seq<Value>, b: seq<Value>)
    requires multiset(a) == multiset(b)
    ensures |a| == |b|
  {
    assert |multiset(a)| == |a| && |multiset(b)| == |b|;
  }

  ghost predicate Ascends(parts: seq<S.Part>, docs: seq<Value>) {
    forall i, j :: 0 <= i < j < |docs| && Keyed(parts, docs[i]) && Keyed(parts, docs[j])
        ==> AtMost(parts, docs[i], docs[j])
  }

  ghost predicate AllSortable(parts: seq<S.Part>, docs: seq<Value>) {
    forall i :: 0 <= i < |docs| ==> S.Sortable(parts, docs[i])
  }

  lemma AtMostLaws(parts: seq<S.Part>, a: Value, b: Value, c: Value)
    requires S.Sortable(parts, a) && S.Sortable(parts, b) && S.Sortable(parts, c)
    ensures AtMost(parts, a, b) || AtMost(parts, b, a)
    ensures AtMost(parts, a, b) && AtMost(parts, b, c) ==> AtMost(parts, a, c)
  {
    hide S.SortKey, S.CompareKeys;
    S.ComparatorIsAPreorder(parts, a, b, c);
  }

  // Appending something no smaller than anything keeps the order.
  lemma AscendsMore(parts: seq<S.Part>, docs: seq<Value>, last: Value)
    requires Ascends(parts, docs) && AllKeyed(parts, docs) && Keyed(parts, last)
    requires forall i :: 0 <= i < |docs| ==> AtMost(parts, docs[i], last)
    ensures Ascends(parts, docs + [last])
  {
    hide AtMost, Keyed;
    var more := docs + [last];
    forall i, j | 0 <= i < j < |more| && Keyed(parts, more[i]) && Keyed(parts, more[j])
      ensures AtMost(parts, more[i], more[j])
    {
      if j < |docs| {
        assert more[i] == docs[i] && more[j] == docs[j];
      }
    }
  }

  lemma SortableMore(parts: seq<S.Part>, docs: seq<Value>, last: Value)
    requires AllSortable(parts, docs) && S.Sortable(parts, last)
    ensures AllSortable(parts, docs + [last]) && AllKeyed(parts, docs) && Keyed(parts, last)
  {
    SortableKeyed(parts, docs);
  }

  lemma {:induction false} PlaceAscends(parts: seq<S.Part>, d: Value, sorted: seq<Value>)
    requires AllSortable(parts, sorted) && S.Sortable(parts, d) && Ascends(parts, sorted)
             && Place(parts, d, sorted).Some?
    ensures Ascends(parts, Place(parts, d, sorted).value) && AllSortable(parts, Place(parts, d, sorted).value)
  {
    hide AtMost, S.Sortable, Keyed;
    SortableMore(parts, sorted, d);
    if sorted == [] {
      AscendsMore(parts, [], d);
      assert [] + [d] == [d];
    } else {
      var front, last := sorted[..|sorted| - 1], sorted[|sorted| - 1];
      assert S.Sortable(parts, last) && AllSortable(parts, front);
      if AtMost(parts, last, d) {
        forall i | 0 <= i < |sorted|
          ensures AtMost(parts, sorted[i], d)
        {
          AtMostLaws(parts, sorted[i], last, d);
        }
        AscendsMore(parts, sorted, d);
      } else {
        AtMostLaws(parts, last, d, d);
        assert Ascends(parts, front);
        PlaceAscends(parts, d, front);
        var placed := Place(parts, d, front).value;
        SortableMore(parts, placed, last);
        forall i | 0 <= i < |placed|
          ensures AtMost(parts, placed[i], last)
        {
          PlacedFrom(parts, d, front, i);
          if placed[i] != d {
            var k :| 0 <= k < |front| && front[k] == placed[i];
            assert sorted[k] == front[k];
          }
        }
        AscendsMore(parts, placed, last);
      }
    }
  }

  lemma PlacedFrom(parts: seq<S.Part>, d: Value, sorted: seq<Value>, i: nat)
    requires Place(parts, d, sorted).Some? && i < |Place(parts, d, sorted).value|
    ensures Place(parts, d, sorted).value[i] == d || Place(parts, d, sorted).value[i] in sorted
  {
    hide Place;
    PlacePermutes(parts, d, sorted);
    var placed := Place(parts, d, sorted).value;
    assert placed[i] in multiset(placed);
  }

  lemma SortableKeyed(parts: seq<S.Part>, docs: seq<Value>)
    requires AllSortable(parts, docs)
    ensures AllKeyed(parts, docs)
  {
  }

  // A sorted result ascends under the comparator.
  lemma {:induction false} SortAscends(parts: seq<S.Part>, docs: seq<Value>)
    requires AllSortable(parts, docs) && SortDocuments(parts, docs).Some?
    ensures Ascends(parts, SortDocuments(parts, docs).value) && AllSortable(parts, SortDocuments(parts, docs).value)
  {
    hide Place, S.Sortable, Ascends;
    if docs == [] {
      assert Ascends(parts, []) by { NothingAscends(parts); }
    } else {
      var front, last := docs[..|docs| - 1], docs[|docs| - 1];
      assert AllSortable(parts, front) && S.Sortable(parts, last);
      SortAscends(parts, front);
      PlaceAscends(parts, last, SortDocuments(parts, front).value);
    }
  }

  lemma NothingAscends(parts: seq<S.Part>)
    ensures Ascends(parts, [])
  {
  }

  // The documents with one key, in order.
  ghost function WithKey(parts: seq<S.Part>, docs: seq<Value>, k: seq<Value>): seq<Value> {
    if docs == [] then []
    else
      var last := docs[|docs| - 1];
      WithKey(parts, docs[..|docs| - 1], k) + if S.SortKey(parts, last) == Some(k) then [last] else []
  }

  lemma WithKeySnoc(parts: seq<S.Part>, docs: seq<Value>, d: Value, k: seq<Value>)
    ensures WithKey(parts, docs + [d], k)
         == WithKey(parts, docs, k) + if S.SortKey(parts, d) == Some(k) then [d] else []
  {
    assert (docs + [d])[..|docs + [d]| - 1] == docs;
  }

  lemma {:induction false} PlaceIsStable(parts: seq<S.Part>, d: Value, sorted: seq<Value>, k: seq<Value>)
    requires AllSortable(parts, sorted) && S.Sortable(parts, d) && Place(parts, d, sorted).Some?
    ensures WithKey(parts, Place(parts, d, sorted).value, k)
         == WithKey(parts, sorted, k) + if S.SortKey(parts, d) == Some(k) then [d] else []
  {
    hide WithKey, S.SortKey, S.CompareKeys;
    if sorted == [] {
      WithKeySnoc(parts, [], d, k);
      assert [] + [d] == [d];
    } else {
      var front, last := sorted[..|sorted| - 1], sorted[|sorted| - 1];
      assert sorted == front + [last];
      WithKeySnoc(parts, sorted, d, k);
      if !AtMost(parts, last, d) {
        assert AllSortable(parts, front);
        PlaceIsStable(parts, d, front, k);
        WithKeySnoc(parts, front, last, k);
        WithKeySnoc(parts, Place(parts, d, front).value, last, k);
        assert S.SortKey(parts, last) != S.SortKey(parts, d) by {
          assert S.Sortable(parts, last);
          S.ComparatorIsAPreorder(parts, last, d, d);
        }
      }
    }
  }

  // Documents with the same key keep their order.
  lemma {:induction false} SortIsStable(parts: seq<S.Part>, docs: seq<Value>, k: seq<Value>)
    requires AllSortable(parts, docs) && SortDocuments(parts, docs).Some?
    ensures WithKey(parts, SortDocuments(parts, docs).value, k) == WithKey(parts, docs, k)
  {
    hide Place, S.Sortable, WithKey, S.SortKey;
    if docs == [] {
      assert SortDocuments(parts, docs).value == docs;
    } else {
      var front, last := docs[..|docs| - 1], docs[|docs| - 1];
      assert AllSortable(parts, front) && S.Sortable(parts, last);
      SortIsStable(parts, front, k);
      SortAscends(parts, front);
      PlaceIsStable(parts, last, SortDocuments(parts, front).value, k);
      assert docs == front + [last];
      WithKeySnoc(parts, front, last, k);
    }
  }

  /* ---------- As part of a query ---------- */

  ghost predicate SortsBy(q: Query, parts: seq<S.Part>) {
    forall docs :: q.arrange(docs) == SortDocuments(parts, docs)
  }

  lemma SortedQueryIsProper(q: Query, parts: seq<S.Part>)
    requires SortsBy(q, parts)
    requires forall d :: Tidy(d) ==> Tidy(Shown(q, d)) && IdOf(Shown(q, d)) == IdOf(d)
    ensures Proper(q)
  {
    hide Tidy, IdOf, SortDocuments, Shown;
    forall docs
      ensures multiset(SortedBy(q, docs)) == multiset(docs)
    {
      assert q.arrange(docs) == SortDocuments(parts, docs);
      if q.arrange(docs).Some? {
        SortPermutes(parts, docs);
      }
    }
  }

  // A sorted query whose other parts do not throw runs exactly when fewer than two documents
  // match, or all that match have sort keys.
  lemma SortedQueryRunsExactly(q: Query, parts: seq<S.Part>, docs: seq<Value>)
    requires SortsBy(q, parts) && (forall d :: q.matches(d).Some? && q.output(d).Some?)
    ensures RunsOn(q, docs) <==> |Matching(docs, Hits(q))| < 2 || AllKeyed(parts, Matching(docs, Hits(q)))
  {
    hide SortDocuments, AllKeyed, Matching;
    var matched := Matching(docs, Hits(q));
    assert q.arrange(matched) == SortDocuments(parts, matched);
    SortThrowsExactly(parts, matched);
  }

  /* ---------- Parallel arrays ---------- */

  lemma ArrayTable(fields: seq<Field<Value>>, key: string, items: seq<Value>)
    requires Lookup(fields, key) == Some(Arr(items)) && items != []
    ensures var table := S.Table(Obj(fields), [key]);
            |table| == |items| && !S.Plain(table) && Distinct(Keys(table))
  {
    hide Lookup, P.PathText, P.Separated;
    var doc := Obj(fields);
    var branch := P.Branch(Arr(items), false, None);
    assert [key][1..] == [];
    assert P.BranchAt(doc, [key], None, true) == [branch];
    assert [branch][..0] == [];
    assert P.Expand([branch], true) == P.Elements(branch);
    assert S.Found(doc, [key]) == P.Elements(branch);
    S.FoundSeparates(doc, [key]);
    S.SeparatedEntries(S.Found(doc, [key]));
  }

  // Two sort parts that run into arrays of different lengths leave a document without a key.
  lemma DifferentLengths(fields: seq<Field<Value>>, a: string, b: string, x: seq<Value>, y: seq<Value>)
    requires Lookup(fields, a) == Some(Arr(x)) && Lookup(fields, b) == Some(Arr(y)) && |x| > |y| > 0
    ensures !Keyed([S.Part([a], true), S.Part([b], true)], Obj(fields))
  {
    hide Lookup, S.Table, S.Plain, Distinct, Keys;
    var parts := [S.Part([a], true), S.Part([b], true)];
    ArrayTable(fields, a, x);
    ArrayTable(fields, b, y);
    var tables := S.Tables(parts, Obj(fields));
    assert tables[0] == S.Table(Obj(fields), [a]) && tables[1] == S.Table(Obj(fields), [b]);
    if S.Parallel(tables) {
      assert forall k :: k in Keys(tables[0]) ==> k in Keys(tables[1]);
      DistinctFit(Keys(tables[0]), Keys(tables[1]));
    }
  }
}
