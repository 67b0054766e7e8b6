// The classes of typeferry-ts/src/minimongo/cursor.ts and local-collection.ts, proved against
// the functions of LiveQuery and LocalCollection.
module LiveCollection {
  import opened Results
  import opened Fields
  import opened ValueOrder
  import opened DocumentStore
  import opened LiveQuery
  import opened LocalCollection

  function OrEmpty(previous: Option<seq<Value>>): seq<Value> { if previous.Some? then previous.value else [] }

  class Cursor {
    const query: Query
    var previous: Option<seq<Value>>
    var observing: bool
    var listenerCount: nat
    // Everything handed to `emit`, in order.
    var emitted: seq<Event>

    constructor (query: Query)
      ensures this.query == query && previous == None && !observing && listenerCount == 0 && emitted == []
    {
      this.query := query;
      previous, observing, listenerCount, emitted := None, false, 0, [];
    }

    // fetch and rawDocuments; None when the matcher, the sort or the output throws.
    method Fetch(docs: seq<Value>) returns (rows: Option<seq<Value>>)
      ensures rows == if RunsOn(query, docs) then Some(Outputs(query, Raw(query, docs))) else None
    {
      var documents := FilterBy(query, docs);
      if documents == None {
        return None;
      }
      var sorted := query.arrange(documents.value);
      if sorted == None {
        return None;
      }
      var end := if query.limit == None then None else Some(query.skip + query.limit.value);
      var page := Slice(sorted.value, query.skip, end);
      assert page == Raw(query, docs);
      var shown: seq<Value> := [];
      for i := 0 to |page|
        invariant shown == Outputs(query, page)[..i]
        invariant forall j :: 0 <= j < i ==> query.output(page[j]).Some?
      {
        var output := query.output(page[i]);
        if output == None {
          return None;
        }
        shown := shown + [output.value];
      }
      assert shown == Outputs(query, page);
      return Some(shown);
    }

    // A query that throws leaves the cursor as it was.
    method HandleMutation(docs: seq<Value>) returns (threw: bool)
      modifies this
      ensures threw == !RunsOn(query, docs)
      ensures threw ==> previous == old(previous) && emitted == old(emitted)
      ensures !threw ==>
                && previous == Some(Outputs(query, Raw(query, docs)))
                && emitted == old(emitted) + Report(OrEmpty(old(previous)), Outputs(query, Raw(query, docs)))
      ensures observing == old(observing) && listenerCount == old(listenerCount)
    {
      hide Outputs, Raw, Indexed, Removals, Arrivals, AnyMoved, RunsOn;
      var before := OrEmpty(previous);
      var rows := Fetch(docs);
      if rows == None {
        return true;
      }
      var current := rows.value;
      var previousById := IndexById(before);
      var currentById := IndexById(current);
      var changed := EmitRemovals(previousById, currentById);
      var more := EmitArrivals(previousById, currentById);
      previous := Some(current);
      if changed || more {
        emitted := emitted + [Change(current)];
      }
      return false;
    }

    method EmitRemovals(previousById: seq<Field<Entry>>, currentById: seq<Field<Entry>>) returns (changed: bool)
      modifies this`emitted
      ensures emitted == old(emitted) + Removals(previousById, currentById)
      ensures changed == (Removals(previousById, currentById) != [])
    {
      hide Lookup;
      changed := false;
      for i := 0 to |previousById|
        invariant emitted == old(emitted) + Removals(previousById[..i], currentById)
        invariant changed == (Removals(previousById[..i], currentById) != [])
      {
        assert previousById[..i + 1][..i] == previousById[..i];
        var f := previousById[i];
        if Lookup(currentById, f.key) == None {
          emitted := emitted + [Removed(f.value.document, f.value.index)];
          changed := true;
        }
      }
      assert previousById[..|previousById|] == previousById;
    }

    method EmitArrivals(previousById: seq<Field<Entry>>, currentById: seq<Field<Entry>>) returns (changed: bool)
      modifies this`emitted
      ensures emitted == old(emitted) + Arrivals(previousById, currentById)
      ensures changed == (Arrivals(previousById, currentById) != [] || AnyMoved(previousById, currentById))
    {
      hide Lookup, Same, Arrivals, AnyMoved;
      changed := false;
      ArrivalsNothing(previousById);
      for i := 0 to |currentById|
        invariant emitted == old(emitted) + Arrivals(previousById, currentById[..i])
        invariant changed
                  == (Arrivals(previousById, currentById[..i]) != [] || AnyMoved(previousById, currentById[..i]))
      {
        var f := currentById[i];
        MovedSnoc(previousById, currentById[..i], f);
        ArrivalsSnoc(previousById, currentById[..i], f);
        assert currentById[..i + 1] == currentById[..i] + [f];
        var known := Lookup(previousById, f.key);
        if known == None {
          emitted := emitted + [Added(f.value.document, f.value.index)];
          changed := true;
        } else if !Same(known.value.document, f.value.document) {
          emitted := emitted + [Changed(known.value.document, f.value.document, known.value.index, f.value.index)];
          changed := true;
        } else if known.value.index != f.value.index {
          changed := true;
        }
      }
      assert currentById[..|currentById|] == currentById;
    }

    // stop: keeps the listeners, drops the last result and the observation.
    method Stop(collection: Collection)
      modifies this, collection
      ensures previous == None && !observing && listenerCount == old(listenerCount) && emitted == old(emitted)
      ensures collection.observers
              == if old(observing) then Minus(old(collection.observers), this) else old(collection.observers)
    {
      if observing {
        collection.observers := Minus(collection.observers, this);
      }
      observing, previous := false, None;
    }

    // A query that throws leaves the listener counted and the cursor not observing.
    method OnListenerAdded(collection: Collection) returns (threw: bool)
      requires collection.Valid() && (this in collection.observers ==> observing)
      modifies this, collection
      ensures collection.Valid()
      ensures listenerCount == old(listenerCount) + 1 && emitted == old(emitted)
      ensures threw == (!old(observing) && !Runs(query, collection.store.documents))
      ensures observing == !threw
      ensures old(observing) || threw ==> previous == old(previous) && collection.observers == old(collection.observers)
      ensures !old(observing) && !threw ==>
                && previous == Some(Result(query, collection.store.documents))
                && collection.observers == old(collection.observers) + [this]
    {
      listenerCount := listenerCount + 1;
      if observing {
        return false;
      }
      var docs := collection.store.Entries();
      var rows := Fetch(docs);
      if rows == None {
        return true;
      }
      previous := rows;
      collection.observers := collection.observers + [this];
      observing := true;
      return false;
    }

    method OnListenerRemoved(collection: Collection)
      modifies this, collection
      ensures listenerCount == (if old(listenerCount) == 0 then 0 else old(listenerCount) - 1)
              && emitted == old(emitted)
      ensures listenerCount > 0 ==> previous == old(previous) && observing == old(observing)
                                    && collection.observers == old(collection.observers)
      ensures listenerCount == 0 ==>
                && previous == None && !observing
                && collection.observers
                   == if old(observing) then Minus(old(collection.observers), this) else old(collection.observers)
    {
      listenerCount := if listenerCount == 0 then 0 else listenerCount - 1;
      if listenerCount == 0 {
        Stop(collection);
      }
    }
  }

  function Minus(cursors: seq<Cursor>, c: Cursor): (r: seq<Cursor>)
    ensures c !in r && (forall i :: 0 <= i < |r| ==> r[i] in cursors)
    ensures forall i :: 0 <= i < |cursors| && cursors[i] != c ==> cursors[i] in r
  {
    if cursors == [] then []
    else
      assert cursors == [cursors[0]] + cursors[1..];
      (if cursors[0] == c then [] else [cursors[0]]) + Minus(cursors[1..], c)
  }

  lemma ArrivalsNothing(previous: seq<Field<Entry>>)
    ensures Arrivals(previous, []) == [] && !AnyMoved(previous, [])
  {
  }

  lemma ArrivalsSnoc(previous: seq<Field<Entry>>, current: seq<Field<Entry>>, f: Field<Entry>)
    ensures Arrivals(previous, current + [f]) == Arrivals(previous, current) + Arrival(previous, f)
  {
    assert (current + [f])[..|current|] == current;
  }

  lemma MovedSnoc(previous: seq<Field<Entry>>, current: seq<Field<Entry>>, f: Field<Entry>)
    ensures AnyMoved(previous, current + [f]) <==> AnyMoved(previous, current) || Moved(previous, f)
  {
    var more := current + [f];
    if AnyMoved(previous, current) {
      var i :| 0 <= i < |current| && Moved(previous, current[i]);
      assert more[i] == current[i];
    }
    assert more[|current|] == f;
  }

  method IndexById(docs: seq<Value>) returns (index: seq<Field<Entry>>)
    ensures index == Indexed(docs)
  {
    hide IdOf, Put;
    index := [];
    for i := 0 to |docs|
      invariant index == Indexed(docs[..i])
    {
      assert docs[..i + 1][..i] == docs[..i];
      index := Put(index, IdOf(docs[i]), Entry(docs[i], i));
    }
    assert docs[..|docs|] == docs;
  }

  method FilterBy(q: Query, docs: seq<Value>) returns (matched: Option<seq<Value>>)
    ensures matched
            == if forall i :: 0 <= i < |docs| ==> q.matches(docs[i]).Some? then Some(Matching(docs, Hits(q))) else None
  {
    var documents: seq<Value> := [];
    for i := 0 to |docs|
      invariant forall j :: 0 <= j < i ==> q.matches(docs[j]).Some?
      invariant documents + Matching(docs[i..], Hits(q)) == Matching(docs, Hits(q))
    {
      assert docs[i..][1..] == docs[i + 1..];
      var hit := q.matches(docs[i]);
      if hit == None {
        return None;
      }
      if hit.value {
        documents := documents + [docs[i]];
      }
    }
    assert docs[|docs|..] == [] && documents + [] == documents;
    return Some(documents);
  }

  // How many of the cursors are told of a mutation: those before the first whose query throws.
  function Told(cursors: seq<Cursor>, docs: seq<Value>): (n: nat)
    ensures n <= |cursors|
    ensures forall j :: 0 <= j < n ==> RunsOn(cursors[j].query, docs)
    ensures n < |cursors| ==> !RunsOn(cursors[n].query, docs)
  {
    if cursors == [] || !RunsOn(cursors[0].query, docs) then 0 else 1 + Told(cursors[1..], docs)
  }

  method Filter(docs: seq<Value>, selector: Selector) returns (matched: seq<Value>)
    ensures matched == Matching(docs, selector)
  {
    matched := [];
    for i := 0 to |docs|
      invariant matched + Matching(docs[i..], selector) == Matching(docs, selector)
    {
      assert docs[i..][1..] == docs[i + 1..];
      if selector(docs[i]) {
        matched := matched + [docs[i]];
      }
    }
  }

  /* ---------- update and remove walk the matches, not the store ---------- */

  function Process(store: Store, matches: seq<Value>, modifier: Modifier, multi: bool): Rewrite
    decreases |matches|
  {
    if matches == [] then Rewrite(store, 0, false)
    else if modifier(matches[0]) == None then Rewrite(store, 0, true)
    else
      var next := Put(store, IdOf(matches[0]), modifier(matches[0]).value);
      var c := if multi then Process(next, matches[1..], modifier, multi) else Rewrite(next, 0, false);
      c.(affected := c.affected + 1)
  }

  lemma {:induction false} ProcessIsRewritten(prefix: Store, rest: Store, selector: Selector, modifier: Modifier,
                                              multi: bool)
    requires Distinct(Keys(prefix + rest)) && OwnIds(rest)
    ensures var c := Process(prefix + rest, Matching(Values(rest), selector), modifier, multi);
            var r := Rewritten(rest, selector, modifier, multi);
            c == r.(store := prefix + r.store)
    decreases |rest|
  {
    hide IdOf, Tidy, Matching, Put, Keys, Distinct, Values;
    if rest == [] {
      assert Values(rest) == [] by { NoValues(); }
      assert Matching(Values(rest), selector) == [] by { MatchingNothing(selector); }
      assert prefix + rest == prefix;
    } else {
      var f, tail := rest[0], rest[1..];
      MatchingValues(rest, selector);
      assert prefix + rest == prefix + [f] + tail;
      assert IdOf(f.value) == f.key && OwnIds(tail);
      if !selector(f.value) {
        ProcessIsRewritten(prefix + [f], tail, selector, modifier, multi);
        Rejoin(prefix, f, Rewritten(tail, selector, modifier, multi).store);
      } else if modifier(f.value).Some? {
        ProcessMatch(prefix, f, tail, modifier(f.value).value);
        var head := Field(f.key, modifier(f.value).value);
        ProcessIsRewritten(prefix + [head], tail, selector, modifier, multi);
        Rejoin(prefix, head, Rewritten(tail, selector, modifier, multi).store);
        Rejoin(prefix, head, tail);
      }
    }
  }

  lemma Rejoin(prefix: Store, f: Field<Value>, rest: Store)
    ensures prefix + [f] + rest == prefix + ([f] + rest)
  {
  }

  lemma NoValues()
    ensures Values([]) == []
  {
  }

  lemma ProcessMatch(prefix: Store, f: Field<Value>, tail: Store, value: Value)
    requires Distinct(Keys(prefix + [f] + tail))
    ensures Put(prefix + [f] + tail, f.key, value) == prefix + [Field(f.key, value)] + tail
    ensures Distinct(Keys(prefix + [Field(f.key, value)] + tail))
  {
    NotBefore(prefix, f, tail);
    PutInside(prefix, f, tail, value);
    assert Keys(prefix + [Field(f.key, value)] + tail) == Keys(prefix + [f] + tail);
  }

  lemma NotBefore(prefix: Store, f: Field<Value>, rest: Store)
    requires Distinct(Keys(prefix + [f] + rest))
    ensures f.key !in Keys(prefix)
  {
    var keys := Keys(prefix + [f] + rest);
    forall i | 0 <= i < |prefix|
      ensures Keys(prefix)[i] != f.key
    {
      assert keys[i] == prefix[i].key && keys[|prefix|] == f.key;
    }
  }

  function DropAll(store: Store, matches: seq<Value>): Store
    decreases |matches|
  {
    if matches == [] then store else DropAll(Drop(store, IdOf(matches[0])), matches[1..])
  }

  lemma {:induction false} DropAllIsWithout(prefix: Store, rest: Store, selector: Selector)
    requires Distinct(Keys(prefix + rest)) && OwnIds(rest)
    ensures DropAll(prefix + rest, Matching(Values(rest), selector)) == prefix + Without(rest, selector)
    decreases |rest|
  {
    hide IdOf, Tidy, Matching, Drop, Keys, Values, Distinct;
    if rest == [] {
      NoValues();
      MatchingNothing(selector);
    } else {
      var f, tail := rest[0], rest[1..];
      MatchingValues(rest, selector);
      assert prefix + rest == prefix + [f] + tail;
      assert IdOf(f.value) == f.key && OwnIds(tail);
      if selector(f.value) {
        NotBefore(prefix, f, tail);
        DropSuffix(prefix, f, tail);
        DropInside(prefix, f, tail);
        DropAllIsWithout(prefix, tail, selector);
        assert Without(rest, selector) == Without(tail, selector);
      } else {
        DropAllIsWithout(prefix + [f], tail, selector);
        Rejoin(prefix, f, Without(tail, selector));
      }
    }
  }

  lemma DropInside(prefix: Store, f: Field<Value>, rest: Store)
    requires Distinct(Keys(prefix + [f] + rest))
    ensures Distinct(Keys(prefix + rest))
  {
    var long, short := Keys(prefix + [f] + rest), Keys(prefix + rest);
    assert forall i :: 0 <= i < |short| ==> short[i] == long[if i < |prefix| then i else i + 1];
  }

  /* ---------- The collection ---------- */

  class Collection {
    const store: MemoryDocumentStore
    var observers: seq<Cursor>

    ghost predicate Valid()
      reads this, store
    {
      && store.Valid()
      && Stored(store.documents)
      && forall i, j :: 0 <= i < j < |observers| ==> observers[i] != observers[j]
    }

    constructor ()
      ensures Valid() && fresh(store) && store.documents == [] && observers == []
    {
      store := new MemoryDocumentStore();
      observers := [];
    }

    // Stops at the first cursor whose query throws.
    method NotifyObservers() returns (threw: bool)
      requires Valid()
      modifies set c | c in observers
      ensures threw == (Told(observers, Values(store.documents)) < |observers|)
      ensures forall j :: 0 <= j < |observers| ==>
                var c, told := observers[j], j < Told(observers, Values(store.documents));
                && c.previous == (if told then Some(Result(c.query, store.documents)) else old(c.previous))
                && c.emitted
                   == old(c.emitted)
                      + if told then Report(OrEmpty(old(c.previous)), Result(c.query, store.documents)) else []
    {
      hide Report, Raw, Outputs, RunsOn, Told, Values, Distinct, Stored;
      for i := 0 to |observers|
        invariant i <= Told(observers, Values(store.documents))
        invariant forall j :: 0 <= j < i ==>
                    && observers[j].previous == Some(Result(observers[j].query, store.documents))
                    && observers[j].emitted == old(observers[j].emitted)
                         + Report(OrEmpty(old(observers[j].previous)), Result(observers[j].query, store.documents))
        invariant forall j :: i <= j < |observers| ==>
                    observers[j].previous == old(observers[j].previous)
                    && observers[j].emitted == old(observers[j].emitted)
      {
        var docs := store.Entries();
        var failed := observers[i].HandleMutation(docs);
        if failed {
          return true;
        }
      }
      return false;
    }

    method Insert(fields: seq<Field<Value>>, random: string, names: Value -> bool) returns (threw: bool, id: string)
      requires Valid() && Tidy(Obj(fields))
      modifies store, set c | c in observers
      ensures Valid()
      ensures !threw ==> id == NewId(fields, random) && LocalId(Str(id))
      ensures var e := Perform(old(store.documents), Op.Insert(fields, random, names));
              var n := if e.notified then Told(observers, Values(store.documents)) else 0;
              && store.documents == e.store && threw == (e.threw || (e.notified && n < |observers|))
              && forall j :: 0 <= j < |observers| ==>
                   var c := observers[j];
                   && c.previous == (if j < n then Some(Result(c.query, store.documents)) else old(c.previous))
                   && c.emitted
                      == old(c.emitted) + if j < n then Report(OrEmpty(old(c.previous)), c.previous.value) else []
    {
      hide Report, Result, Stored, Distinct, Tidy, Told;
      PerformKeepsStored(store.documents, Op.Insert(fields, random, names));
      threw, id := PrepareInsert(fields, random, names);
      if !threw {
        threw := NotifyObservers();
      }
    }

    method PrepareInsert(fields: seq<Field<Value>>, random: string, names: Value -> bool)
      returns (threw: bool, stored: string)
      requires Valid() && Tidy(Obj(fields))
      modifies store
      ensures Valid()
      ensures var e := InsertEffect(old(store.documents), fields, random, names);
              store.documents == e.store && threw == e.threw && e.notified == !threw
      ensures !threw ==> stored == NewId(fields, random) && LocalId(Str(stored))
    {
      InsertedStored(store.documents, fields, random, names);
      hide Stored, Tidy, Distinct;
      if !names(Obj(fields)) {
        return true, "";
      }
      var whole := fields;
      if Nullish(Lookup(whole, "_id")) {
        whole := Put(whole, "_id", Str(random));
      }
      var id := Lookup(whole, "_id");
      if id == None || !LocalId(id.value) {
        return true, "";
      }
      var present := store.Has(id.value.s);
      if present {
        return true, "";
      }
      store.Set(id.value.s, Obj(whole));
      return false, id.value.s;
    }

    method Remove(selector: Selector) returns (threw: bool, count: nat)
      requires Valid()
      modifies store, set c | c in observers
      ensures Valid()
      ensures store.documents == Perform(old(store.documents), Op.Remove(selector)).store
      ensures count == |old(store.documents)| - |store.documents|
      ensures var n := Told(observers, Values(store.documents));
              && threw == (n < |observers|)
              && forall j :: 0 <= j < |observers| ==>
                   var c := observers[j];
                   && c.previous == (if j < n then Some(Result(c.query, store.documents)) else old(c.previous))
                   && c.emitted
                      == old(c.emitted) + if j < n then Report(OrEmpty(old(c.previous)), c.previous.value) else []
    {
      hide Report, Result, Stored, Without, Told;
      WithoutStored(store.documents, selector);
      count := DeleteMatches(selector);
      threw := NotifyObservers();
    }

    method DeleteMatches(selector: Selector) returns (count: nat)
      requires Valid()
      modifies store
      ensures store.Valid() && store.documents == Without(old(store.documents), selector)
      ensures count == |old(store.documents)| - |store.documents|
    {
      hide Tidy, IdOf, Distinct, Drop, Matching, Keys, Values;
      ghost var before := store.documents;
      var docs := store.Entries();
      var documents := Filter(docs, selector);
      assert [] + before == before;
      DropAllIsWithout([], before, selector);
      WithoutCount(before, selector);
      for i := 0 to |documents|
        invariant store.Valid()
        invariant DropAll(store.documents, documents[i..]) == DropAll(before, documents)
      {
        assert documents[i..][1..] == documents[i + 1..];
        var _ := store.Delete(IdOf(documents[i]));
      }
      count := |documents|;
    }

    // The documents written before a failure stay written, and nobody is told.
    method Update(selector: Selector, modifier: Modifier, multi: bool) returns (affected: nat, threw: bool)
      requires Valid() && KeepsIdentity(modifier)
      modifies store, set c | c in observers
      ensures Valid()
      ensures affected == Rewritten(old(store.documents), selector, modifier, multi).affected
      ensures var e := Perform(old(store.documents), Op.Update(selector, modifier, multi));
              var n := if e.notified then Told(observers, Values(store.documents)) else 0;
              && store.documents == e.store && threw == (e.threw || (e.notified && n < |observers|))
              && forall j :: 0 <= j < |observers| ==>
                   var c := observers[j];
                   && c.previous == (if j < n then Some(Result(c.query, store.documents)) else old(c.previous))
                   && c.emitted
                      == old(c.emitted) + if j < n then Report(OrEmpty(old(c.previous)), c.previous.value) else []
    {
      hide Report, Result, Tidy, IdOf, Distinct, Put, Matching, Keys, Values, KeepsIdentity, Stored, Told;
      ghost var before := store.documents;
      RewrittenStored(before, selector, modifier, multi);
      affected, threw := Walk(selector, modifier, multi);
      if !threw && affected > 0 {
        threw := NotifyObservers();
      }
    }

    method Walk(selector: Selector, modifier: Modifier, multi: bool) returns (affected: nat, threw: bool)
      requires Valid()
      modifies store
      ensures store.Valid()
      ensures Rewrite(store.documents, affected, threw) == Rewritten(old(store.documents), selector, modifier, multi)
    {
      hide Tidy, IdOf, Distinct, Put, Matching, Keys, Values, Rewritten;
      ghost var before := store.documents;
      var docs := store.Entries();
      var matches := Filter(docs, selector);
      assert [] + before == before;
      ProcessIsRewritten([], before, selector, modifier, multi);
      affected, threw := 0, false;
      for i := 0 to |matches|
        invariant store.Valid() && !threw
        invariant var c := Process(store.documents, matches[i..], modifier, multi);
                  c.(affected := affected + c.affected) == Process(before, matches, modifier, multi)
        invariant multi || affected == 0
      {
        assert matches[i..][1..] == matches[i + 1..];
        var document := modifier(matches[i]);
        if document == None {
          threw := true;
          return;
        }
        store.Set(IdOf(matches[i]), document.value);
        affected := affected + 1;
        if !multi {
          break;
        }
      }
    }

    method Upsert(selector: Selector, modifier: Modifier, multi: bool,
                  created: Option<seq<Field<Value>>>, insertedId: Option<Value>, random: string, names: Value -> bool)
      returns (threw: bool, numberAffected: nat, newId: Option<string>)
      requires Valid() && Lawful(Op.Upsert(selector, modifier, multi, created, insertedId, random, names))
      modifies store, set c | c in observers
      ensures Valid()
      ensures var c := Rewritten(old(store.documents), selector, modifier, multi);
              !threw ==>
                if c.affected > 0 then numberAffected == c.affected && newId == None
                else numberAffected == 1 && created.Some?
                     && newId == Some(NewId(UpsertDocument(created.value, insertedId), random))
      ensures var e := Perform(old(store.documents),
                               Op.Upsert(selector, modifier, multi, created, insertedId, random, names));
              var n := if e.notified then Told(observers, Values(store.documents)) else 0;
              && store.documents == e.store && threw == (e.threw || (e.notified && n < |observers|))
              && forall j :: 0 <= j < |observers| ==>
                   var c := observers[j];
                   && c.previous == (if j < n then Some(Result(c.query, store.documents)) else old(c.previous))
                   && c.emitted
                      == old(c.emitted) + if j < n then Report(OrEmpty(old(c.previous)), c.previous.value) else []
    {
      hide Report, Result, Tidy, IdOf, Distinct, Put, Keys, KeepsIdentity, Stored, Rewritten, InsertEffect, Told;
      QuietRewrites(store.documents, selector, modifier, multi);
      var affected, failed := Update(selector, modifier, multi);
      if failed || affected > 0 {
        return failed, affected, None;
      }
      if created == None {
        return true, 0, None;
      }
      if insertedId.Some? {
        PutTidy(created.value, "_id", insertedId.value);
      }
      var document := created.value;
      if Falsy(Lookup(document, "_id")) && insertedId.Some? {
        document := Put(document, "_id", insertedId.value);
      }
      var id;
      threw, id := PrepareInsert(document, random, names);
      numberAffected, newId := 1, Some(id);
      if !threw {
        threw := NotifyObservers();
      }
    }
  }

  lemma {:induction false} WithoutCount(store: Store, selector: Selector)
    ensures |Matching(Values(store), selector)| == |store| - |Without(store, selector)|
  {
    if store != [] {
      MatchingValues(store, selector);
      WithoutCount(store[1..], selector);
    }
  }
}
