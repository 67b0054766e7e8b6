// What a live cursor reports when its collection changes, and what a listener makes of it
// (typeferry-ts/src/minimongo/cursor.ts).
module LiveQuery {
  import opened Results
  import opened Fields
  import opened ValueOrder

  // String(document._id), for documents that carry a string identity.
  function IdOf(doc: Value): string {
    if doc.Obj? && Lookup(doc.fields, "_id").Some? && Lookup(doc.fields, "_id").value.Str?
    then Lookup(doc.fields, "_id").value.s
    else "undefined"
  }

  predicate Same(a: Value, b: Value) { Equal(a, b, false) }

  datatype Entry = Entry(document: Value, index: nat)

  datatype Event =
    | Removed(document: Value, index: nat)
    | Added(document: Value, index: nat)
    | Changed(previous: Value, document: Value, previousIndex: nat, index: nat)
    | Change(documents: seq<Value>)

  // new Map(documents.map(...)): the documents by identity, in order.
  function Indexed(docs: seq<Value>): seq<Field<Entry>> {
    if docs == [] then []
    else
      var last := docs[|docs| - 1];
      Put(Indexed(docs[..|docs| - 1]), IdOf(last), Entry(last, |docs| - 1))
  }

  /* ---------- The events of one mutation ---------- */

  function Removal(f: Field<Entry>, current: seq<Field<Entry>>): seq<Event> {
    if Lookup(current, f.key).Some? then [] else [Removed(f.value.document, f.value.index)]
  }

  function Removals(previous: seq<Field<Entry>>, current: seq<Field<Entry>>): seq<Event> {
    if previous == [] then []
    else Removals(previous[..|previous| - 1], current) + Removal(previous[|previous| - 1], current)
  }

  function Arrival(previous: seq<Field<Entry>>, f: Field<Entry>): seq<Event> {
    var known := Lookup(previous, f.key);
    if known == None then [Added(f.value.document, f.value.index)]
    else if !Same(known.value.document, f.value.document)
    then [Changed(known.value.document, f.value.document, known.value.index, f.value.index)]
    else []
  }

  predicate Moved(previous: seq<Field<Entry>>, f: Field<Entry>) {
    var known := Lookup(previous, f.key);
    known.Some? && known.value.index != f.value.index
  }

  function Arrivals(previous: seq<Field<Entry>>, current: seq<Field<Entry>>): seq<Event> {
    if current == [] then []
    else Arrivals(previous, current[..|current| - 1]) + Arrival(previous, current[|current| - 1])
  }

  predicate AnyMoved(previous: seq<Field<Entry>>, current: seq<Field<Entry>>) {
    exists i :: 0 <= i < |current| && Moved(previous, current[i])
  }

  predicate Notable(previous: seq<Value>, current: seq<Value>) {
    var p, c := Indexed(previous), Indexed(current);
    Removals(p, c) != [] || Arrivals(p, c) != [] || AnyMoved(p, c)
  }

  // The events about single documents.
  function Details(previous: seq<Value>, current: seq<Value>): seq<Event> {
    var p, c := Indexed(previous), Indexed(current);
    Removals(p, c) + Arrivals(p, c)
  }

  function Report(previous: seq<Value>, current: seq<Value>): seq<Event> {
    var p, c := Indexed(previous), Indexed(current);
    Removals(p, c) + Arrivals(p, c) + if Notable(previous, current) then [Change(current)] else []
  }

  /* ---------- A listener that keeps the documents by identity ---------- */

  type Mirror = map<string, Value>

  function Applied(m: Mirror, e: Event): Mirror {
    match e
    case Removed(doc, _) => m - {IdOf(doc)}
    case Added(doc, _) => m[IdOf(doc) := doc]
    case Changed(_, doc, _, _) => m[IdOf(doc) := doc]
    case Change(_) => m
  }

  function ApplyAll(m: Mirror, es: seq<Event>): Mirror {
    if es == [] then m else Applied(ApplyAll(m, es[..|es| - 1]), es[|es| - 1])
  }

  ghost predicate HasId(docs: seq<Value>, id: string) {
    exists i :: 0 <= i < |docs| && IdOf(docs[i]) == id
  }

  // A query result: each identity once, every document with distinct keys.
  ghost predicate Rows(docs: seq<Value>) {
    && (forall i :: 0 <= i < |docs| ==> Tidy(docs[i]))
    && (forall i, j :: 0 <= i < j < |docs| ==> IdOf(docs[i]) != IdOf(docs[j]))
  }

  ghost predicate Mirrors(m: Mirror, docs: seq<Value>) {
    && (forall id :: id in m ==> Tidy(m[id]) && HasId(docs, id))
    && (forall i :: 0 <= i < |docs| ==> IdOf(docs[i]) in m && Same(m[IdOf(docs[i])], docs[i]))
  }

  function ById(docs: seq<Value>): Mirror {
    if docs == [] then map[] else ById(docs[..|docs| - 1])[IdOf(docs[|docs| - 1]) := docs[|docs| - 1]]
  }

  lemma {:induction false} ByIdMirrors(docs: seq<Value>)
    requires Rows(docs)
    ensures Mirrors(ById(docs), docs)
    ensures forall i :: 0 <= i < |docs| ==> IdOf(docs[i]) in ById(docs) && ById(docs)[IdOf(docs[i])] == docs[i]
  {
    hide Equal, IdOf, Tidy;
    if docs != [] {
      var front, last := docs[..|docs| - 1], docs[|docs| - 1];
      ByIdMirrors(front);
      assert ById(docs) == ById(front)[IdOf(last) := last];
      forall id | id in ById(docs)
        ensures Tidy(ById(docs)[id]) && HasId(docs, id)
      {
        if id == IdOf(last) {
          assert IdOf(docs[|docs| - 1]) == id;
        } else {
          assert HasId(front, id);
          var i :| 0 <= i < |front| && IdOf(front[i]) == id;
          assert IdOf(docs[i]) == id;
        }
      }
      forall i | 0 <= i < |docs|
        ensures IdOf(docs[i]) in ById(docs) && ById(docs)[IdOf(docs[i])] == docs[i] && Same(docs[i], docs[i])
      {
        LooseIsAnEquivalence(docs[i], docs[i], docs[i]);
        if i < |front| {
          assert front[i] == docs[i];
        }
      }
    }
  }

  /* ---------- The index of a result ---------- */

  lemma {:induction false} IndexedRows(docs: seq<Value>)
    requires Rows(docs)
    ensures |Indexed(docs)| == |docs|
    ensures forall i :: 0 <= i < |docs| ==> Indexed(docs)[i] == Field(IdOf(docs[i]), Entry(docs[i], i))
  {
    hide IdOf, Put, Tidy;
    if docs != [] {
      var front, last := docs[..|docs| - 1], docs[|docs| - 1];
      IndexedRows(front);
      var before := Indexed(front);
      assert IdOf(last) !in Keys(before) by {
        forall i | 0 <= i < |before|
          ensures Keys(before)[i] != IdOf(last)
        {
          assert IdOf(docs[i]) != IdOf(docs[|docs| - 1]);
        }
      }
      PutKeys(before, IdOf(last), Entry(last, |front|));
    }
  }

  lemma IndexedFinds(docs: seq<Value>, id: string)
    requires Rows(docs)
    ensures Lookup(Indexed(docs), id).Some? <==> HasId(docs, id)
    ensures Lookup(Indexed(docs), id).Some? ==>
              var e := Lookup(Indexed(docs), id).value;
              e.index < |docs| && e.document == docs[e.index] && IdOf(e.document) == id
    ensures forall i :: 0 <= i < |docs| && IdOf(docs[i]) == id ==> Lookup(Indexed(docs), id) == Some(Entry(docs[i], i))
  {
    hide IdOf, Put, Indexed;
    IndexedRows(docs);
    var rows := Indexed(docs);
    forall i, j | 0 <= i < j < |rows|
      ensures Keys(rows)[i] != Keys(rows)[j]
    {
      assert IdOf(docs[i]) != IdOf(docs[j]);
    }
    forall i | 0 <= i < |docs| && IdOf(docs[i]) == id
      ensures Lookup(rows, id) == Some(Entry(docs[i], i))
    {
      LookupAt(rows, i);
    }
    if Lookup(rows, id).Some? {
      var i := LookupFinds(rows, id);
    }
  }

  /* ---------- Applying the events brings the mirror up to date ---------- */

  lemma {:induction false} ApplyJoins(m: Mirror, a: seq<Event>, b: seq<Event>)
    ensures ApplyAll(m, a + b) == ApplyAll(ApplyAll(m, a), b)
  {
    if b == [] {
      assert a + b == a;
    } else {
      assert (a + b)[..|a + b| - 1] == a + b[..|b| - 1];
      ApplyJoins(m, a, b[..|b| - 1]);
    }
  }

  lemma ApplyOne(m: Mirror, e: Event)
    ensures ApplyAll(m, [e]) == Applied(m, e)
  {
    assert [e][..0] == [];
    assert ApplyAll(m, []) == m;
  }

  // A list of entries read off documents: each filed under its own identity.
  ghost predicate Filed(fields: seq<Field<Entry>>) {
    forall i :: 0 <= i < |fields| ==> fields[i].key == IdOf(fields[i].value.document)
  }

  lemma {:induction false} RemovalsApply(m: Mirror, previous: seq<Field<Entry>>, current: seq<Field<Entry>>)
    requires Filed(previous)
    ensures forall id :: id in ApplyAll(m, Removals(previous, current)) <==>
              id in m && (id in Keys(previous) ==> Lookup(current, id).Some?)
    ensures forall id :: id in ApplyAll(m, Removals(previous, current)) ==>
              ApplyAll(m, Removals(previous, current))[id] == m[id]
  {
    hide IdOf, Lookup;
    if previous != [] {
      var front, last := previous[..|previous| - 1], previous[|previous| - 1];
      RemovalsApply(m, front, current);
      assert Keys(previous) == Keys(front) + [last.key];
      var before := ApplyAll(m, Removals(front, current));
      ApplyJoins(m, Removals(front, current), Removal(last, current));
      if Lookup(current, last.key) == None {
        ApplyOne(before, Removed(last.value.document, last.value.index));
      }
    }
  }

  // What the second loop leaves under an identity.
  ghost function Settled(m: Mirror, previous: seq<Field<Entry>>, current: seq<Field<Entry>>,
                         id: string): Option<Value> {
    if Lookup(current, id).Some? && Arrival(previous, Field(id, Lookup(current, id).value)) != []
    then Some(Lookup(current, id).value.document)
    else if id in m then Some(m[id]) else None
  }

  function At(m: Mirror, id: string): Option<Value> { if id in m then Some(m[id]) else None }

  lemma ArrivalApplies(m: Mirror, previous: seq<Field<Entry>>, f: Field<Entry>, id: string)
    requires f.key == IdOf(f.value.document)
    ensures At(ApplyAll(m, Arrival(previous, f)), id)
         == if id == f.key && Arrival(previous, f) != [] then Some(f.value.document) else At(m, id)
  {
    hide IdOf, Lookup, Same;
    if Arrival(previous, f) != [] {
      ApplyOne(m, Arrival(previous, f)[0]);
    }
  }

  lemma {:induction false} ArrivalsApply(m: Mirror, previous: seq<Field<Entry>>, current: seq<Field<Entry>>, id: string)
    requires Filed(current) && Distinct(Keys(current))
    ensures At(ApplyAll(m, Arrivals(previous, current)), id) == Settled(m, previous, current, id)
  {
    hide IdOf, Lookup, Same, Arrival, ApplyAll, Distinct, Keys;
    if current == [] {
      EmptyLookup<Entry>(id);
      assert ApplyAll(m, []) == m by { ApplyNone(m); }
    } else {
      var front, last := current[..|current| - 1], current[|current| - 1];
      assert current == front + [last];
      FrontKeys(current);
      ArrivalsApply(m, previous, front, id);
      LookupSnoc(front, last, id);
      NotFound(front, last.key);
      ApplyJoins(m, Arrivals(previous, front), Arrival(previous, last));
      ArrivalApplies(ApplyAll(m, Arrivals(previous, front)), previous, last, id);
    }
  }

  lemma ApplyNone(m: Mirror)
    ensures ApplyAll(m, []) == m
  {
  }

  lemma EmptyLookup<T(!new)>(key: string)
    ensures Lookup<T>([], key) == None
  {
  }

  lemma RowsAreFiled(docs: seq<Value>)
    requires Rows(docs)
    ensures Filed(Indexed(docs)) && Distinct(Keys(Indexed(docs)))
    ensures forall id :: id in Keys(Indexed(docs)) <==> HasId(docs, id)
  {
    hide IdOf, Put, Indexed;
    IndexedRows(docs);
    var rows := Indexed(docs);
    forall i, j | 0 <= i < j < |rows|
      ensures Keys(rows)[i] != Keys(rows)[j]
    {
      assert IdOf(docs[i]) != IdOf(docs[j]);
    }
    forall id
      ensures id in Keys(rows) <==> HasId(docs, id)
    {
      if HasId(docs, id) {
        var i :| 0 <= i < |docs| && IdOf(docs[i]) == id;
        assert Keys(rows)[i] == id;
      }
    }
  }

  function Find(docs: seq<Value>, id: string): Option<Value> {
    var found := Lookup(Indexed(docs), id);
    if found == None then None else Some(found.value.document)
  }

  predicate SameEntry(a: Option<Value>, b: Option<Value>) {
    a.Some? == b.Some? && (a.Some? ==> Same(a.value, b.value))
  }

  ghost predicate TidyMirror(m: Mirror) {
    forall id :: id in m ==> Tidy(m[id])
  }

  lemma FindsRow(docs: seq<Value>, id: string)
    requires Rows(docs)
    ensures Find(docs, id).Some? <==> HasId(docs, id)
    ensures Find(docs, id).Some? ==> Tidy(Find(docs, id).value) && IdOf(Find(docs, id).value) == id
    ensures forall i :: 0 <= i < |docs| && IdOf(docs[i]) == id ==> Find(docs, id) == Some(docs[i])
  {
    hide IdOf, Indexed, Lookup, Tidy;
    IndexedFinds(docs, id);
  }

  ghost predicate HoldsAt(m: Mirror, docs: seq<Value>, id: string) { SameEntry(At(m, id), Find(docs, id)) }

  // A mirror of a result agrees with it under every identity.
  lemma MirrorsEverywhere(m: Mirror, docs: seq<Value>)
    requires Rows(docs) && TidyMirror(m)
    ensures Mirrors(m, docs) <==> forall id :: HoldsAt(m, docs, id)
  {
    hide IdOf, Find, Same, Tidy;
    if Mirrors(m, docs) {
      forall id
        ensures HoldsAt(m, docs, id)
      {
        FindsRow(docs, id);
      }
    }
    if forall id :: HoldsAt(m, docs, id) {
      forall id | id in m
        ensures HasId(docs, id)
      {
        FindsRow(docs, id);
        assert HoldsAt(m, docs, id);
      }
      forall i | 0 <= i < |docs|
        ensures IdOf(docs[i]) in m && Same(m[IdOf(docs[i])], docs[i])
      {
        FindsRow(docs, IdOf(docs[i]));
        assert HoldsAt(m, docs, IdOf(docs[i]));
      }
    }
  }

  // Where a mirror stands once the events of a mutation have been applied: set where the cursor
  // noticed a difference, untouched where it noticed none.
  ghost function Expected(m: Mirror, previous: seq<Value>, current: seq<Value>, id: string): Option<Value> {
    if SameEntry(Find(previous, id), Find(current, id)) then At(m, id) else Find(current, id)
  }

  lemma ReportSettles(m: Mirror, previous: seq<Value>, current: seq<Value>, id: string)
    requires Rows(previous) && Rows(current)
    ensures At(ApplyAll(m, Report(previous, current)), id) == Expected(m, previous, current, id)
  {
    hide IdOf, Lookup, Same, Indexed, Removals, Arrivals;
    var p, c := Indexed(previous), Indexed(current);
    RowsAreFiled(previous);
    RowsAreFiled(current);
    IndexedFinds(current, id);
    IndexedFinds(previous, id);
    var m1 := ApplyAll(m, Removals(p, c));
    var m2 := ApplyAll(m1, Arrivals(p, c));
    ApplyJoins(m, Removals(p, c), Arrivals(p, c));
    RemovalsApply(m, p, c);
    ArrivalsApply(m1, p, c, id);
    if Notable(previous, current) {
      ApplyJoins(m, Removals(p, c) + Arrivals(p, c), [Change(current)]);
      ApplyOne(m2, Change(current));
    } else {
      assert Removals(p, c) + Arrivals(p, c) + [] == Removals(p, c) + Arrivals(p, c);
    }
    assert ApplyAll(m, Report(previous, current)) == m2;
  }

  ghost predicate Unnoticed(previous: seq<Value>, current: seq<Value>, id: string) {
    SameEntry(Find(previous, id), Find(current, id))
  }

  // Whatever a listener holds, the events make it a mirror of the new result exactly when it was
  // already right wherever the cursor noticed no difference.
  lemma ReportAppliesExactly(m: Mirror, previous: seq<Value>, current: seq<Value>)
    requires Rows(previous) && Rows(current) && TidyMirror(m)
    ensures TidyMirror(ApplyAll(m, Report(previous, current)))
    ensures Mirrors(ApplyAll(m, Report(previous, current)), current)
       <==> forall id :: Unnoticed(previous, current, id) ==> HoldsAt(m, current, id)
  {
    hide IdOf, Find, Same, ApplyAll, Report, Tidy, Rows, Mirrors;
    var after := ApplyAll(m, Report(previous, current));
    forall id | id in after
      ensures Tidy(after[id])
    {
      ReportSettles(m, previous, current, id);
      FindsRow(current, id);
      assert At(after, id) == Some(after[id]);
    }
    MirrorsEverywhere(after, current);
    forall id
      ensures HoldsAt(after, current, id) <==> (Unnoticed(previous, current, id) ==> HoldsAt(m, current, id))
    {
      ReportSettles(m, previous, current, id);
      FindsRow(current, id);
      SameSelf(current, id);
    }
  }

  lemma SameSelf(docs: seq<Value>, id: string)
    requires Rows(docs)
    ensures SameEntry(Find(docs, id), Find(docs, id))
  {
    hide IdOf, Find, Equal, Tidy;
    FindsRow(docs, id);
    if Find(docs, id).Some? {
      var d := Find(docs, id).value;
      LooseIsAnEquivalence(d, d, d);
    }
  }

  // In particular a mirror of the last result becomes a mirror of the new one.
  lemma ReportApplies(m: Mirror, previous: seq<Value>, current: seq<Value>)
    requires Rows(previous) && Rows(current) && Mirrors(m, previous)
    ensures Mirrors(ApplyAll(m, Report(previous, current)), current)
  {
    hide IdOf, Find, Equal, ApplyAll, Report, Tidy, Rows;
    assert TidyMirror(m);
    ReportAppliesExactly(m, previous, current);
    MirrorsEverywhere(m, previous);
    forall id | Unnoticed(previous, current, id)
      ensures HoldsAt(m, current, id)
    {
      assert HoldsAt(m, previous, id);
      FindsRow(previous, id);
      FindsRow(current, id);
      if id in m {
        LooseIsAnEquivalence(m[id], Find(previous, id).value, Find(current, id).value);
      }
    }
  }

  /* ---------- Reports cut short ---------- */

  function EventId(e: Event): string { if e.Change? then "" else IdOf(e.document) }

  ghost predicate TidyEvent(e: Event) { e.Added? || e.Changed? ==> Tidy(e.document) }

  lemma {:induction false} ApplyTidy(m: Mirror, es: seq<Event>)
    requires TidyMirror(m) && forall i :: 0 <= i < |es| ==> TidyEvent(es[i])
    ensures TidyMirror(ApplyAll(m, es))
  {
    hide IdOf, Tidy;
    if es != [] {
      ApplyTidy(m, es[..|es| - 1]);
    }
  }

  lemma {:induction false} Untouched(m: Mirror, es: seq<Event>, id: string)
    requires forall i :: 0 <= i < |es| ==> !es[i].Change? && EventId(es[i]) != id
    ensures At(ApplyAll(m, es), id) == At(m, id)
  {
    hide IdOf;
    if es != [] {
      Untouched(m, es[..|es| - 1], id);
    }
  }

  ghost predicate DistinctEvents(es: seq<Event>) {
    forall i, j :: 0 <= i < j < |es| ==> EventId(es[i]) != EventId(es[j])
  }

  lemma {:induction false} RemovalsNamed(previous: seq<Field<Entry>>, current: seq<Field<Entry>>)
    requires Filed(previous) && Distinct(Keys(previous))
    ensures var es := Removals(previous, current);
            && DistinctEvents(es)
            && forall i :: 0 <= i < |es| ==>
                 es[i].Removed? && EventId(es[i]) in Keys(previous) && Lookup(current, EventId(es[i])) == None
  {
    hide IdOf, Lookup, Distinct, Keys, Removals;
    if previous == [] {
      assert Removals(previous, current) == [] by { NoRemovals(current); }
    } else {
      var front, last := previous[..|previous| - 1], previous[|previous| - 1];
      FrontKeys(previous);
      RemovalsNamed(front, current);
      OneMoreRemoval(previous, current);
      assert Filed([last]);
    }
  }

  lemma NoRemovals(current: seq<Field<Entry>>)
    ensures Removals([], current) == []
  {
  }

  lemma OneMoreRemoval(previous: seq<Field<Entry>>, current: seq<Field<Entry>>)
    requires previous != []
    ensures var front, last := previous[..|previous| - 1], previous[|previous| - 1];
            && Removals(previous, current) == Removals(front, current) + Removal(last, current)
            && Keys(previous) == Keys(front) + [last.key]
  {
    hide Removal;
  }

  ghost predicate Reported(previous: seq<Field<Entry>>, current: seq<Field<Entry>>, d: Value) {
    exists k :: 0 <= k < |current| && current[k].value.document == d && Arrival(previous, current[k]) != []
  }

  lemma {:induction false} ArrivalsNamed(previous: seq<Field<Entry>>, current: seq<Field<Entry>>)
    requires Filed(current) && Distinct(Keys(current))
    ensures var es := Arrivals(previous, current);
            && DistinctEvents(es)
            && forall i :: 0 <= i < |es| ==>
                 && (es[i].Added? || es[i].Changed?) && EventId(es[i]) in Keys(current)
                 && Reported(previous, current, es[i].document)
  {
    hide IdOf, Lookup, Distinct, Same;
    if current != [] {
      var front, last := current[..|current| - 1], current[|current| - 1];
      FrontKeys(current);
      ArrivalsNamed(previous, front);
      assert Keys(current) == Keys(front) + [last.key];
      var es, before := Arrivals(previous, current), Arrivals(previous, front);
      assert es == before + Arrival(previous, last);
      forall i | 0 <= i < |es|
        ensures Reported(previous, current, es[i].document)
      {
        if i < |before| {
          var k :| 0 <= k < |front| && front[k].value.document == before[i].document
              && Arrival(previous, front[k]) != [];
          assert current[k] == front[k];
        } else {
          assert current[|front|] == last;
        }
      }
    }
  }

  // Each event is about an identity of its own, at which the cursor noticed a difference.
  lemma DetailsNamed(previous: seq<Value>, current: seq<Value>)
    requires Rows(previous) && Rows(current)
    ensures var es := Details(previous, current);
            && DistinctEvents(es)
            && forall i :: 0 <= i < |es| ==>
                 !es[i].Change? && TidyEvent(es[i]) && !Unnoticed(previous, current, EventId(es[i]))
  {
    hide IdOf, Lookup, Same, Indexed, Tidy, Removals, Arrivals;
    var p, c := Indexed(previous), Indexed(current);
    RowsAreFiled(previous);
    RowsAreFiled(current);
    RemovalsNamed(p, c);
    ArrivalsNamed(p, c);
    var gone, come := Removals(p, c), Arrivals(p, c);
    forall i | 0 <= i < |gone|
      ensures !Unnoticed(previous, current, EventId(gone[i]))
    {
      FindsRow(previous, EventId(gone[i]));
    }
    forall i | 0 <= i < |come|
      ensures TidyEvent(come[i]) && !Unnoticed(previous, current, EventId(come[i])) && Lookup(c, EventId(come[i])).Some?
    {
      var k :| 0 <= k < |c| && c[k].value.document == come[i].document && Arrival(p, c[k]) != [];
      ArrivalNoticed(previous, current, k);
    }
  }

  lemma ArrivalNoticed(previous: seq<Value>, current: seq<Value>, k: nat)
    requires Rows(previous) && Rows(current) && k < |Indexed(current)|
             && Arrival(Indexed(previous), Indexed(current)[k]) != []
    ensures var d := Indexed(current)[k].value.document;
            Tidy(d) && !Unnoticed(previous, current, IdOf(d)) && Lookup(Indexed(current), IdOf(d)).Some?
  {
    hide IdOf, Lookup, Same, Indexed, Tidy;
    IndexedRows(current);
    IndexedFinds(current, IdOf(current[k]));
    IndexedFinds(previous, IdOf(current[k]));
    assert HasId(current, IdOf(current[k]));
  }

  // All of the details do what the whole report does.
  lemma DetailsSuffice(m: Mirror, previous: seq<Value>, current: seq<Value>)
    ensures ApplyAll(m, Details(previous, current)) == ApplyAll(m, Report(previous, current))
  {
    hide Indexed, Removals, Arrivals, AnyMoved;
    var details := Details(previous, current);
    if Notable(previous, current) {
      ApplyJoins(m, details, [Change(current)]);
      ApplyOne(ApplyAll(m, details), Change(current));
    } else {
      assert Report(previous, current) == details + [] == details;
    }
  }

  // A mirror of the last result that is handed only the first events becomes a mirror of the new
  // one exactly if those are all of them.
  lemma CutExactly(m: Mirror, previous: seq<Value>, current: seq<Value>, d: nat)
    requires Rows(previous) && Rows(current) && Mirrors(m, previous) && d <= |Details(previous, current)|
    ensures TidyMirror(ApplyAll(m, Details(previous, current)[..d]))
    ensures Mirrors(ApplyAll(m, Details(previous, current)[..d]), current) <==> d == |Details(previous, current)|
  {
    hide IdOf, Same, Details, Report, ApplyAll, Find, Rows, Tidy;
    var es := Details(previous, current);
    DetailsNamed(previous, current);
    assert TidyMirror(m);
    ApplyTidy(m, es[..d]);
    if d == |es| {
      assert es[..d] == es;
      DetailsSuffice(m, previous, current);
      ReportApplies(m, previous, current);
    } else {
      var id := EventId(es[d]);
      Untouched(m, es[..d], id);
      MirrorsEverywhere(m, previous);
      MirrorsEverywhere(ApplyAll(m, es[..d]), current);
      StillNoticed(m, previous, current, id);
      assert !HoldsAt(ApplyAll(m, es[..d]), current, id);
    }
  }

  lemma StillNoticed(m: Mirror, previous: seq<Value>, current: seq<Value>, id: string)
    requires Rows(previous) && Rows(current) && TidyMirror(m)
    requires HoldsAt(m, previous, id) && !Unnoticed(previous, current, id)
    ensures !HoldsAt(m, current, id)
  {
    hide IdOf, Equal, Find, Tidy, Rows;
    FindsRow(previous, id);
    FindsRow(current, id);
    if id in m && Find(current, id).Some? {
      LooseIsAnEquivalence(Find(previous, id).value, m[id], Find(current, id).value);
      LooseIsAnEquivalence(m[id], Find(previous, id).value, m[id]);
    }
  }

  /* ---------- `change` fires exactly when the result differs ---------- */

  ghost predicate SameRows(a: seq<Value>, b: seq<Value>) {
    |a| == |b| && forall i :: 0 <= i < |a| ==> Same(a[i], b[i])
  }

  lemma SameKeepsId(a: Value, b: Value)
    requires Same(a, b) && Tidy(a) && Tidy(b)
    ensures IdOf(a) == IdOf(b)
  {
    if a.Obj? {
      if Lookup(a.fields, "_id").Some? {
        var i := LookupFinds(a.fields, "_id");
      }
      if Lookup(b.fields, "_id").Some? {
        LooseIsAnEquivalence(b, a, a);
        var j := LookupFinds(b.fields, "_id");
      }
    }
  }

  lemma {:induction false} RemovalsEmpty(previous: seq<Field<Entry>>, current: seq<Field<Entry>>)
    ensures Removals(previous, current) == []
            <==> forall i :: 0 <= i < |previous| ==> Lookup(current, previous[i].key).Some?
  {
    hide Lookup;
    if previous != [] {
      var front, last := previous[..|previous| - 1], previous[|previous| - 1];
      RemovalsEmpty(front, current);
      assert forall i :: 0 <= i < |previous| ==> previous[i] == if i < |front| then front[i] else last;
    }
  }

  lemma {:induction false} ArrivalsEmpty(previous: seq<Field<Entry>>, current: seq<Field<Entry>>)
    ensures Arrivals(previous, current) == []
            <==> forall i :: 0 <= i < |current| ==> Arrival(previous, current[i]) == []
  {
    hide Arrival;
    if current != [] {
      var front, last := current[..|current| - 1], current[|current| - 1];
      ArrivalsEmpty(previous, front);
      assert forall i :: 0 <= i < |current| ==> current[i] == if i < |front| then front[i] else last;
    }
  }

  lemma QuietMeansSame(previous: seq<Value>, current: seq<Value>)
    requires Rows(previous) && Rows(current) && !Notable(previous, current)
    ensures SameRows(previous, current)
  {
    hide IdOf, Lookup, Same, Indexed;
    var p, c := Indexed(previous), Indexed(current);
    RemovalsEmpty(p, c);
    ArrivalsEmpty(p, c);
    IndexedRows(previous);
    IndexedRows(current);
    forall i | 0 <= i < |previous|
      ensures i < |current| && IdOf(current[i]) == IdOf(previous[i])
    {
      IndexedFinds(current, IdOf(previous[i]));
      IndexedFinds(previous, IdOf(previous[i]));
      var j := Lookup(c, p[i].key).value.index;
      assert !Moved(p, c[j]);
    }
    forall i | 0 <= i < |current|
      ensures i < |previous| && Same(previous[i], current[i])
    {
      IndexedFinds(previous, IdOf(current[i]));
      assert Arrival(p, c[i]) == [] && !Moved(p, c[i]);
    }
  }

  lemma SameMeansQuiet(previous: seq<Value>, current: seq<Value>)
    requires Rows(previous) && Rows(current) && SameRows(previous, current)
    ensures !Notable(previous, current)
  {
    hide IdOf, Lookup, Same, Indexed;
    var p, c := Indexed(previous), Indexed(current);
    RemovalsEmpty(p, c);
    ArrivalsEmpty(p, c);
    IndexedRows(previous);
    IndexedRows(current);
    forall i | 0 <= i < |previous|
      ensures Lookup(c, p[i].key).Some? && Arrival(p, c[i]) == [] && !Moved(p, c[i])
    {
      SameKeepsId(previous[i], current[i]);
      IndexedFinds(current, IdOf(current[i]));
      IndexedFinds(previous, IdOf(previous[i]));
    }
  }

  // One `change` with the new result when it differs from the last one up to equality, and
  // no event of any kind when it does not.
  lemma ChangeFiresExactly(previous: seq<Value>, current: seq<Value>)
    requires Rows(previous) && Rows(current)
    ensures SameRows(previous, current) <==> Report(previous, current) == []
    ensures Change(current) in Report(previous, current) <==> !SameRows(previous, current)
  {
    hide IdOf, Lookup, Same, Indexed, Removals, Arrivals, AnyMoved;
    if !Notable(previous, current) {
      QuietMeansSame(previous, current);
    } else {
      if SameRows(previous, current) {
        SameMeansQuiet(previous, current);
        assert false;
      }
      var report := Report(previous, current);
      assert report[|report| - 1] == Change(current);
    }
  }

  /* ---------- Which events are reported, and in which order ---------- */

  // What an event has to say to be right about the step from one result to the next.
  ghost predicate Right(previous: seq<Value>, current: seq<Value>, e: Event) {
    match e
    case Removed(d, i) => i < |previous| && previous[i] == d && !HasId(current, IdOf(d))
    case Added(d, i) => i < |current| && current[i] == d && !HasId(previous, IdOf(d))
    case Changed(p, d, i, j) =>
      i < |previous| && j < |current| && previous[i] == p && current[j] == d && IdOf(p) == IdOf(d) && !Same(p, d)
    case Change(docs) => docs == current && !SameRows(previous, current)
  }

  // Removals come first, then arrivals and changes, then the whole result; each by position.
  predicate Precedes(a: Event, b: Event) {
    match a
    case Removed(_, i) => b.Removed? ==> i < b.index
    case Added(_, i) => !b.Removed? && (b.Added? || b.Changed? ==> i < b.index)
    case Changed(_, _, _, i) => !b.Removed? && (b.Added? || b.Changed? ==> i < b.index)
    case Change(_) => false
  }

  ghost predicate InOrder(es: seq<Event>) {
    forall i, j :: 0 <= i < j < |es| ==> Precedes(es[i], es[j])
  }

  // Entries that carry their own positions.
  ghost predicate Ranked(fields: seq<Field<Entry>>) {
    forall k :: 0 <= k < |fields| ==> fields[k].value.index == k
  }

  ghost predicate Gone(previous: seq<Field<Entry>>, current: seq<Field<Entry>>, k: nat, e: Event) {
    && k < |previous| && Lookup(current, previous[k].key) == None
    && e == Removed(previous[k].value.document, previous[k].value.index)
  }

  lemma {:induction false} RemovalsExactly(previous: seq<Field<Entry>>, current: seq<Field<Entry>>)
    requires Ranked(previous)
    ensures var es := Removals(previous, current);
            && (forall e :: e in es <==> exists k: nat :: Gone(previous, current, k, e))
            && InOrder(es) && forall i :: 0 <= i < |es| ==> es[i].Removed? && es[i].index < |previous|
  {
    hide Lookup;
    if previous != [] {
      var front, last := previous[..|previous| - 1], previous[|previous| - 1];
      RemovalsExactly(front, current);
      assert forall k: nat, e :: k < |front| ==> (Gone(previous, current, k, e) <==> Gone(front, current, k, e));
      forall e
        ensures e in Removals(previous, current) <==> exists k: nat :: Gone(previous, current, k, e)
      {
        if e in Removal(last, current) {
          assert Gone(previous, current, |front|, e);
        }
        if k: nat :| Gone(previous, current, k, e) && k == |front| {
          assert e in Removal(last, current);
        }
      }
    }
  }

  lemma {:induction false} ArrivalsExactly(previous: seq<Field<Entry>>, current: seq<Field<Entry>>)
    requires Ranked(current)
    ensures var es := Arrivals(previous, current);
            && (forall e :: e in es <==> exists k: nat :: k < |current| && e in Arrival(previous, current[k]))
            && InOrder(es) && forall i :: 0 <= i < |es| ==> (es[i].Added? || es[i].Changed?) && es[i].index < |current|
  {
    hide Lookup, Same;
    if current != [] {
      var front, last := current[..|current| - 1], current[|current| - 1];
      ArrivalsExactly(previous, front);
      assert forall k: nat :: k < |front| ==> current[k] == front[k];
      assert Arrivals(previous, current) == Arrivals(previous, front) + Arrival(previous, last);
      hide Arrivals;
      forall e
        ensures e in Arrivals(previous, current)
           <==> exists k: nat :: k < |current| && e in Arrival(previous, current[k])
      {
        if e in Arrival(previous, last) {
          assert e in Arrival(previous, current[|front|]);
        }
      }
    }
  }

  lemma GoneIsRight(previous: seq<Value>, current: seq<Value>, e: Event)
    requires Rows(previous) && Rows(current)
    ensures (exists k: nat :: Gone(Indexed(previous), Indexed(current), k, e))
       <==> e.Removed? && Right(previous, current, e)
  {
    hide IdOf, Lookup, Same, Indexed, Rows;
    var p, c := Indexed(previous), Indexed(current);
    IndexedRows(previous);
    if k: nat :| Gone(p, c, k, e) {
      IndexedFinds(current, p[k].key);
    }
    if e.Removed? && Right(previous, current, e) {
      IndexedFinds(current, IdOf(e.document));
      assert Gone(p, c, e.index, e);
    }
  }

  lemma ArrivalIsRight(previous: seq<Value>, current: seq<Value>, e: Event)
    requires Rows(previous) && Rows(current)
    ensures (exists k: nat :: k < |Indexed(current)| && e in Arrival(Indexed(previous), Indexed(current)[k]))
       <==> (e.Added? || e.Changed?) && Right(previous, current, e)
  {
    hide IdOf, Lookup, Same, Indexed, Rows;
    var p, c := Indexed(previous), Indexed(current);
    IndexedRows(current);
    if k: nat :| k < |c| && e in Arrival(p, c[k]) {
      IndexedFinds(previous, c[k].key);
    }
    if (e.Added? || e.Changed?) && Right(previous, current, e) {
      IndexedFinds(previous, IdOf(e.document));
      assert e in Arrival(p, c[e.index]);
    }
  }

  lemma JoinedInOrder(gone: seq<Event>, come: seq<Event>, whole: seq<Event>)
    requires InOrder(gone) && forall i :: 0 <= i < |gone| ==> gone[i].Removed?
    requires InOrder(come) && forall i :: 0 <= i < |come| ==> come[i].Added? || come[i].Changed?
    requires |whole| <= 1 && forall i :: 0 <= i < |whole| ==> whole[i].Change?
    ensures InOrder(gone + come + whole)
  {
    var all := gone + come + whole;
    forall i, j | 0 <= i < j < |all|
      ensures Precedes(all[i], all[j])
    {
      if i < |gone| <= j {
        assert !all[j].Removed?;
      }
    }
  }

  // The report holds exactly the events that are right, positions and earlier versions
  // included, each once and in that order.
  lemma ReportExactly(previous: seq<Value>, current: seq<Value>)
    requires Rows(previous) && Rows(current)
    ensures forall e :: e in Report(previous, current) <==> Right(previous, current, e)
    ensures InOrder(Report(previous, current))
  {
    hide *;
    ReportOrdered(previous, current);
    forall e
      ensures e in Report(previous, current) <==> Right(previous, current, e)
    {
      ReportedRight(previous, current, e);
    }
  }

  lemma ReportOrdered(previous: seq<Value>, current: seq<Value>)
    requires Rows(previous) && Rows(current)
    ensures InOrder(Report(previous, current))
  {
    hide IdOf, Lookup, Same, Indexed, Removals, Arrivals, AnyMoved, InOrder;
    var p, c := Indexed(previous), Indexed(current);
    IndexedRows(previous);
    IndexedRows(current);
    RemovalsExactly(p, c);
    ArrivalsExactly(p, c);
    JoinedInOrder(Removals(p, c), Arrivals(p, c), if Notable(previous, current) then [Change(current)] else []);
  }

  lemma ReportedRight(previous: seq<Value>, current: seq<Value>, e: Event)
    requires Rows(previous) && Rows(current)
    ensures e in Report(previous, current) <==> Right(previous, current, e)
  {
    hide IdOf, Lookup, Same, Indexed, Removals, Arrivals, AnyMoved, SameRows, HasId, InOrder;
    var p, c := Indexed(previous), Indexed(current);
    IndexedRows(previous);
    IndexedRows(current);
    RemovalsExactly(p, c);
    ArrivalsExactly(p, c);
    GoneIsRight(previous, current, e);
    ArrivalIsRight(previous, current, e);
    ChangeFiresExactly(previous, current);
  }
}
