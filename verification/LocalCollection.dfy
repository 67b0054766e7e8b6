// The mutations of a local collection and the cursors that observe them
// (typeferry-ts/src/minimongo/local-collection.ts and cursor.ts).  Selectors, modifiers,
// sorting and projection are parameters.
module LocalCollection {
  import opened Results
  import opened Fields
  import opened ValueOrder
  import opened DocumentStore
  import opened LiveQuery
  import E = EjsonValue

  type Store = seq<Field<Value>>

  // Every document is filed under its own identity.
  ghost predicate Stored(store: Store) {
    Distinct(Keys(store)) && OwnIds(store)
  }

  ghost predicate OwnIds(store: Store) {
    forall i :: 0 <= i < |store| ==> IdOf(store[i].value) == store[i].key && Tidy(store[i].value)
  }

  type Selector = Value -> bool
  type Modifier = Value -> Option<Value>

  // A modifier either fails or returns a document with the same identity.
  ghost predicate KeepsIdentity(modifier: Modifier) {
    forall d :: Tidy(d) && modifier(d).Some? ==> Tidy(modifier(d).value) && IdOf(modifier(d).value) == IdOf(d)
  }

  function Matching(docs: seq<Value>, selector: Selector): seq<Value> {
    if docs == [] then []
    else if selector(docs[0]) then [docs[0]] + Matching(docs[1..], selector)
    else Matching(docs[1..], selector)
  }

  /* ---------- What each mutation means ---------- */

  // assertLocalId: 24 lowercase hexadecimal digits.
  predicate LocalId(v: Value) {
    v.Str? && |v.s| == 24 && forall i :: 0 <= i < 24 ==> '0' <= v.s[i] <= '9' || 'a' <= v.s[i] <= 'f'
  }

  predicate Nullish(v: Option<Value>) { v == None || v.value == Undefined || v.value == Null }

  function WithId(fields: seq<Field<Value>>, id: string): seq<Field<Value>> {
    if Nullish(Lookup(fields, "_id")) then Put(fields, "_id", Str(id)) else fields
  }

  // The identity an inserted document ends up with.
  function NewId(fields: seq<Field<Value>>, random: string): string { IdOf(Obj(WithId(fields, random))) }

  // prepareInsert, None when it throws.
  function Inserted(store: Store, fields: seq<Field<Value>>, random: string, names: Value -> bool): Option<Store> {
    var whole := WithId(fields, random);
    var id := Lookup(whole, "_id");
    if !names(Obj(fields)) || id == None || !LocalId(id.value) || id.value.s in Keys(store) then None
    else Some(Put(store, id.value.s, Obj(whole)))
  }

  // remove: what is left.
  function Without(store: Store, selector: Selector): Store {
    if store == [] then []
    else (if selector(store[0].value) then [] else [store[0]]) + Without(store[1..], selector)
  }

  datatype Rewrite = Rewrite(store: Store, affected: nat, threw: bool)

  // update: documents are rewritten in place, up to the first failure, or the first match unless multi.
  function Rewritten(store: Store, selector: Selector, modifier: Modifier, multi: bool): (c: Rewrite)
    ensures |c.store| == |store| && Keys(c.store) == Keys(store)
  {
    if store == [] then Rewrite([], 0, false)
    else if !selector(store[0].value) then
      var c := Rewritten(store[1..], selector, modifier, multi);
      assert Keys([store[0]] + c.store) == [store[0].key] + Keys(c.store) == Keys(store);
      c.(store := [store[0]] + c.store)
    else if modifier(store[0].value) == None then Rewrite(store, 0, true)
    else
      var head := Field(store[0].key, modifier(store[0].value).value);
      var c := if multi then Rewritten(store[1..], selector, modifier, multi) else Rewrite(store[1..], 0, false);
      assert Keys([head] + c.store) == [store[0].key] + Keys(store[1..]) == Keys(store);
      Rewrite([head] + c.store, c.affected + 1, c.threw)
  }

  predicate Falsy(v: Option<Value>) {
    Nullish(v) || v.value == Bool(false) || v.value == Str("") || v.value == Num(E.Finite(0.0)) || v.value == Num(E.NaN)
  }

  datatype Op =
    | Insert(fields: seq<Field<Value>>, random: string, names: Value -> bool)
    | Remove(selector: Selector)
    | Update(selector: Selector, modifier: Modifier, multi: bool)
    | Upsert(selector: Selector, modifier: Modifier, multi: bool,
             created: Option<seq<Field<Value>>>, insertedId: Option<Value>, random: string, names: Value -> bool)

  // The store afterwards, whether observers were notified, whether the call threw.
  datatype Effect = Effect(store: Store, notified: bool, threw: bool)

  function InsertEffect(store: Store, fields: seq<Field<Value>>, random: string, names: Value -> bool): Effect {
    match Inserted(store, fields, random, names)
    case None => Effect(store, false, true)
    case Some(after) => Effect(after, true, false)
  }

  function UpdateEffect(c: Rewrite): Effect {
    Effect(c.store, !c.threw && c.affected > 0, c.threw)
  }

  function UpsertDocument(created: seq<Field<Value>>, insertedId: Option<Value>): seq<Field<Value>> {
    if Falsy(Lookup(created, "_id")) && insertedId.Some? then Put(created, "_id", insertedId.value) else created
  }

  function Perform(store: Store, op: Op): Effect {
    match op
    case Insert(fields, random, names) => InsertEffect(store, fields, random, names)
    case Remove(selector) => Effect(Without(store, selector), true, false)
    case Update(selector, modifier, multi) => UpdateEffect(Rewritten(store, selector, modifier, multi))
    case Upsert(selector, modifier, multi, created, insertedId, random, names) =>
      var c := Rewritten(store, selector, modifier, multi);
      if c.threw || c.affected > 0 then UpdateEffect(c)
      else if created == None then Effect(store, false, true)
      else InsertEffect(store, UpsertDocument(created.value, insertedId), random, names)
  }

  /* ---------- Every mutation keeps documents under their own identity ---------- */

  ghost predicate Lawful(op: Op) {
    match op
    case Insert(fields, _, _) => Tidy(Obj(fields))
    case Remove(_) => true
    case Update(_, modifier, _) => KeepsIdentity(modifier)
    case Upsert(_, modifier, _, created, insertedId, _, _) =>
      && KeepsIdentity(modifier)
      && (created.Some? ==> Tidy(Obj(created.value)))
      && (insertedId.Some? ==> Tidy(insertedId.value))
  }

  lemma {:induction false} PutMembers<T(!new)>(fields: seq<Field<T>>, key: string, value: T)
    ensures forall f :: f in Put(fields, key, value) ==> f == Field(key, value) || f in fields
  {
    if fields != [] && fields[0].key != key {
      PutMembers(fields[1..], key, value);
    }
  }

  lemma PutTidy(fields: seq<Field<Value>>, key: string, value: Value)
    requires Tidy(Obj(fields)) && Tidy(value)
    ensures Tidy(Obj(Put(fields, key, value)))
  {
    PutDistinct(fields, key, value);
    PutMembers(fields, key, value);
    var put := Put(fields, key, value);
    forall i | 0 <= i < |put|
      ensures Tidy(put[i].value)
    {
      assert put[i] in put;
    }
  }

  lemma PutStored(store: Store, id: string, doc: Value)
    requires Stored(store) && Tidy(doc) && IdOf(doc) == id
    ensures Stored(Put(store, id, doc))
  {
    PutDistinct(store, id, doc);
    PutMembers(store, id, doc);
    var put := Put(store, id, doc);
    forall i | 0 <= i < |put|
      ensures IdOf(put[i].value) == put[i].key && Tidy(put[i].value)
    {
      assert put[i] in put;
    }
  }

  lemma InsertedStored(store: Store, fields: seq<Field<Value>>, random: string, names: Value -> bool)
    requires Stored(store) && Tidy(Obj(fields))
    ensures Stored(InsertEffect(store, fields, random, names).store)
  {
    var whole := WithId(fields, random);
    PutTidy(fields, "_id", Str(random));
    if Inserted(store, fields, random, names).Some? {
      PutStored(store, Lookup(whole, "_id").value.s, Obj(whole));
    }
  }

  lemma {:induction false} WithoutStored(store: Store, selector: Selector)
    requires Stored(store)
    ensures Stored(Without(store, selector))
    ensures forall f :: f in Without(store, selector) <==> f in store && !selector(f.value)
  {
    if store != [] {
      TailStored(store);
      var rest := Without(store[1..], selector);
      WithoutStored(store[1..], selector);
      assert store == [store[0]] + store[1..];
      forall j | 0 <= j < |rest|
        ensures Keys(rest)[j] != store[0].key
      {
        assert rest[j] in store[1..];
        var i :| 0 <= i < |store| - 1 && store[1..][i] == rest[j];
        assert Keys(store)[i + 1] != Keys(store)[0];
      }
      if selector(store[0].value) {
        assert Without(store, selector) == rest;
      } else {
        ConsStored(store[0], rest);
      }
    }
  }

  lemma TailStored(store: Store)
    requires Stored(store) && store != []
    ensures Stored(store[1..])
  {
    assert Keys(store[1..]) == Keys(store)[1..];
  }

  lemma ConsStored(f: Field<Value>, rest: Store)
    requires Stored(rest) && IdOf(f.value) == f.key && Tidy(f.value) && f.key !in Keys(rest)
    ensures Stored([f] + rest)
  {
    assert Keys([f] + rest) == [f.key] + Keys(rest);
  }

  lemma {:induction false} RewrittenOwnIds(store: Store, selector: Selector, modifier: Modifier, multi: bool)
    requires OwnIds(store) && KeepsIdentity(modifier)
    ensures OwnIds(Rewritten(store, selector, modifier, multi).store)
  {
    hide IdOf, Tidy;
    if store != [] {
      RewrittenOwnIds(store[1..], selector, modifier, multi);
      assert OwnIds(store[1..]);
      assert IdOf(store[0].value) == store[0].key && Tidy(store[0].value);
    }
  }

  lemma RewrittenStored(store: Store, selector: Selector, modifier: Modifier, multi: bool)
    requires Stored(store) && KeepsIdentity(modifier)
    ensures Stored(Rewritten(store, selector, modifier, multi).store)
  {
    RewrittenOwnIds(store, selector, modifier, multi);
  }

  lemma PerformKeepsStored(store: Store, op: Op)
    requires Stored(store) && Lawful(op)
    ensures Stored(Perform(store, op).store)
  {
    hide Stored, Tidy, IdOf, Rewritten, InsertEffect, KeepsIdentity;
    match op
    case Insert(fields, random, names) => InsertedStored(store, fields, random, names);
    case Remove(selector) => WithoutStored(store, selector);
    case Update(selector, modifier, multi) => RewrittenStored(store, selector, modifier, multi);
    case Upsert(selector, modifier, multi, created, insertedId, random, names) =>
      RewrittenStored(store, selector, modifier, multi);
      if created.Some? {
        if insertedId.Some? {
          PutTidy(created.value, "_id", insertedId.value);
        }
        InsertedStored(store, UpsertDocument(created.value, insertedId), random, names);
      }
  }

  lemma {:induction false} QuietRewrites(store: Store, selector: Selector, modifier: Modifier, multi: bool)
    ensures var c := Rewritten(store, selector, modifier, multi);
            (!c.threw && c.affected == 0) || (c.threw && !multi) ==> c.store == store
  {
    if store != [] {
      QuietRewrites(store[1..], selector, modifier, multi);
      assert store == [store[0]] + store[1..];
    }
  }

  // The only way to change the store unannounced is a multi-document update that fails midway.
  lemma OnlyFailedMultiUpdatesAreSilent(store: Store, op: Op)
    ensures var e := Perform(store, op);
            !e.notified && e.store != store ==> e.threw && (op.Update? || op.Upsert?) && op.multi
    ensures !(Perform(store, op).notified && Perform(store, op).threw)
  {
    if op.Update? || op.Upsert? {
      QuietRewrites(store, op.selector, op.modifier, op.multi);
    }
  }

  /* ---------- Which calls change the store unannounced, told from their arguments ---------- */

  ghost predicate LocalIds(store: Store) {
    forall i :: 0 <= i < |store| ==> LocalId(Str(store[i].key))
  }

  lemma PerformKeepsLocalIds(store: Store, op: Op)
    requires LocalIds(store)
    ensures LocalIds(Perform(store, op).store)
  {
    hide LocalId, Rewritten;
    match op
    case Insert(fields, random, names) => InsertedLocalIds(store, fields, random, names);
    case Remove(selector) => WithoutLocalIds(store, selector);
    case Update(selector, modifier, multi) => RewrittenLocalIds(store, selector, modifier, multi);
    case Upsert(selector, modifier, multi, created, insertedId, random, names) =>
      RewrittenLocalIds(store, selector, modifier, multi);
      if created.Some? {
        InsertedLocalIds(store, UpsertDocument(created.value, insertedId), random, names);
      }
  }

  lemma InsertedLocalIds(store: Store, fields: seq<Field<Value>>, random: string, names: Value -> bool)
    requires LocalIds(store)
    ensures LocalIds(InsertEffect(store, fields, random, names).store)
  {
    hide Put, Lookup;
    if Inserted(store, fields, random, names).Some? {
      var whole := WithId(fields, random);
      var id := Lookup(whole, "_id").value;
      PutMembers(store, id.s, Obj(whole));
      var put := Put(store, id.s, Obj(whole));
      forall i | 0 <= i < |put|
        ensures LocalId(Str(put[i].key))
      {
        assert put[i] in put;
      }
    }
  }

  lemma {:induction false} WithoutLocalIds(store: Store, selector: Selector)
    requires LocalIds(store)
    ensures LocalIds(Without(store, selector))
  {
    hide LocalId;
    if store != [] {
      WithoutLocalIds(store[1..], selector);
    }
  }

  lemma RewrittenLocalIds(store: Store, selector: Selector, modifier: Modifier, multi: bool)
    requires LocalIds(store)
    ensures LocalIds(Rewritten(store, selector, modifier, multi).store)
  {
    hide LocalId, Rewritten;
    var after := Rewritten(store, selector, modifier, multi).store;
    forall i | 0 <= i < |after|
      ensures LocalId(Str(after[i].key))
    {
      assert Keys(after)[i] == Keys(store)[i];
    }
  }

  // The modifier fails on the k-th of the matching documents, and on none before it.
  predicate FailsAt(matches: seq<Value>, modifier: Modifier, k: nat) {
    k < |matches| && modifier(matches[k]) == None && forall j :: 0 <= j < k ==> modifier(matches[j]).Some?
  }

  // Some document before the k-th is rewritten to a different one.
  predicate Rewrites(matches: seq<Value>, modifier: Modifier, k: nat) {
    exists j :: 0 <= j < k && j < |matches| && modifier(matches[j]) != Some(matches[j])
  }

  // The same, beyond the order of keys.
  predicate RewritesVisibly(matches: seq<Value>, modifier: Modifier, k: nat) {
    exists j :: 0 <= j < k && j < |matches| && modifier(matches[j]).Some?
        && !Same(matches[j], modifier(matches[j]).value)
  }

  // A multi-document update that rewrites a document and then fails on a later match.
  ghost predicate BreaksMidway(store: Store, op: Op) {
    && (op.Update? || op.Upsert?) && op.multi
    && var matches := Matching(Values(store), op.selector);
       exists k: nat :: FailsAt(matches, op.modifier, k) && Rewrites(matches, op.modifier, k)
  }

  ghost predicate BreaksVisibly(store: Store, op: Op) {
    && (op.Update? || op.Upsert?) && op.multi
    && var matches := Matching(Values(store), op.selector);
       exists k: nat :: FailsAt(matches, op.modifier, k) && RewritesVisibly(matches, op.modifier, k)
  }

  ghost predicate SameStore(a: Store, b: Store) {
    |a| == |b| && forall i :: 0 <= i < |a| ==> a[i].key == b[i].key && Same(a[i].value, b[i].value)
  }

  lemma MatchingValues(store: Store, selector: Selector)
    requires store != []
    ensures Matching(Values(store), selector)
         == var rest := Matching(Values(store[1..]), selector);
            if selector(store[0].value) then [store[0].value] + rest else rest
  {
    assert Values(store)[0] == store[0].value && Values(store)[1..] == Values(store[1..]);
  }

  lemma MatchingNothing(selector: Selector)
    ensures Matching([], selector) == []
  {
  }

  lemma FailsLater(d: Value, rest: seq<Value>, modifier: Modifier, k: nat)
    ensures FailsAt([d] + rest, modifier, k)
            <==> if modifier(d) == None then k == 0 else k > 0 && FailsAt(rest, modifier, k - 1)
    ensures k > 0 ==> (Rewrites([d] + rest, modifier, k) <==> modifier(d) != Some(d) || Rewrites(rest, modifier, k - 1))
    ensures k > 0 && modifier(d).Some? ==>
              (RewritesVisibly([d] + rest, modifier, k)
               <==> !Same(d, modifier(d).value) || RewritesVisibly(rest, modifier, k - 1))
  {
    hide Same;
    var all := [d] + rest;
    assert all[0] == d;
    if k > 0 {
      if FailsAt(rest, modifier, k - 1) {
        assert all[k] == rest[k - 1];
        assert forall j :: 0 < j < k ==> all[j] == rest[j - 1];
      }
      if FailsAt(all, modifier, k) {
        assert forall j :: 0 <= j < k - 1 ==> all[j + 1] == rest[j] && modifier(all[j + 1]).Some?;
      }
      RewritesLater(d, rest, modifier, k);
    }
  }

  lemma RewritesLater(d: Value, rest: seq<Value>, modifier: Modifier, k: nat)
    requires k > 0
    ensures Rewrites([d] + rest, modifier, k) <==> modifier(d) != Some(d) || Rewrites(rest, modifier, k - 1)
    ensures modifier(d).Some? ==>
              (RewritesVisibly([d] + rest, modifier, k)
               <==> !Same(d, modifier(d).value) || RewritesVisibly(rest, modifier, k - 1))
  {
    hide Same;
    var all := [d] + rest;
    assert all[0] == d;
    if Rewrites(rest, modifier, k - 1) {
      var j :| 0 <= j < k - 1 && j < |rest| && modifier(rest[j]) != Some(rest[j]);
      assert all[j + 1] == rest[j];
    }
    if Rewrites(all, modifier, k) {
      var j :| 0 <= j < k && j < |all| && modifier(all[j]) != Some(all[j]);
      assert j > 0 ==> rest[j - 1] == all[j];
    }
    if RewritesVisibly(rest, modifier, k - 1) {
      var j :| 0 <= j < k - 1 && j < |rest| && modifier(rest[j]).Some? && !Same(rest[j], modifier(rest[j]).value);
      assert all[j + 1] == rest[j];
    }
    if RewritesVisibly(all, modifier, k) {
      var j :| 0 <= j < k && j < |all| && modifier(all[j]).Some? && !Same(all[j], modifier(all[j]).value);
      assert j > 0 ==> rest[j - 1] == all[j];
    }
  }

  lemma SameStoreCons(f: Field<Value>, g: Field<Value>, a: Store, b: Store)
    ensures SameStore([f] + a, [g] + b) <==> f.key == g.key && Same(f.value, g.value) && SameStore(a, b)
  {
    hide Same;
    var long, wide := [f] + a, [g] + b;
    assert long[0] == f && wide[0] == g;
    if SameStore(long, wide) {
      forall i | 0 <= i < |a|
        ensures a[i].key == b[i].key && Same(a[i].value, b[i].value)
      {
        assert long[i + 1] == a[i] && wide[i + 1] == b[i];
      }
    }
  }

  lemma {:induction false} SameStoreSelf(store: Store)
    requires OwnIds(store)
    ensures SameStore(store, store)
  {
    hide Equal, IdOf, Tidy;
    forall i | 0 <= i < |store|
      ensures Same(store[i].value, store[i].value)
    {
      LooseIsAnEquivalence(store[i].value, store[i].value, store[i].value);
    }
  }

  // A multi-document update, told from its arguments: whether it throws, and whether it has
  // changed the store by then.
  lemma {:induction false} RewrittenMidway(store: Store, selector: Selector, modifier: Modifier, k: nat)
    requires OwnIds(store)
    ensures var matches, c := Matching(Values(store), selector), Rewritten(store, selector, modifier, true);
            FailsAt(matches, modifier, k) ==>
              && c.threw
              && (c.store != store <==> Rewrites(matches, modifier, k))
              && (!SameStore(store, c.store) <==> RewritesVisibly(matches, modifier, k))
    decreases |store|
  {
    hide Same, IdOf, Tidy, Matching, FailsAt, Rewrites, RewritesVisibly, SameStore;
    if store == [] {
      assert Values(store) == [];
      MatchingNothing(selector);
      assert !FailsAt([], modifier, k) by { NothingFails(modifier, k); }
    } else {
      var f, tail := store[0], store[1..];
      var rest := Matching(Values(tail), selector);
      var c := Rewritten(tail, selector, modifier, true).store;
      assert store == [f] + tail && OwnIds(tail);
      assert IdOf(f.value) == f.key && Tidy(f.value);
      MatchingValues(store, selector);
      SameStoreSelf(store);
      LooseSelf(f.value);
      if !selector(f.value) {
        RewrittenMidway(tail, selector, modifier, k);
        SameStoreCons(f, f, tail, c);
        assert [f] + c == store <==> c == tail by { ConsEquals(f, f, c, tail); }
      } else {
        FailsLater(f.value, rest, modifier, k);
        if modifier(f.value) == None {
          NothingBefore([f.value] + rest, modifier);
        } else if k > 0 {
          RewrittenMidway(tail, selector, modifier, k - 1);
          var head := Field(f.key, modifier(f.value).value);
          SameStoreCons(f, head, tail, c);
          assert [head] + c == store <==> head == f && c == tail by { ConsEquals(head, f, c, tail); }
        }
      }
    }
  }

  lemma ConsEquals(f: Field<Value>, g: Field<Value>, a: Store, b: Store)
    ensures [f] + a == [g] + b <==> f == g && a == b
  {
    if [f] + a == [g] + b {
      assert ([f] + a)[0] == ([g] + b)[0];
      assert a == ([f] + a)[1..] && b == ([g] + b)[1..];
    }
  }

  lemma LooseSelf(d: Value)
    requires Tidy(d)
    ensures Same(d, d)
  {
    LooseIsAnEquivalence(d, d, d);
  }

  lemma NothingFails(modifier: Modifier, k: nat)
    ensures !FailsAt([], modifier, k)
  {
  }

  lemma NothingBefore(matches: seq<Value>, modifier: Modifier)
    ensures !Rewrites(matches, modifier, 0) && !RewritesVisibly(matches, modifier, 0)
  {
  }

  lemma {:induction false} ThrowsSomewhere(store: Store, selector: Selector, modifier: Modifier) returns (k: nat)
    requires Rewritten(store, selector, modifier, true).threw
    ensures FailsAt(Matching(Values(store), selector), modifier, k)
    decreases |store|
  {
    hide Matching, FailsAt;
    var f, tail := store[0], store[1..];
    MatchingValues(store, selector);
    if !selector(f.value) {
      k := ThrowsSomewhere(tail, selector, modifier);
    } else {
      var rest := Matching(Values(tail), selector);
      if modifier(f.value) == None {
        k := 0;
      } else {
        k := ThrowsSomewhere(tail, selector, modifier);
        k := k + 1;
      }
      FailsLater(f.value, rest, modifier, k);
    }
  }

  // The store changes unannounced exactly in that case.
  lemma SilentExactly(store: Store, op: Op)
    requires Stored(store)
    ensures var e := Perform(store, op);
            && (!e.notified && e.store != store <==> BreaksMidway(store, op))
            && (!e.notified && !SameStore(store, e.store) <==> BreaksVisibly(store, op))
  {
    hide Matching, FailsAt, Rewrites, RewritesVisibly, SameStore, Rewritten, IdOf, Tidy;
    SameStoreSelf(store);
    OnlyFailedMultiUpdatesAreSilent(store, op);
    if (op.Update? || op.Upsert?) && op.multi {
      var matches := Matching(Values(store), op.selector);
      forall k: nat
        ensures FailsAt(matches, op.modifier, k) ==>
                  var c := Rewritten(store, op.selector, op.modifier, true);
                  && c.threw
                  && (c.store != store <==> Rewrites(matches, op.modifier, k))
                  && (!SameStore(store, c.store) <==> RewritesVisibly(matches, op.modifier, k))
      {
        RewrittenMidway(store, op.selector, op.modifier, k);
      }
      if Perform(store, op).threw && Rewritten(store, op.selector, op.modifier, true).threw {
        var k := ThrowsSomewhere(store, op.selector, op.modifier);
      }
      QuietRewrites(store, op.selector, op.modifier, true);
    }
  }

  /* ---------- Queries ---------- */

  // Each part may fail: the matcher on a document, the sort on the documents that match, the
  // projection or transform on a document.
  datatype Query = Query(
    matches: Value -> Option<bool>,
    arrange: seq<Value> -> Option<seq<Value>>,
    output: Value -> Option<Value>,
    skip: nat,
    limit: Option<nat>)

  // The parts where they do not fail; elsewhere anything.
  function Hits(q: Query): Selector { d => q.matches(d) == Some(true) }

  function SortedBy(q: Query, docs: seq<Value>): seq<Value> {
    var sorted := q.arrange(docs);
    if sorted.Some? then sorted.value else docs
  }

  function Shown(q: Query, d: Value): Value {
    var shown := q.output(d);
    if shown.Some? then shown.value else d
  }

  // Sorting permutes; projection and transform keep the identity.
  ghost predicate Proper(q: Query) {
    && (forall docs :: multiset(SortedBy(q, docs)) == multiset(docs))
    && (forall d :: Tidy(d) ==> Tidy(Shown(q, d)) && IdOf(Shown(q, d)) == IdOf(d))
  }

  // Array.prototype.slice on non-negative bounds.
  function Slice(docs: seq<Value>, from: nat, to: Option<nat>): seq<Value> {
    var end := if to == None || to.value > |docs| then |docs| else to.value;
    if from >= end then [] else docs[from..end]
  }

  function Raw(q: Query, docs: seq<Value>): seq<Value> {
    Slice(SortedBy(q, Matching(docs, Hits(q))), q.skip, if q.limit == None then None else Some(q.skip + q.limit.value))
  }

  function Outputs(q: Query, docs: seq<Value>): (r: seq<Value>)
    ensures |r| == |docs|
  {
    seq(|docs|, i requires 0 <= i < |docs| => Shown(q, docs[i]))
  }

  // Running the query on these documents does not throw.
  predicate RunsOn(q: Query, docs: seq<Value>) {
    && (forall i :: 0 <= i < |docs| ==> q.matches(docs[i]).Some?)
    && q.arrange(Matching(docs, Hits(q))).Some?
    && (forall i :: 0 <= i < |Raw(q, docs)| ==> q.output(Raw(q, docs)[i]).Some?)
  }

  predicate Runs(q: Query, store: Store) { RunsOn(q, Values(store)) }

  // What running the query gives, where it does not throw.
  function Result(q: Query, store: Store): seq<Value> {
    Outputs(q, Raw(q, Values(store)))
  }

  lemma {:induction false} MatchingRows(docs: seq<Value>, selector: Selector)
    requires Rows(docs)
    ensures Rows(Matching(docs, selector))
    ensures forall d :: d in Matching(docs, selector) ==> d in docs
  {
    if docs != [] {
      MatchingRows(docs[1..], selector);
      var rest := Matching(docs[1..], selector);
      forall j | 0 <= j < |rest|
        ensures IdOf(rest[j]) != IdOf(docs[0])
      {
        assert rest[j] in docs[1..];
      }
    }
  }

  lemma TwiceCounts(docs: seq<Value>, i: nat, j: nat)
    requires i < j < |docs| && docs[i] == docs[j]
    ensures multiset(docs)[docs[i]] >= 2
  {
    assert docs == docs[..j] + docs[j..];
    assert docs[i] in docs[..j] && docs[j] in docs[j..];
    assert multiset(docs) == multiset(docs[..j]) + multiset(docs[j..]);
    assert docs[i] in multiset(docs[..j]) && docs[i] in multiset(docs[j..]);
  }

  lemma {:induction false} OnceCounts(docs: seq<Value>, d: Value)
    requires forall i, j :: 0 <= i < j < |docs| ==> IdOf(docs[i]) != IdOf(docs[j])
    ensures multiset(docs)[d] <= 1
  {
    if docs != [] {
      OnceCounts(docs[1..], d);
      assert docs == [docs[0]] + docs[1..];
      assert docs[0] !in docs[1..];
      assert d !in docs[1..] ==> multiset(docs[1..])[d] == 0;
    }
  }

  lemma PermutedRows(docs: seq<Value>, arranged: seq<Value>)
    requires Rows(docs) && multiset(arranged) == multiset(docs)
    ensures Rows(arranged)
  {
    forall i | 0 <= i < |arranged|
      ensures arranged[i] in docs
    {
      assert arranged[i] in multiset(arranged);
    }
    forall i, j | 0 <= i < j < |arranged|
      ensures IdOf(arranged[i]) != IdOf(arranged[j])
    {
      if IdOf(arranged[i]) == IdOf(arranged[j]) {
        var k :| 0 <= k < |docs| && docs[k] == arranged[i];
        var l :| 0 <= l < |docs| && docs[l] == arranged[j];
        assert k == l;
        TwiceCounts(arranged, i, j);
        OnceCounts(docs, docs[k]);
        assert false;
      }
    }
  }

  lemma ResultRows(q: Query, store: Store)
    requires Proper(q) && Stored(store)
    ensures Rows(Result(q, store))
  {
    hide Tidy, IdOf, Matching;
    var docs := Values(store);
    forall i, j | 0 <= i < j < |docs|
      ensures IdOf(docs[i]) != IdOf(docs[j])
    {
      assert Keys(store)[i] != Keys(store)[j];
    }
    assert Rows(docs);
    MatchingRows(docs, Hits(q));
    var arranged := SortedBy(q, Matching(docs, Hits(q)));
    PermutedRows(Matching(docs, Hits(q)), arranged);
    var raw := Raw(q, docs);
    assert Rows(raw);
    var result := Result(q, store);
    forall i | 0 <= i < |result|
      ensures Tidy(result[i]) && IdOf(result[i]) == IdOf(raw[i])
    {
    }
  }

  // A query that does not tell documents apart by the order of their keys.
  ghost predicate Respecting(q: Query) {
    && Proper(q)
    && (forall d, e :: Tidy(d) && Tidy(e) && Same(d, e) ==>
          q.matches(d) == q.matches(e) && q.output(d).Some? == q.output(e).Some? && Same(Shown(q, d), Shown(q, e)))
    && (forall a, b :: Rows(a) && Rows(b) && SameRows(a, b) ==>
          q.arrange(a).Some? == q.arrange(b).Some? && SameRows(SortedBy(q, a), SortedBy(q, b)))
  }

  lemma {:induction false} MatchingRespects(a: seq<Value>, b: seq<Value>, q: Query)
    requires Respecting(q) && Rows(a) && Rows(b) && SameRows(a, b)
    ensures SameRows(Matching(a, Hits(q)), Matching(b, Hits(q)))
  {
    hide Same, IdOf, Tidy, Proper;
    if a != [] {
      assert q.matches(a[0]) == q.matches(b[0]);
      assert Rows(a[1..]) && Rows(b[1..]) && SameRows(a[1..], b[1..]);
      MatchingRespects(a[1..], b[1..], q);
    }
  }

  lemma ValuesRows(store: Store)
    requires Stored(store)
    ensures Rows(Values(store))
  {
    hide Tidy, IdOf;
    var docs := Values(store);
    forall i, j | 0 <= i < j < |docs|
      ensures IdOf(docs[i]) != IdOf(docs[j])
    {
      assert Keys(store)[i] != Keys(store)[j];
    }
  }

  lemma ResultRespects(q: Query, a: Store, b: Store)
    requires Respecting(q) && Stored(a) && Stored(b) && SameStore(a, b)
    ensures SameRows(Result(q, a), Result(q, b)) && (Runs(q, a) <==> Runs(q, b))
  {
    hide Same, IdOf, Tidy;
    var x, y := Values(a), Values(b);
    ValuesRows(a);
    ValuesRows(b);
    assert SameRows(x, y);
    RawRespects(q, x, y);
    OutputsRespect(q, Raw(q, x), Raw(q, y));
    RunsRespects(q, x, y);
  }

  lemma RunsRespects(q: Query, a: seq<Value>, b: seq<Value>)
    requires Respecting(q) && Rows(a) && Rows(b) && SameRows(a, b)
    ensures RunsOn(q, a) <==> RunsOn(q, b)
  {
    hide Same, IdOf, Tidy, Matching, Proper, Raw;
    RawRespects(q, a, b);
    MatchingRespects(a, b, q);
    MatchingRows(a, Hits(q));
    MatchingRows(b, Hits(q));
    assert q.arrange(Matching(a, Hits(q))).Some? == q.arrange(Matching(b, Hits(q))).Some?;
    var x, y := Raw(q, a), Raw(q, b);
    assert forall i :: 0 <= i < |x| ==> q.output(x[i]).Some? == q.output(y[i]).Some?;
    assert forall i :: 0 <= i < |a| ==> q.matches(a[i]) == q.matches(b[i]);
  }

  lemma RawRespects(q: Query, a: seq<Value>, b: seq<Value>)
    requires Respecting(q) && Rows(a) && Rows(b) && SameRows(a, b)
    ensures Rows(Raw(q, a)) && Rows(Raw(q, b)) && SameRows(Raw(q, a), Raw(q, b))
  {
    hide Same, IdOf, Matching, Tidy, Respecting, Rows, SameRows, Slice;
    var x, y := Matching(a, Hits(q)), Matching(b, Hits(q));
    MatchingRespects(a, b, q);
    MatchingRows(a, Hits(q));
    MatchingRows(b, Hits(q));
    ArrangeRespects(q, x, y);
    var to := if q.limit == None then None else Some(q.skip + q.limit.value);
    SliceRespects(SortedBy(q, x), SortedBy(q, y), q.skip, to);
  }

  lemma ArrangeRespects(q: Query, a: seq<Value>, b: seq<Value>)
    requires Respecting(q) && Rows(a) && Rows(b) && SameRows(a, b)
    ensures Rows(SortedBy(q, a)) && Rows(SortedBy(q, b)) && SameRows(SortedBy(q, a), SortedBy(q, b))
  {
    hide Rows, SameRows, Same, SortedBy;
    PermutedRows(a, SortedBy(q, a));
    PermutedRows(b, SortedBy(q, b));
  }

  lemma SliceRespects(a: seq<Value>, b: seq<Value>, from: nat, to: Option<nat>)
    requires Rows(a) && Rows(b) && SameRows(a, b)
    ensures Rows(Slice(a, from, to)) && Rows(Slice(b, from, to)) && SameRows(Slice(a, from, to), Slice(b, from, to))
  {
    hide Same, IdOf, Tidy;
    SliceRows(a, from, to);
    SliceRows(b, from, to);
    var x, y := Slice(a, from, to), Slice(b, from, to);
    assert |x| == |y|;
    forall i | 0 <= i < |x|
      ensures Same(x[i], y[i])
    {
      assert x[i] == a[from + i] && y[i] == b[from + i];
    }
  }

  lemma SliceRows(a: seq<Value>, from: nat, to: Option<nat>)
    requires Rows(a)
    ensures Rows(Slice(a, from, to))
  {
    hide IdOf, Tidy;
    var x := Slice(a, from, to);
    forall i, j | 0 <= i < j < |x|
      ensures IdOf(x[i]) != IdOf(x[j])
    {
      assert x[i] == a[from + i] && x[j] == a[from + j];
    }
    forall i | 0 <= i < |x|
      ensures Tidy(x[i])
    {
      assert x[i] == a[from + i];
    }
  }

  lemma OutputsRespect(q: Query, a: seq<Value>, b: seq<Value>)
    requires Respecting(q) && Rows(a) && Rows(b) && SameRows(a, b)
    ensures SameRows(Outputs(q, a), Outputs(q, b))
  {
    hide Same, IdOf, Tidy, Proper;
  }

  // Every row of a result is a stored document's.
  lemma ResultFrom(q: Query, store: Store, i: nat) returns (k: nat)
    requires Proper(q) && Stored(store) && i < |Result(q, store)|
    ensures k < |store| && IdOf(Result(q, store)[i]) == store[k].key
  {
    hide Tidy, IdOf, Matching;
    var docs := Values(store);
    var matched := Matching(docs, Hits(q));
    ValuesRows(store);
    MatchingRows(docs, Hits(q));
    var raw := Raw(q, docs);
    assert raw[i] in SortedBy(q, matched);
    assert raw[i] in multiset(SortedBy(q, matched));
    assert raw[i] in matched && raw[i] in docs;
    k :| 0 <= k < |docs| && docs[k] == raw[i];
    assert IdOf(docs[k]) == store[k].key && Tidy(docs[k]);
  }

  // A mirror does not care for the order of keys.
  lemma MirrorsAlike(m: Mirror, a: seq<Value>, b: seq<Value>)
    requires Rows(a) && Rows(b) && SameRows(a, b) && Mirrors(m, a)
    ensures Mirrors(m, b)
  {
    hide Equal, IdOf, Tidy;
    forall i | 0 <= i < |b|
      ensures IdOf(b[i]) == IdOf(a[i]) && IdOf(b[i]) in m && Same(m[IdOf(b[i])], b[i])
    {
      SameKeepsId(a[i], b[i]);
      LooseIsAnEquivalence(m[IdOf(a[i])], a[i], b[i]);
    }
    forall id | id in m
      ensures HasId(b, id)
    {
      assert HasId(a, id);
      var i :| 0 <= i < |a| && IdOf(a[i]) == id;
      assert IdOf(b[i]) == id;
    }
  }
}
