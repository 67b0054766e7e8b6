// Exactly which calls leave an up-to-date listener behind, and exactly when a listener that
// attaches late, or is fed again after a stop, is right.
module LiveQueryExact {
  import opened Results
  import opened Fields
  import opened ValueOrder
  import opened DocumentStore
  import opened LiveQuery
  import opened LocalCollection
  import opened LiveQueryRuns

  /* ---------- Queries that tell stores apart ---------- */

  // The query for one document as it is now.
  function Only(d: Value): Query { Query(x => Some(x == d), docs => Some(docs), x => Some(x), 0, None) }

  // The query for the document in one position.
  function Nth(k: nat): Query { Query(x => Some(true), docs => Some(docs), x => Some(x), k, Some(1)) }

  function Everything(): Query { Query(x => Some(true), docs => Some(docs), x => Some(x), 0, None) }

  lemma OnlyIsProper(d: Value, store: Store)
    ensures Proper(Only(d)) && Runs(Only(d), store)
  {
  }

  lemma NthIsProper(k: nat, store: Store)
    ensures Proper(Nth(k)) && Runs(Nth(k), store)
  {
  }

  lemma EverythingRuns(store: Store)
    ensures Runs(Everything(), store)
  {
  }

  lemma EverythingRespects()
    ensures Respecting(Everything()) && Proper(Everything())
  {
  }

  lemma {:induction false} OnlyFinds(docs: seq<Value>, d: Value)
    ensures d in Matching(docs, Hits(Only(d))) <==> d in docs
    ensures d !in docs ==> Matching(docs, Hits(Only(d))) == []
  {
    if docs != [] {
      OnlyFinds(docs[1..], d);
      assert docs == [docs[0]] + docs[1..];
    }
  }

  lemma OnlyResult(store: Store, d: Value)
    ensures Result(Only(d), store) == Matching(Values(store), Hits(Only(d)))
  {
  }

  lemma {:induction false} MatchingAll(docs: seq<Value>, q: Query)
    requires forall d :: q.matches(d) == Some(true)
    ensures Matching(docs, Hits(q)) == docs
  {
    if docs != [] {
      MatchingAll(docs[1..], q);
      assert docs == [docs[0]] + docs[1..];
    }
  }

  lemma EverythingResult(store: Store)
    ensures Result(Everything(), store) == Values(store)
  {
    MatchingAll(Values(store), Everything());
  }

  lemma NthResult(k: nat, store: Store)
    ensures Result(Nth(k), store) == if k < |store| then [store[k].value] else []
  {
    MatchingAll(Values(store), Nth(k));
  }

  lemma Outdated(m: Mirror, docs: seq<Value>, i: nat)
    requires i < |docs| && IdOf(docs[i]) in m && !Same(m[IdOf(docs[i])], docs[i])
    ensures !Mirrors(m, docs)
  {
  }

  lemma Vanished(m: Mirror, docs: seq<Value>, id: string)
    requires id in m && !HasId(docs, id)
    ensures !Mirrors(m, docs)
  {
  }

  lemma Unknown(m: Mirror, docs: seq<Value>, i: nat)
    requires i < |docs| && IdOf(docs[i]) !in m
    ensures !Mirrors(m, docs)
  {
  }

  lemma HeldUnder(docs: seq<Value>, d: Value)
    requires Rows(docs) && d in docs
    ensures IdOf(d) in ById(docs) && ById(docs)[IdOf(d)] == d
  {
    hide ById, IdOf, Tidy, Equal;
    ByIdMirrors(docs);
    var i :| 0 <= i < |docs| && docs[i] == d;
    assert IdOf(docs[i]) in ById(docs) && ById(docs)[IdOf(docs[i])] == docs[i];
  }

  // A document that another has taken the identity of is nowhere in the store.
  lemma ReplacedIsGone(before: Store, after: Store, i: nat)
    requires Stored(before) && Stored(after) && i < |before| && i < |after|
    requires before[i].key == after[i].key && before[i].value != after[i].value
    ensures Result(Only(before[i].value), after) == [] && before[i].value in Result(Only(before[i].value), before)
  {
    hide Tidy, IdOf, Matching;
    var d := before[i].value;
    OnlyResult(before, d);
    OnlyResult(after, d);
    OnlyFinds(Values(before), d);
    OnlyFinds(Values(after), d);
    assert Values(before)[i] == d;
    forall k | 0 <= k < |after|
      ensures Values(after)[k] != d
    {
      assert IdOf(after[k].value) == Keys(after)[k] && IdOf(d) == Keys(after)[i];
      assert k != i ==> Keys(after)[k] != Keys(after)[i];
    }
    assert d !in Values(after);
  }

  // Two different stores are told apart by the listener of some query.
  lemma StoresDiffer(a: Store, b: Store) returns (q: Query)
    requires Stored(a) && Stored(b) && a != b
    ensures Proper(q) && Runs(q, a) && Runs(q, b)
    ensures !Mirrors(ById(Result(q, a)), Result(q, b))
  {
    hide Proper, Runs, Result, Mirrors, ById, IdOf, Tidy, Only, Nth;
    if k: nat :| k < |a| && k < |b| && a[k].key == b[k].key && a[k].value != b[k].value {
      q := Only(a[k].value);
      OnlyIsProper(a[k].value, a);
      OnlyIsProper(a[k].value, b);
      ReplacedIsGone(a, b, k);
      ResultRows(q, a);
      HeldUnder(Result(q, a), a[k].value);
      Vanished(ById(Result(q, a)), Result(q, b), IdOf(a[k].value));
    } else {
      var k: nat := if |a| < |b| then |a| else |b|;
      if |a| == |b| {
        k :| 0 <= k < |a| && a[k] != b[k];
      }
      q := Nth(k);
      NthIsProper(k, a);
      NthIsProper(k, b);
      NthDiffers(a, b, k);
    }
  }

  lemma NthDiffers(a: Store, b: Store, k: nat)
    requires Stored(a) && Stored(b) && (k < |a| || k < |b|) && (k < |a| && k < |b| ==> a[k].key != b[k].key)
    ensures !Mirrors(ById(Result(Nth(k), a)), Result(Nth(k), b))
  {
    hide Proper, Runs, Result, Mirrors, IdOf, Tidy, Nth;
    NthIsProper(k, a);
    NthResult(k, a);
    NthResult(k, b);
    ResultRows(Nth(k), a);
    if k < |a| {
      assert a[k].value in [a[k].value];
      HeldUnder([a[k].value], a[k].value);
      assert IdOf(a[k].value) == a[k].key && (k < |b| ==> IdOf(b[k].value) == b[k].key);
      Vanished(ById(Result(Nth(k), a)), Result(Nth(k), b), a[k].key);
    } else {
      Unknown(ById(Result(Nth(k), a)), Result(Nth(k), b), 0);
    }
  }

  /* ---------- Which calls leave an up-to-date listener behind ---------- */

  // A world in which our listener and its cursor are up to date.
  ghost predicate UpToDate(q: Query, w: World) {
    Sound(w) && Current(q, w) && w.previous == Some(Result(q, w.store))
  }

  // The call announces its change, but some callback throws before it reaches our cursor: a
  // listener, or the query of a cursor ahead on the documents as they are then.
  ghost predicate Interrupted(store: Store, ahead: seq<Query>, op: Op, fate: Fate) {
    var e := Perform(store, op);
    e.notified && e.store != store && (fate.Lost? || !AllRun(ahead, e.store))
  }

  ghost predicate InterruptedVisibly(store: Store, ahead: seq<Query>, op: Op, fate: Fate) {
    var e := Perform(store, op);
    e.notified && !SameStore(store, e.store) && (fate.Lost? || !AllRun(ahead, e.store))
  }

  function Fresh(q: Query, store: Store, ahead: seq<Query>): World {
    World(store, ahead, |ahead|, Some(Result(q, store)), 0, Some(ById(Result(q, store))))
  }

  lemma FreshIsUpToDate(q: Query, store: Store, ahead: seq<Query>)
    requires Proper(q) && Runs(q, store) && Stored(store) && LocalIds(store)
    ensures UpToDate(q, Fresh(q, store, ahead)) && Ahead(Fresh(q, store, ahead)) == ahead
  {
    hide Stored, LocalIds, Rows, LocalRows, TidyMirror, Result, Runs, Proper, ById, Mirrors;
    ResultLocal(q, store);
  }

  // What the cursor is not told of leaves the listener as it is.
  lemma UnheardKeepsMirror(q: Query, w: World, op: Op, fate: Fate)
    requires !Reached(q, w, op, fate)
    ensures Next(q, w, Mutate(op, fate)) == w.(store := Perform(w.store, op).store)
  {
  }

  // A change is missed exactly when the call breaks midway, is interrupted, makes the cursor's own
  // query throw, or the report of it is cut short.
  lemma MissedExactly(q: Query, w: World, op: Op, fate: Fate)
    requires Stored(w.store) && w.previous.Some?
    ensures Missed(q, w, Mutate(op, fate)) <==>
              || BreaksMidway(w.store, op)
              || Interrupted(w.store, Ahead(w), op, fate)
              || (Perform(w.store, op).notified && Perform(w.store, op).store != w.store
                 && !Runs(q, Perform(w.store, op).store))
              || (Snipped(q, w, op, fate) && Perform(w.store, op).store != w.store)
  {
    hide Perform, Runs, AllRun, BreaksMidway, BreaksVisibly, Ahead, Stored, Details, Result;
    SilentExactly(w.store, op);
  }

  lemma StaysCurrent(q: Query, w: World, op: Op, fate: Fate)
    requires Proper(q) && UpToDate(q, w) && Lawful(op) && Runs(q, Perform(w.store, op).store) && !fate.Cut?
    requires !BreaksMidway(w.store, op) && !Interrupted(w.store, Ahead(w), op, fate)
    ensures Current(q, Next(q, w, Mutate(op, fate)))
  {
    hide Stored, LocalIds, Rows, LocalRows, TidyMirror, Result, Runs, Proper, Perform, Mirrors, BreaksMidway, Lawful,
         AllRun;
    if Hears(q, w, op, fate) {
      NotificationResyncs(q, w, op, fate);
    } else {
      UnheardKeepsMirror(q, w, op, fate);
      MissedExactly(q, w, op, fate);
    }
  }

  // One listener and one call: it is current afterwards if and only if the query then runs and
  // either the cursor hears of the call or the result stays the same under each identity.
  lemma NextCurrentExactly(q: Query, w: World, op: Op, fate: Fate)
    requires Proper(q) && UpToDate(q, w) && Lawful(op) && !fate.Cut?
    ensures var after := Perform(w.store, op).store;
            (Current(q, Next(q, w, Mutate(op, fate))) <==>
               && Runs(q, after)
               && (Hears(q, w, op, fate) || forall id :: Unnoticed(Result(q, w.store), Result(q, after), id)))
  {
    hide Stored, LocalIds, Rows, LocalRows, TidyMirror, Result, Runs, Proper, Perform, Mirrors, Lawful, AllRun,
         Unnoticed;
    var after := Perform(w.store, op).store;
    PerformKeepsStored(w.store, op);
    PerformKeepsLocalIds(w.store, op);
    ResultLocal(q, after);
    if Hears(q, w, op, fate) {
      NotificationResyncs(q, w, op, fate);
    } else {
      UnheardKeepsMirror(q, w, op, fate);
      MirrorsBoth(w.mirror.value, Result(q, w.store), Result(q, after));
    }
  }

  // With a report cut short it is current exactly if it had been handed every event by then.
  lemma CutShortExactly(q: Query, w: World, op: Op, fate: Fate)
    requires Proper(q) && UpToDate(q, w) && Lawful(op) && Snipped(q, w, op, fate)
    ensures Current(q, Next(q, w, Mutate(op, fate))) <==> fate.handed >= |News(q, w, op)|
  {
    hide Stored, LocalIds, Rows, LocalRows, TidyMirror, Result, Runs, Proper, Perform, Mirrors, Lawful, AllRun, Details,
         ApplyAll;
    var after := Perform(w.store, op).store;
    PerformKeepsStored(w.store, op);
    PerformKeepsLocalIds(w.store, op);
    ResultLocal(q, after);
    var news := News(q, w, op);
    var d := if fate.handed < |news| then fate.handed else |news|;
    assert Handed(q, w, op, fate) == news[..d];
    CutExactly(w.mirror.value, w.previous.value, Result(q, after), d);
  }

  // For any store, any cursors ahead and any call: every up-to-date listener of every query that
  // still runs is current afterwards if and only if the call neither rewrites a document and then
  // fails on a later one nor is interrupted on the way to the cursor.
  lemma StaysCurrentExactly(store: Store, ahead: seq<Query>, op: Op, fate: Fate)
    requires Stored(store) && LocalIds(store) && Lawful(op) && !fate.Cut?
    ensures (forall q, w :: Proper(q) && UpToDate(q, w) && w.store == store && Ahead(w) == ahead
                            && Runs(q, Perform(store, op).store)
                            ==> Current(q, Next(q, w, Mutate(op, fate))))
       <==> !BreaksMidway(store, op) && !Interrupted(store, ahead, op, fate)
  {
    hide *;
    if BreaksMidway(store, op) || Interrupted(store, ahead, op, fate) {
      var q := MissingLeavesBehind(store, ahead, op, fate);
    } else {
      forall q, w | Proper(q) && UpToDate(q, w) && w.store == store && Ahead(w) == ahead
                    && Runs(q, Perform(store, op).store)
        ensures Current(q, Next(q, w, Mutate(op, fate)))
      {
        StaysCurrent(q, w, op, fate);
      }
    }
  }

  lemma MissingLeavesBehind(store: Store, ahead: seq<Query>, op: Op, fate: Fate) returns (q: Query)
    requires !fate.Cut? && Stored(store) && LocalIds(store) && Lawful(op)
    requires BreaksMidway(store, op) || Interrupted(store, ahead, op, fate)
    ensures var w := Fresh(q, store, ahead);
            && Proper(q) && UpToDate(q, w) && w.store == store && Ahead(w) == ahead && Runs(q, Perform(store, op).store)
            && !Current(q, Next(q, w, Mutate(op, fate)))
  {
    hide Stored, LocalIds, Result, Runs, Proper, Perform, Mirrors, BreaksMidway, BreaksVisibly, Lawful, AllRun,
         UpToDate, Ahead, ById;
    var after := Perform(store, op).store;
    PerformKeepsStored(store, op);
    SilentExactly(store, op);
    q := StoresDiffer(store, after);
    FreshIsUpToDate(q, store, ahead);
    UnheardKeepsMirror(q, Fresh(q, store, ahead), op, fate);
  }

  /* ---------- The same beyond the order of keys ---------- */

  lemma StaysCurrentRespecting(q: Query, w: World, op: Op, fate: Fate)
    requires Respecting(q) && UpToDate(q, w) && Lawful(op) && Runs(q, Perform(w.store, op).store) && !fate.Cut?
    requires !BreaksVisibly(w.store, op) && !InterruptedVisibly(w.store, Ahead(w), op, fate)
    ensures Current(q, Next(q, w, Mutate(op, fate)))
  {
    hide Stored, LocalIds, Rows, LocalRows, TidyMirror, Result, Runs, Respecting, Proper, Perform, Mirrors;
    hide BreaksMidway, BreaksVisibly, Lawful, SameStore, SameRows, AllRun;
    assert Proper(q) by { RespectingIsProper(q); }
    SilentExactly(w.store, op);
    if Hears(q, w, op, fate) {
      NotificationResyncs(q, w, op, fate);
    } else {
      UnheardKeepsMirror(q, w, op, fate);
      var after := Perform(w.store, op).store;
      PerformKeepsStored(w.store, op);
      ResultRespects(q, w.store, after);
      ResultRows(q, w.store);
      ResultRows(q, after);
      MirrorsAlike(w.mirror.value, Result(q, w.store), Result(q, after));
    }
  }

  lemma RespectingIsProper(q: Query)
    requires Respecting(q)
    ensures Proper(q)
  {
  }

  // A call that changes the keys of the store adds one or takes one away.
  lemma KeyComesOrGoes(store: Store, op: Op) returns (id: string)
    requires Stored(store) && Keys(Perform(store, op).store) != Keys(store)
    ensures id in Keys(store) <==> id !in Keys(Perform(store, op).store)
  {
    hide Tidy, IdOf, Rewritten, LocalId, Put, Lookup;
    match op
    case Insert(fields, random, names) => id := InsertedKey(store, fields, random, names);
    case Remove(selector) => id := RemovedKey(store, selector);
    case Upsert(selector, modifier, multi, created, insertedId, random, names) =>
      id := InsertedKey(store, UpsertDocument(created.value, insertedId), random, names);
  }

  lemma InsertedKey(store: Store, fields: seq<Field<Value>>, random: string, names: Value -> bool) returns (id: string)
    requires Keys(InsertEffect(store, fields, random, names).store) != Keys(store)
    ensures id !in Keys(store) && id in Keys(InsertEffect(store, fields, random, names).store)
  {
    hide LocalId, Put, Lookup;
    var whole := WithId(fields, random);
    assert Inserted(store, fields, random, names).Some?;
    assert LocalId(Lookup(whole, "_id").value);
    id := StrOf(Lookup(whole, "_id").value);
    PutKeys(store, id, Obj(whole));
  }

  lemma StrOf(v: Value) returns (s: string)
    requires LocalId(v)
    ensures v == Str(s)
  {
    s := v.s;
  }

  lemma RemovedKey(store: Store, selector: Selector) returns (id: string)
    requires Stored(store) && Keys(Without(store, selector)) != Keys(store)
    ensures id in Keys(store) && id !in Keys(Without(store, selector))
  {
    hide Tidy, IdOf;
    var i := SomeSelected(store, selector);
    id := store[i].key;
    assert Keys(store)[i] == id;
    var rest := Without(store, selector);
    WithoutStored(store, selector);
    forall k | 0 <= k < |rest|
      ensures Keys(rest)[k] != id
    {
      assert rest[k] in store;
      var j :| 0 <= j < |store| && store[j] == rest[k];
      assert j != i;
      assert Keys(store)[j] != Keys(store)[i];
    }
  }

  lemma {:induction false} SomeSelected(store: Store, selector: Selector) returns (i: nat)
    requires Without(store, selector) != store
    ensures i < |store| && selector(store[i].value)
  {
    if selector(store[0].value) {
      i := 0;
    } else {
      assert store == [store[0]] + store[1..];
      i := SomeSelected(store[1..], selector);
      i := i + 1;
    }
  }

  lemma KeysDiffer(a: Store, b: Store) returns (i: nat)
    requires Keys(a) == Keys(b) && !SameStore(a, b)
    ensures i < |a| && a[i].key == b[i].key && !Same(a[i].value, b[i].value)
  {
    hide Same;
    forall k | 0 <= k < |a|
      ensures a[k].key == b[k].key
    {
      assert Keys(a)[k] == Keys(b)[k];
    }
    i :| 0 <= i < |a| && !Same(a[i].value, b[i].value);
  }

  lemma DiffersReversed(a: Store, b: Store, i: nat)
    requires OwnIds(a) && OwnIds(b) && i < |a| && i < |b| && !Same(a[i].value, b[i].value)
    ensures !Same(b[i].value, a[i].value)
  {
    hide Equal, IdOf, Tidy;
    LooseIsAnEquivalence(a[i].value, b[i].value, b[i].value);
  }

  // Where the documents differ under some identity, neither store's listener mirrors the other.
  lemma DifferenceShows(a: Store, b: Store, i: nat)
    requires Stored(a) && Stored(b) && i < |a| && i < |b| && a[i].key == b[i].key && !Same(a[i].value, b[i].value)
    ensures !Mirrors(ById(Values(a)), Values(b))
  {
    hide ById, Mirrors, IdOf, Tidy, Same;
    ValuesRows(a);
    assert Values(a)[i] == a[i].value && Values(b)[i] == b[i].value;
    HeldUnder(Values(a), a[i].value);
    Outdated(ById(Values(a)), Values(b), i);
  }

  lemma KeyShows(a: Store, b: Store, id: string)
    requires Stored(a) && Stored(b) && (id in Keys(a) <==> id !in Keys(b))
    ensures !Mirrors(ById(Values(a)), Values(b))
  {
    hide ById, Mirrors, IdOf, Tidy, Same;
    ValuesRows(a);
    ValuesRows(b);
    if id in Keys(a) {
      var i :| 0 <= i < |a| && Keys(a)[i] == id;
      assert Values(a)[i] == a[i].value && IdOf(a[i].value) == id;
      HeldUnder(Values(a), a[i].value);
      NoSuchId(b, id);
      Vanished(ById(Values(a)), Values(b), id);
    } else {
      var i :| 0 <= i < |b| && Keys(b)[i] == id;
      assert IdOf(Values(b)[i]) == id;
      NoSuchId(a, id);
      NotHeld(Values(a), id);
      Unknown(ById(Values(a)), Values(b), i);
    }
  }

  lemma NoSuchId(store: Store, id: string)
    requires OwnIds(store) && id !in Keys(store)
    ensures !HasId(Values(store), id)
  {
    hide IdOf, Tidy;
    forall i | 0 <= i < |store|
      ensures IdOf(Values(store)[i]) != id
    {
      assert Keys(store)[i] != id;
    }
  }

  lemma NotHeld(docs: seq<Value>, id: string)
    requires Rows(docs) && !HasId(docs, id)
    ensures id !in ById(docs)
  {
    hide ById, IdOf, Tidy, Equal;
    ByIdMirrors(docs);
  }

  // A call that changes the store beyond the order of keys shows to listeners of all documents.
  lemma ChangeShows(store: Store, op: Op)
    requires Stored(store) && Lawful(op) && !SameStore(store, Perform(store, op).store)
    ensures var after := Perform(store, op).store;
            !Mirrors(ById(Values(store)), Values(after)) && !Mirrors(ById(Values(after)), Values(store))
  {
    hide Perform, Mirrors, ById, IdOf, Tidy, Same, SameStore, Lawful, Keys, Distinct;
    var after := Perform(store, op).store;
    PerformKeepsStored(store, op);
    if Keys(store) == Keys(after) {
      var i := KeysDiffer(store, after);
      KeysLength(store, after);
      DifferenceShows(store, after, i);
      DiffersReversed(store, after, i);
      DifferenceShows(after, store, i);
    } else {
      var id := KeyComesOrGoes(store, op);
      KeyShows(store, after, id);
      KeyShows(after, store, id);
    }
  }

  lemma KeysLength(a: Store, b: Store)
    requires Keys(a) == Keys(b)
    ensures |a| == |b|
  {
    assert |Keys(a)| == |a| && |Keys(b)| == |b|;
  }

  // For queries that do not look at the order of keys, only changes beyond it count.
  lemma StaysCurrentExactlyRespecting(store: Store, ahead: seq<Query>, op: Op, fate: Fate)
    requires !fate.Cut? && Stored(store) && LocalIds(store) && Lawful(op)
    ensures (forall q, w :: Respecting(q) && UpToDate(q, w) && w.store == store && Ahead(w) == ahead
                            && Runs(q, Perform(store, op).store)
                            ==> Current(q, Next(q, w, Mutate(op, fate))))
       <==> !BreaksVisibly(store, op) && !InterruptedVisibly(store, ahead, op, fate)
  {
    hide *;
    if BreaksVisibly(store, op) || InterruptedVisibly(store, ahead, op, fate) {
      EverythingRespects();
      MissingVisiblyLeavesBehind(store, ahead, op, fate);
    } else {
      forall q, w | Respecting(q) && UpToDate(q, w) && w.store == store && Ahead(w) == ahead
                    && Runs(q, Perform(store, op).store)
        ensures Current(q, Next(q, w, Mutate(op, fate)))
      {
        StaysCurrentRespecting(q, w, op, fate);
      }
    }
  }

  lemma MissingVisiblyLeavesBehind(store: Store, ahead: seq<Query>, op: Op, fate: Fate)
    requires !fate.Cut? && Stored(store) && LocalIds(store) && Lawful(op)
    requires BreaksVisibly(store, op) || InterruptedVisibly(store, ahead, op, fate)
    ensures var q := Everything();
            var w := Fresh(q, store, ahead);
            && UpToDate(q, w) && w.store == store && Ahead(w) == ahead && Runs(q, Perform(store, op).store)
            && !Current(q, Next(q, w, Mutate(op, fate)))
  {
    hide Stored, LocalIds, Result, Runs, Proper, Respecting, Perform, Mirrors, BreaksMidway, BreaksVisibly, Lawful,
         AllRun;
    hide UpToDate, Ahead, ById, SameStore, Everything;
    var q, after := Everything(), Perform(store, op).store;
    EverythingRespects();
    EverythingRuns(store);
    EverythingRuns(after);
    EverythingResult(store);
    EverythingResult(after);
    SilentExactly(store, op);
    ChangeShows(store, op);
    FreshIsUpToDate(q, store, ahead);
    UnheardKeepsMirror(q, Fresh(q, store, ahead), op, fate);
  }

  /* ---------- Listeners fed again after a stop ---------- */

  function Performed(store: Store, ops: seq<Op>): Store
    decreases |ops|
  {
    if ops == [] then store else Performed(Perform(store, ops[0]).store, ops[1..])
  }

  // Our cursor, not observing, while the calls are made.
  function Through(q: Query, w: World, ops: seq<Op>): World
    decreases |ops|
  {
    if ops == [] then w else Through(q, Next(q, w, Mutate(ops[0], Told)), ops[1..])
  }

  lemma {:induction false} StoppedOnlyStores(q: Query, w: World, ops: seq<Op>)
    requires w.previous == None
    ensures Through(q, w, ops) == w.(store := Performed(w.store, ops))
    decreases |ops|
  {
    hide Perform;
    if ops != [] {
      StoppedOnlyStores(q, Next(q, w, Mutate(ops[0], Told)), ops[1..]);
    }
  }

  // Stopped, then observing again once the calls are made.
  function FedAgain(q: Query, w: World, ops: seq<Op>): World {
    Next(q, Through(q, Next(q, w, Stop), ops), OtherAttach)
  }

  // A listener kept through a stop is in step again if and only if what it held agrees, under
  // each identity, with the result taken when the cursor observes again.
  lemma FedAgainExactly(q: Query, w: World, ops: seq<Op>)
    requires Proper(q) && UpToDate(q, w) && Runs(q, Performed(w.store, ops))
    requires forall i :: 0 <= i < |ops| ==> Lawful(ops[i])
    ensures var before, now := Result(q, w.store), Result(q, Performed(w.store, ops));
            && FedAgain(q, w, ops).mirror == w.mirror
            && (InStep(FedAgain(q, w, ops)) <==> forall id :: Unnoticed(before, now, id))
  {
    hide Stored, LocalIds, Rows, LocalRows, TidyMirror, Result, Runs, Proper, Mirrors, Performed, Lawful, FedAgain,
         InStep, Unnoticed;
    FedAgainMirror(q, w, ops);
    PerformedStored(w.store, ops);
    ResultLocal(q, Performed(w.store, ops));
    MirrorsBoth(w.mirror.value, Result(q, w.store), Result(q, Performed(w.store, ops)));
  }

  lemma FedAgainMirror(q: Query, w: World, ops: seq<Op>)
    requires w.mirror.Some? && Runs(q, Performed(w.store, ops))
    ensures FedAgain(q, w, ops).mirror == w.mirror
    ensures InStep(FedAgain(q, w, ops)) <==> Mirrors(w.mirror.value, Result(q, Performed(w.store, ops)))
  {
    hide Result, Runs, Mirrors, Performed;
    StoppedOnlyStores(q, Next(q, w, Stop), ops);
  }

  lemma {:induction false} PerformedStored(store: Store, ops: seq<Op>)
    requires Stored(store) && LocalIds(store) && forall i :: 0 <= i < |ops| ==> Lawful(ops[i])
    ensures Stored(Performed(store, ops)) && LocalIds(Performed(store, ops))
    decreases |ops|
  {
    hide Stored, LocalIds, Perform, Lawful;
    if ops != [] {
      PerformKeepsStored(store, ops[0]);
      PerformKeepsLocalIds(store, ops[0]);
      PerformedStored(Perform(store, ops[0]).store, ops[1..]);
    }
  }

  // Told from the calls between the stop and the new observation: every listener of every query
  // is in step again if and only if together the calls leave the store as it was.
  lemma FedAgainForEveryQuery(store: Store, ops: seq<Op>)
    requires Stored(store) && LocalIds(store) && forall i :: 0 <= i < |ops| ==> Lawful(ops[i])
    ensures (forall q, w :: Proper(q) && UpToDate(q, w) && w.store == store && Runs(q, Performed(store, ops))
                            ==> InStep(FedAgain(q, w, ops)))
       <==> Performed(store, ops) == store
  {
    hide *;
    PerformedStored(store, ops);
    if Performed(store, ops) == store {
      forall q, w | Proper(q) && UpToDate(q, w) && w.store == store && Runs(q, Performed(store, ops))
        ensures InStep(FedAgain(q, w, ops))
      {
        NothingToCatchUp(q, w, ops);
      }
    } else {
      var q := StoresDiffer(store, Performed(store, ops));
      MustCatchUp(q, store, ops);
    }
  }

  lemma NothingToCatchUp(q: Query, w: World, ops: seq<Op>)
    requires Proper(q) && UpToDate(q, w) && Performed(w.store, ops) == w.store
    ensures InStep(FedAgain(q, w, ops))
  {
    hide Stored, LocalIds, Rows, LocalRows, TidyMirror, Result, Runs, Proper, Mirrors, Performed, FedAgain, InStep;
    FedAgainMirror(q, w, ops);
  }

  lemma MustCatchUp(q: Query, store: Store, ops: seq<Op>)
    requires Proper(q) && Runs(q, store) && Runs(q, Performed(store, ops)) && Stored(store) && LocalIds(store)
    requires !Mirrors(ById(Result(q, store)), Result(q, Performed(store, ops)))
    ensures var w := Fresh(q, store, []);
            UpToDate(q, w) && w.store == store && !InStep(FedAgain(q, w, ops))
  {
    hide Stored, LocalIds, Rows, LocalRows, TidyMirror, Result, Runs, Proper, Mirrors, Performed, ById, FedAgain,
         InStep;
    FreshIsUpToDate(q, store, []);
    FedAgainMirror(q, Fresh(q, store, []), ops);
  }

  /* ---------- Listeners that attach late ---------- */

  // What our listener is told next is decided by what the cursor remembers, not by what the
  // listener fetched when it attached.
  lemma LateListenerNext(q: Query, w: World, op: Op, fate: Fate)
    requires Proper(q) && Sound(w) && w.mirror.Some? && Lawful(op) && Hears(q, w, op, fate)
    ensures var current := Result(q, Perform(w.store, op).store);
            (Current(q, Next(q, w, Mutate(op, fate))) <==>
               forall id :: Unnoticed(w.previous.value, current, id) ==> HoldsAt(w.mirror.value, current, id))
  {
    hide Stored, LocalIds, Rows, LocalRows, TidyMirror, Result, Runs, Proper, Perform, Report, ById, Mirrors, Find,
         ApplyAll;
    PerformKeepsStored(w.store, op);
    PerformKeepsLocalIds(w.store, op);
    ResultLocal(q, Perform(w.store, op).store);
    ReportAppliesExactly(w.mirror.value, w.previous.value, Result(q, Perform(w.store, op).store));
  }

  // A mutation that makes the store hold under `id` what the cursor remembers there.
  function Restore(w: World, id: string): Op
    requires w.previous.Some?
  {
    var known, now := Find(w.previous.value, id), Find(Values(w.store), id);
    if known == None then Remove((x: Value) => Some(x) == now)
    else if now == None then Insert(if known.value.Obj? then known.value.fields else [], "", x => true)
    else Update((x: Value) => Some(x) == now, (x: Value) => if Some(x) == now then known else None, false)
  }

  lemma FindStored(store: Store, i: nat)
    requires Stored(store) && i < |store|
    ensures Find(Values(store), store[i].key) == Some(store[i].value)
  {
    hide IdOf, Tidy, Find, Rows;
    ValuesRows(store);
    assert Values(store)[i] == store[i].value && IdOf(store[i].value) == store[i].key;
    FindsRow(Values(store), store[i].key);
  }

  lemma FindHolder(store: Store, id: string) returns (i: nat)
    requires Stored(store) && Find(Values(store), id).Some?
    ensures i < |store| && store[i] == Field(id, Find(Values(store), id).value)
  {
    hide IdOf, Tidy, Find, Rows;
    ValuesRows(store);
    FindsRow(Values(store), id);
    i :| 0 <= i < |Values(store)| && IdOf(Values(store)[i]) == id;
  }

  lemma RestoreByRemoving(store: Store, id: string, d: Value)
    requires Stored(store) && Find(Values(store), id) == Some(d)
    ensures var after := Without(store, (x: Value) => Some(x) == Some(d));
            Stored(after) && Find(Values(after), id) == None
  {
    hide IdOf, Tidy, Find, Without;
    var selector := (x: Value) => Some(x) == Some(d);
    var after := Without(store, selector);
    WithoutStored(store, selector);
    if Find(Values(after), id).Some? {
      var i := FindHolder(after, id);
      assert after[i] in store && after[i].value != d;
      var k :| 0 <= k < |store| && store[k] == after[i];
      FindStored(store, k);
      assert false;
    }
  }

  lemma RestoreByInserting(store: Store, id: string, k: Value)
    requires Stored(store) && Find(Values(store), id) == None
    requires Tidy(k) && IdOf(k) == id && LocalId(Str(id))
    ensures k.Obj? && Inserted(store, k.fields, "", x => true) == Some(Put(store, id, k))
    ensures Stored(Put(store, id, k)) && Find(Values(Put(store, id, k)), id) == Some(k)
  {
    hide Tidy, Find, Put, Lookup;
    assert |"undefined"| == 9;
    assert k.Obj? && Lookup(k.fields, "_id") == Some(Str(id));
    assert WithId(k.fields, "") == k.fields;
    if id in Keys(store) {
      var i :| 0 <= i < |store| && Keys(store)[i] == id;
      FindStored(store, i);
      assert false;
    }
    PutStored(store, id, k);
    PutLooks(store, id, k, id);
    var i := LookupFinds(Put(store, id, k), id);
    FindStored(Put(store, id, k), i);
  }

  lemma {:induction false} RewritesOne(store: Store, d: Value, k: Value, i: nat)
    requires i < |store| && store[i].value == d
    ensures var c := Rewritten(store, (x: Value) => Some(x) == Some(d),
                               (x: Value) => if Some(x) == Some(d) then Some(k) else None, false);
            !c.threw && c.affected == 1
            && exists j :: 0 <= j <= i && c.store[j] == Field(store[j].key, k) && store[j].value == d
    decreases |store|
  {
    var selector := (x: Value) => Some(x) == Some(d);
    var modifier := (x: Value) => if Some(x) == Some(d) then Some(k) else None;
    var c := Rewritten(store, selector, modifier, false);
    if store[0].value == d {
      assert c.store[0] == Field(store[0].key, k);
    } else {
      RewritesOne(store[1..], d, k, i - 1);
      var rest := Rewritten(store[1..], selector, modifier, false).store;
      var j :| 0 <= j <= i - 1 && rest[j] == Field(store[1..][j].key, k) && store[1..][j].value == d;
      assert c.store[j + 1] == Field(store[j + 1].key, k) && store[j + 1].value == d;
    }
  }

  lemma RestoreByUpdating(store: Store, id: string, d: Value, k: Value)
    requires Stored(store) && Find(Values(store), id) == Some(d) && Tidy(k) && IdOf(k) == id
    ensures var modifier := (x: Value) => if Some(x) == Some(d) then Some(k) else None;
            var c := Rewritten(store, (x: Value) => Some(x) == Some(d), modifier, false);
            && KeepsIdentity(modifier) && !c.threw && c.affected == 1
            && Stored(c.store) && Find(Values(c.store), id) == Some(k)
  {
    hide IdOf, Tidy, Find, Rewritten;
    var selector := (x: Value) => Some(x) == Some(d);
    var modifier := (x: Value) => if Some(x) == Some(d) then Some(k) else None;
    var i := FindHolder(store, id);
    assert IdOf(store[i].value) == id;
    assert KeepsIdentity(modifier);
    RewrittenStored(store, selector, modifier, false);
    RewritesOne(store, d, k, i);
    var c := Rewritten(store, selector, modifier, false);
    var j :| 0 <= j <= i && c.store[j] == Field(store[j].key, k) && store[j].value == d;
    assert IdOf(store[j].value) == store[j].key;
    FindStored(c.store, j);
  }

  lemma RestoreWorks(w: World, id: string)
    requires Sound(w) && w.previous.Some? && !(Find(w.previous.value, id) == None && Find(Values(w.store), id) == None)
    ensures var op := Restore(w, id);
            && Lawful(op) && Perform(w.store, op).notified && Stored(Perform(w.store, op).store)
            && Find(Values(Perform(w.store, op).store), id) == Find(w.previous.value, id)
  {
    hide IdOf, Tidy, Find, Rewritten, Without, Inserted, Stored, Rows, LocalId, KeepsIdentity;
    var known, now := Find(w.previous.value, id), Find(Values(w.store), id);
    FindsRow(w.previous.value, id);
    if known == None {
      RestoreByRemoving(w.store, id, now.value);
    } else {
      assert LocalId(Str(id)) by { RowIsLocal(w.previous.value, id); }
      if now == None {
        RestoreByInserting(w.store, id, known.value);
      } else {
        RestoreByUpdating(w.store, id, now.value, known.value);
      }
    }
  }

  lemma RowIsLocal(docs: seq<Value>, id: string)
    requires LocalRows(docs) && HasId(docs, id)
    ensures LocalId(Str(id))
  {
  }

  // Cursors whose queries never throw.
  ghost predicate Unfailing(cursors: seq<Query>) {
    forall store :: AllRun(cursors, store)
  }

  lemma EverythingHears(w: World, op: Op)
    requires w.previous.Some? && Perform(w.store, op).notified && Unfailing(Ahead(w))
    ensures Hears(Everything(), w, op, Told)
  {
    hide Everything, Perform, Runs;
    EverythingRuns(Perform(w.store, op).store);
  }

  // A listener of all documents that has just attached is current after every next mutation its
  // cursor hears of if and only if what it fetched agrees with what the cursor remembers.
  lemma LateListenerExactly(w: World)
    requires Sound(w) && w.previous.Some? && w.mirror == Some(ById(Result(Everything(), w.store)))
             && Unfailing(Ahead(w))
    ensures (forall op :: Lawful(op) && Hears(Everything(), w, op, Told)
                          ==> Current(Everything(), Next(Everything(), w, Mutate(op, Told))))
       <==> InStep(w)
  {
    hide Stored, LocalIds, Rows, LocalRows, Result, Runs, Proper, Respecting, Perform, ById, Mirrors, Find, Everything,
         Restore;
    hide Lawful, Next, Current, Equal, TidyMirror, Tidy, Hears, Unfailing;
    EverythingRespects();
    var q := Everything();
    if InStep(w) {
      forall op | Lawful(op) && Hears(q, w, op, Told)
        ensures Current(q, Next(q, w, Mutate(op, Told)))
      {
        NotificationResyncs(q, w, op, Told);
      }
    } else {
      MirrorsEverywhere(w.mirror.value, w.previous.value);
      var id :| !HoldsAt(w.mirror.value, w.previous.value, id);
      LateListenerMisses(w, id);
    }
  }

  lemma LateListenerMisses(w: World, id: string)
    requires Sound(w) && w.previous.Some? && w.mirror == Some(ById(Result(Everything(), w.store)))
             && Unfailing(Ahead(w))
    requires !HoldsAt(w.mirror.value, w.previous.value, id)
    ensures var op := Restore(w, id);
            Lawful(op) && Hears(Everything(), w, op, Told)
            && !Current(Everything(), Next(Everything(), w, Mutate(op, Told)))
  {
    hide Stored, LocalIds, Rows, LocalRows, Result, Runs, Proper, Respecting, Perform, ById, Mirrors, Find, Everything,
         Restore;
    hide Lawful, Next, Current, Equal, Tidy, Hears, Unfailing;
    EverythingRespects();
    var q, m := Everything(), w.mirror.value;
    EverythingResult(w.store);
    ResultLocal(q, w.store);
    MirrorsEverywhere(m, Result(q, w.store));
    assert HoldsAt(m, Values(w.store), id);
    RestoreWorks(w, id);
    var op := Restore(w, id);
    var after := Perform(w.store, op).store;
    EverythingResult(after);
    EverythingHears(w, op);
    LateListenerNext(q, w, op, Told);
    SameSelf(w.previous.value, id);
    assert Unnoticed(w.previous.value, Values(after), id) && !HoldsAt(m, Values(after), id);
  }

  lemma SameStoreReversed(a: Store, b: Store)
    requires OwnIds(a) && OwnIds(b) && SameStore(a, b)
    ensures SameRows(Values(b), Values(a))
  {
    hide Equal, IdOf, Tidy;
    forall i | 0 <= i < |a|
      ensures Same(b[i].value, a[i].value)
    {
      LooseIsAnEquivalence(a[i].value, b[i].value, b[i].value);
    }
  }

  // Told from the call before it: a listener of all documents that attaches to an observing,
  // up-to-date cursor right after a call fetches what the cursor remembers if and only if the call
  // was not missed beyond the order of keys.
  lemma AttachAfterExactly(w: World, op: Op, fate: Fate)
    requires !fate.Cut? && Sound(w) && w.mirror == None && w.previous == Some(Result(Everything(), w.store))
             && Lawful(op)
    ensures InStep(Next(Everything(), Next(Everything(), w, Mutate(op, fate)), Attach))
       <==> !BreaksVisibly(w.store, op) && !InterruptedVisibly(w.store, Ahead(w), op, fate)
  {
    hide Rows, Result, Runs, Proper, Respecting, Perform, Report, ById, Mirrors, BreaksMidway, BreaksVisibly, Lawful;
    hide Everything, IdOf, Tidy, Same, SameStore, AllRun, LocalIds, LocalRows, Ahead, Hears;
    var q, after := Everything(), Perform(w.store, op).store;
    EverythingRespects();
    EverythingRuns(after);
    SilentExactly(w.store, op);
    PerformKeepsStored(w.store, op);
    PerformKeepsLocalIds(w.store, op);
    ResultLocal(q, after);
    HearsAll(w, op, fate);
    if !Hears(q, w, op, fate) {
      EverythingResult(w.store);
      EverythingResult(after);
      ResultLocal(q, w.store);
      if SameStore(w.store, after) {
        SameStoreReversed(w.store, after);
        MirrorsAlike(ById(Values(after)), Values(after), Values(w.store));
      } else {
        ChangeShows(w.store, op);
      }
    }
  }

  lemma HearsAll(w: World, op: Op, fate: Fate)
    requires w.previous.Some? && !fate.Cut?
    ensures Hears(Everything(), w, op, fate)
            <==> Perform(w.store, op).notified && fate.Told? && AllRun(Ahead(w), Perform(w.store, op).store)
  {
    hide Everything, Perform, Runs;
    EverythingRuns(Perform(w.store, op).store);
  }
}
