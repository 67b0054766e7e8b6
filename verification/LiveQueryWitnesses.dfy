// Five runs in which a listener ends up wrong.
module LiveQueryWitnesses {
  import opened Results
  import opened Fields
  import opened ValueOrder
  import opened DocumentStore
  import opened LiveQuery
  import opened LocalCollection
  import opened LiveQueryRuns
  import opened LiveQueryExact
  import S = Sorter
  import Q = SortedQuery
  import E = EjsonValue

  function First(): string { "aaaaaaaaaaaaaaaaaaaaaaaa" }
  function Second(): string { "bbbbbbbbbbbbbbbbbbbbbbbb" }
  function Third(): string { "cccccccccccccccccccccccc" }

  function Doc(id: string, flag: Value): Value { Obj([Field("_id", Str(id)), Field("flag", flag)]) }

  function Old(): Value { Doc(First(), Null) }
  function New(): Value { Doc(First(), Bool(true)) }
  function Other(): Value { Doc(Second(), Null) }
  function Later(): Value { Doc(Third(), Null) }

  function Pair(a: Value): Store { [Field(First(), a), Field(Second(), Other())] }

  lemma DocFacts(id: string, flag: Value)
    requires flag == Null || flag == Bool(true)
    ensures Tidy(Doc(id, flag)) && IdOf(Doc(id, flag)) == id && Lookup(Doc(id, flag).fields, "_id") == Some(Str(id))
  {
    var fields := Doc(id, flag).fields;
    assert Keys(fields) == ["_id", "flag"];
    LookupAt(fields, 0);
  }

  lemma DocsDiffer(id: string)
    ensures !Same(Doc(id, Null), Doc(id, Bool(true))) && !Same(Doc(id, Bool(true)), Doc(id, Null))
  {
    var f, g := Doc(id, Null).fields, Doc(id, Bool(true)).fields;
    assert Keys(f) == ["_id", "flag"] && Keys(g) == ["_id", "flag"];
    LookupAt(f, 1);
    LookupAt(g, 1);
    assert f[1] == Field("flag", Null) && g[1] == Field("flag", Bool(true));
    assert Lookup(g, f[1].key) == Some(Bool(true)) && Lookup(f, g[1].key) == Some(Null);
    assert !Equal(Null, Bool(true), false) && !Equal(Bool(true), Null, false);
  }

  lemma Documents()
    ensures Tidy(Old()) && Tidy(New()) && Tidy(Other())
    ensures IdOf(Old()) == First() == IdOf(New()) && IdOf(Other()) == Second()
    ensures !Same(Old(), New()) && !Same(New(), Old()) && Old() != New() && Old() != Other() && New() != Other()
    ensures LocalId(Str(First())) && LocalId(Str(Second())) && First() != Second()
  {
    DocFacts(First(), Null);
    DocFacts(First(), Bool(true));
    DocFacts(Second(), Null);
    DocsDiffer(First());
    Identities24();
    hide Tidy, IdOf, Same, LocalId, First, Second;
    assert Old().fields[1].value == Null && New().fields[1].value == Bool(true);
    assert Old().fields[0].value == Str(First()) && New().fields[0].value == Str(First())
           && Other().fields[0].value == Str(Second());
  }

  lemma Identities24()
    ensures LocalId(Str(First())) && LocalId(Str(Second())) && First() != Second()
  {
    assert |First()| == 24 && |Second()| == 24;
    assert forall i :: 0 <= i < 24 ==> First()[i] == 'a';
    assert forall i :: 0 <= i < 24 ==> Second()[i] == 'b';
    assert First()[0] != Second()[0];
  }

  lemma Identities24More()
    ensures LocalId(Str(Third())) && First() != Third() && Second() != Third()
  {
    assert |Third()| == 24;
    assert forall i :: 0 <= i < 24 ==> Third()[i] == 'c';
    assert First()[0] != Third()[0] && Second()[0] != Third()[0];
  }

  function Adding(d: Value): Op { Insert(if d.Obj? then d.fields else [], "", x => true) }

  // Rewrites the first document and fails on the second.
  function Breaking(): Op { Update(x => true, x => if x == Old() then Some(New()) else None, true) }

  // Puts the first document back.
  function Repairing(): Op { Update(x => x == New(), x => if x == New() then Some(Old()) else None, false) }

  lemma Adds(store: Store, id: string, d: Value)
    requires d.Obj? && Lookup(d.fields, "_id") == Some(Str(id)) && LocalId(Str(id)) && id !in Keys(store)
    ensures Perform(store, Adding(d)) == Effect(store + [Field(id, d)], true, false)
  {
    hide LocalId, Lookup, Put;
    PutKeys(store, id, d);
  }

  lemma Breaks()
    ensures Perform(Pair(Old()), Breaking()) == Effect(Pair(New()), false, true)
  {
    Documents();
    hide Doc, IdOf, Tidy, Same;
    var op, store := Breaking(), Pair(Old());
    assert store[1..] == [Field(Second(), Other())];
    assert Rewritten([Field(Second(), Other())], op.selector, op.modifier, true)
           == Rewrite([Field(Second(), Other())], 0, true);
    assert Rewritten(store, op.selector, op.modifier, true) == Rewrite(Pair(New()), 1, true);
  }

  lemma Repairs()
    ensures Perform(Pair(New()), Repairing()) == Effect(Pair(Old()), true, false)
  {
    Documents();
    hide Doc, IdOf, Tidy, Same;
    var op, store := Repairing(), Pair(New());
    assert store[1..] == [Field(Second(), Other())];
    assert Rewritten(store, op.selector, op.modifier, false) == Rewrite(Pair(Old()), 1, false);
  }

  lemma Allowed()
    ensures Lawful(Adding(Old())) && Lawful(Adding(Other())) && Lawful(Breaking()) && Lawful(Repairing())
  {
    Documents();
    hide IdOf, Tidy, Same;
  }

  /* ---------- Runs, one step at a time ---------- */

  lemma Start() returns (ws: seq<World>, steps: seq<Step>)
    ensures Run(Everything(), ws, steps) && ws == [START] && steps == []
  {
    hide Everything, Proper, Respecting;
    EverythingRespects();
    ws, steps := [START], [];
  }

  lemma OneMore(ws: seq<World>, steps: seq<Step>, step: Step) returns (ws': seq<World>, steps': seq<Step>)
    requires Run(Everything(), ws, steps) && Enabled(ws[|steps|], step)
    ensures Run(Everything(), ws', steps') && steps' == steps + [step]
    ensures ws' == ws + [Next(Everything(), ws[|steps|], step)]
  {
    hide Everything, Proper, Enabled, Next;
    ws', steps' := ws + [Next(Everything(), ws[|steps|], step)], steps + [step];
  }

  // A mutation while nobody observes.
  lemma Unobserving(w: World, op: Op)
    requires w.previous == None
    ensures Next(Everything(), w, Mutate(op, Told)) == w.(store := Perform(w.store, op).store)
  {
    hide Everything, Perform;
  }

  lemma Attaches(w: World)
    requires w.mirror == None
    ensures Next(Everything(), w, Attach)
         == Observe(Everything(), w).(mirror := Some(ById(Values(w.store))))
    ensures w.previous == None
            ==> Observe(Everything(), w) == w.(previous := Some(Values(w.store)), place := |w.cursors|)
  {
    hide Everything, Result, Runs, ById;
    EverythingRuns(w.store);
    EverythingResult(w.store);
  }

  lemma HeardOf(w: World, op: Op)
    requires w.previous.Some? && Perform(w.store, op).notified && Ahead(w) == []
    ensures Hears(Everything(), w, op, Told)
    ensures var after := Perform(w.store, op).store;
            Next(Everything(), w, Mutate(op, Told))
            == w.(store := after, previous := Some(Values(after)),
                  mirror := if w.mirror == None then None
                            else Some(ApplyAll(w.mirror.value, Report(w.previous.value, Values(after)))))
  {
    hide Everything, Result, Runs, Perform, Report, ApplyAll;
    var after := Perform(w.store, op).store;
    EverythingRuns(after);
    EverythingResult(after);
  }

  lemma PairShows(a: Value)
    requires a == Old() || a == New()
    ensures Values(Pair(a)) == [a, Other()] && Rows([a, Other()]) && Stored(Pair(a))
    ensures First() in ById([a, Other()]) && ById([a, Other()])[First()] == a
  {
    Documents();
    hide Doc, IdOf, Tidy, Same, LocalId;
    assert Values(Pair(a)) == [a, Other()];
    assert Keys(Pair(a)) == [First(), Second()];
    ByIdMirrors([a, Other()]);
    assert IdOf([a, Other()][0]) == First();
  }

  lemma Wrong(held: Value, there: Value)
    requires (held == Old() && there == New()) || (held == New() && there == Old())
    ensures !Mirrors(ById([held, Other()]), Result(Everything(), Pair(there)))
  {
    Documents();
    PairShows(held);
    PairShows(there);
    EverythingResult(Pair(there));
    hide Doc, IdOf, Tidy, Same, Mirrors, Result, ById;
    assert [there, Other()][0] == there;
    Outdated(ById([held, Other()]), [there, Other()], 0);
  }

  function One(): Store { [Field(First(), Old())] }

  lemma FirstTwo()
    ensures Perform([], Adding(Old())) == Effect(One(), true, false)
    ensures Perform(One(), Adding(Other())) == Effect(Pair(Old()), true, false)
  {
    Identities24();
    hide Perform, LocalId, First, Second, Doc;
    assert Keys<Value>([]) == [];
    AddsDoc([], First());
    assert [] + One() == One();
    assert Keys(One()) == [First()];
    AddsDoc(One(), Second());
    assert One() + [Field(Second(), Other())] == Pair(Old());
  }

  lemma AddsDoc(store: Store, id: string)
    requires LocalId(Str(id)) && id !in Keys(store)
    ensures Perform(store, Adding(Doc(id, Null))) == Effect(store + [Field(id, Doc(id, Null))], true, false)
    ensures Lawful(Adding(Doc(id, Null)))
  {
    hide Perform, LocalId, Lookup, IdOf, Tidy, Keys;
    DocFacts(id, Null);
    Adds(store, id, Doc(id, Null));
  }

  // The run that inserts both documents while nobody observes.
  lemma Filled() returns (ws: seq<World>, steps: seq<Step>)
    ensures Run(Everything(), ws, steps) && steps == [Mutate(Adding(Old()), Told), Mutate(Adding(Other()), Told)]
    ensures |ws| == 3 && ws[2] == START.(store := Pair(Old()))
  {
    hide Everything, Run, Perform, Lawful, Next;
    Allowed();
    FirstTwo();
    ws, steps := Start();
    Unobserving(START, Adding(Old()));
    ws, steps := OneMore(ws, steps, Mutate(Adding(Old()), Told));
    Unobserving(START.(store := One()), Adding(Other()));
    ws, steps := OneMore(ws, steps, Mutate(Adding(Other()), Told));
  }

  // Two inserts, a listener, and an update that rewrites the first document and fails on the
  // second: the listener is left with the old document.
  lemma FailedUpdateLeavesListenerBehind() returns (ws: seq<World>, steps: seq<Step>)
    ensures Run(Everything(), ws, steps) && |steps| == 4 && steps[3] == Mutate(Breaking(), Told)
    ensures BreaksMidway(ws[3].store, Breaking()) && ws[4].mirror.Some? && !Current(Everything(), ws[4])
  {
    hide Everything, Run, Perform, Lawful, Next, Result, Runs, ById, Mirrors, BreaksMidway, BreaksVisibly, Same, Stored,
         Doc;
    Allowed();
    Breaks();
    Documents();
    PairShows(Old());
    Wrong(Old(), New());
    ws, steps := Filled();
    Attaches(ws[2]);
    ws, steps := OneMore(ws, steps, Attach);
    var w := ws[3];
    UnheardKeepsMirror(Everything(), w, Breaking(), Told);
    ws, steps := OneMore(ws, steps, Mutate(Breaking(), Told));
    SilentExactly(w.store, Breaking());
    assert Pair(New())[0] != Pair(Old())[0];
  }

  // With another listener already there, ours attaches after such an update; the first document
  // is then put back. The cursor sees what it saw before and says nothing: it is up to date, and
  // our listener holds a document that is no longer stored.
  lemma LateListenerMissesTheChange() returns (ws: seq<World>, steps: seq<Step>)
    ensures Run(Everything(), ws, steps) && |steps| == 6 && steps[4] == Attach && steps[5] == Mutate(Repairing(), Told)
    ensures Hears(Everything(), ws[5], Repairing(), Told) && !Behind(Everything(), ws[6])
    ensures ws[6].mirror.Some? && !Current(Everything(), ws[6])
  {
    hide Everything, Run, Perform, Lawful, Next, Result, Runs, ById, Mirrors, Same, Stored, Doc, Report, ApplyAll,
         Hears;
    Allowed();
    Breaks();
    Repairs();
    Documents();
    PairShows(Old());
    PairShows(New());
    Wrong(New(), Old());
    ws, steps := Filled();
    OtherAttaches(ws[2]);
    ws, steps := OneMore(ws, steps, OtherAttach);
    NotNotified(ws[3], Breaking());
    UnheardKeepsMirror(Everything(), ws[3], Breaking(), Told);
    ws, steps := OneMore(ws, steps, Mutate(Breaking(), Told));
    Attaches(ws[4]);
    ws, steps := OneMore(ws, steps, Attach);
    HeardOf(ws[5], Repairing());
    NoNews(ById([New(), Other()]), [Old(), Other()]);
    ws, steps := OneMore(ws, steps, Mutate(Repairing(), Told));
    EverythingRuns(Pair(Old()));
    EverythingResult(Pair(Old()));
  }

  lemma OtherAttaches(w: World)
    requires w.previous == None
    ensures Next(Everything(), w, OtherAttach)
         == w.(previous := Some(Values(w.store)), place := |w.cursors|, others := w.others + 1)
  {
    hide Everything, Result, Runs;
    EverythingRuns(w.store);
    EverythingResult(w.store);
  }

  lemma NotNotified(w: World, op: Op)
    requires !Perform(w.store, op).notified
    ensures !Hears(Everything(), w, op, Told)
  {
    hide Everything, Perform;
  }

  lemma NoNews(m: Mirror, docs: seq<Value>)
    requires Rows(docs)
    ensures ApplyAll(m, Report(docs, docs)) == m
  {
    hide IdOf, Tidy, Same, Report;
    forall i | 0 <= i < |docs|
      ensures Same(docs[i], docs[i])
    {
      LooseSelf(docs[i]);
    }
    ChangeFiresExactly(docs, docs);
  }

  /* ---------- A listener kept through a stop ---------- */

  // A listener, a stop, an insert nobody reports, a second listener that makes the cursor observe
  // again, and one more insert: the first listener never hears of the document in between.
  lemma StoppedListenerMissesAnInsert() returns (ws: seq<World>, steps: seq<Step>)
    ensures Run(Everything(), ws, steps)
    ensures steps == [Mutate(Adding(Old()), Told), Attach, Stop, Mutate(Adding(Other()), Told), OtherAttach,
                      Mutate(Adding(Later()), Told)]
    ensures !Behind(Everything(), ws[6]) && ws[6].mirror.Some? && !Current(Everything(), ws[6])
  {
    hide Everything, Run, Perform, Lawful, Next, Result, Runs, ById, Mirrors, Same, Stored, Report, ApplyAll, Hears,
         Old, Other, Later, Ahead;
    ws, steps := StoppedAndBack();
    ThirdOne();
    HeardOf(ws[5], Adding(Later()));
    SoundOverRuns(Everything(), ws, steps, 5);
    MissesSecond(ws[5]);
    ws, steps := OneMore(ws, steps, Mutate(Adding(Later()), Told));
    EverythingRuns(Three());
    EverythingResult(Three());
  }

  // The run up to the second listener: ours still holds what there was before the stop.
  lemma StoppedAndBack() returns (ws: seq<World>, steps: seq<Step>)
    ensures Run(Everything(), ws, steps)
    ensures steps == [Mutate(Adding(Old()), Told), Attach, Stop, Mutate(Adding(Other()), Told), OtherAttach]
    ensures |ws| == 6 && ws[5].store == Pair(Old()) && ws[5].previous == Some(Values(Pair(Old())))
    ensures ws[5].mirror == Some(ById(Values(One()))) && Ahead(ws[5]) == []
  {
    hide Everything, Run, Perform, Lawful, Next, Result, Runs, ById, Mirrors, Same, Stored, Report, ApplyAll, Hears,
         Old, Other;
    Allowed();
    FirstTwo();
    ws, steps := Start();
    Unobserving(START, Adding(Old()));
    ws, steps := OneMore(ws, steps, Mutate(Adding(Old()), Told));
    Attaches(ws[1]);
    ws, steps := OneMore(ws, steps, Attach);
    Stops(ws[2]);
    ws, steps := OneMore(ws, steps, Stop);
    Unobserving(ws[3], Adding(Other()));
    ws, steps := OneMore(ws, steps, Mutate(Adding(Other()), Told));
    OtherAttaches(ws[4]);
    ws, steps := OneMore(ws, steps, OtherAttach);
  }

  function Three(): Store { Pair(Old()) + [Field(Third(), Later())] }

  lemma ThirdOne()
    ensures Perform(Pair(Old()), Adding(Later())) == Effect(Three(), true, false) && Lawful(Adding(Later()))
    ensures Tidy(Later()) && IdOf(Later()) == Third()
  {
    Identities24();
    Identities24More();
    hide Perform, LocalId, First, Second, Third, Doc, IdOf, Tidy, Lawful;
    DocFacts(Third(), Null);
    assert Keys(Pair(Old())) == [First(), Second()];
    AddsDoc(Pair(Old()), Third());
  }

  lemma Stops(w: World)
    ensures Next(Everything(), w, Stop) == w.(previous := None)
  {
    hide Everything;
  }

  lemma MissesSecond(w: World)
    requires Sound(w) && w.store == Pair(Old()) && w.previous == Some(Values(Pair(Old())))
             && w.mirror == Some(ById(Values(One())))
    requires Lawful(Adding(Later())) && Hears(Everything(), w, Adding(Later()), Told)
    requires Perform(Pair(Old()), Adding(Later())).store == Three()
    ensures !Current(Everything(), Next(Everything(), w, Mutate(Adding(Later()), Told)))
  {
    hide *;
    EverythingRespects();
    EverythingResult(Three());
    LateListenerNext(Everything(), w, Adding(Later()), Told);
    SecondUnnoticed();
    SecondNotHeld();
  }

  lemma SecondUnnoticed()
    ensures Unnoticed(Values(Pair(Old())), Values(Three()), Second())
  {
    hide Same, Find, IdOf, Tidy, Rows, Old, Other, Later, First, Second, Third, ById, Stored, Mirrors, Doc;
    Documents();
    PairShows(Old());
    ThreeRows();
    var p, r := Values(Pair(Old())), Values(Three());
    assert p[1] == Other() && r[1] == Other();
    FindsRow(p, Second());
    FindsRow(r, Second());
    LooseSelf(Other());
  }

  lemma SecondNotHeld()
    ensures !HoldsAt(ById(Values(One())), Values(Three()), Second())
  {
    Documents();
    ThreeRows();
    OneHeld();
    hide Same, Find, IdOf, Tidy, Rows, Old, Other, Later, First, Second, Third, ById;
    var r := Values(Three());
    assert r[1] == Other();
    FindsRow(r, Second());
  }

  lemma OneHeld()
    ensures ById(Values(One())) == map[First() := Old()]
  {
    Documents();
    hide Doc, IdOf, Tidy, Same;
    assert Values(One()) == [Old()];
    assert [Old()][..0] == [];
    assert ById([Old()]) == ById([])[First() := Old()];
  }

  lemma ThreeRows()
    ensures Rows(Values(Three()))
  {
    Documents();
    Identities24More();
    ThirdOne();
    hide Doc, IdOf, Tidy, Same, Perform, Lawful;
    assert Values(Three()) == [Old(), Other(), Later()];
  }

  /* ---------- A cursor ahead that throws ---------- */

  function Parallel(): Value {
    Obj([Field("_id", Str(Second())),
         Field("a", Arr([Num(E.Finite(1.0)), Num(E.Finite(2.0))])),
         Field("b", Arr([Num(E.Finite(3.0))]))])
  }

  function Parts(): seq<S.Part> { [S.Part(["a"], true), S.Part(["b"], true)] }

  ghost function Sorting(): Query {
    Query(x => Some(true), docs => Q.SortDocuments(Parts(), docs), x => Some(x), 0, None)
  }

  lemma ParallelFields()
    ensures var fields := Parallel().fields;
            && Distinct(Keys(fields)) && Lookup(fields, "_id") == Some(Str(Second()))
            && Lookup(fields, "a") == Some(Arr([Num(E.Finite(1.0)), Num(E.Finite(2.0))]))
            && Lookup(fields, "b") == Some(Arr([Num(E.Finite(3.0))]))
  {
    hide Second;
    var fields := Parallel().fields;
    assert Keys(fields) == ["_id", "a", "b"];
    LookupAt(fields, 0);
    LookupAt(fields, 1);
    LookupAt(fields, 2);
  }

  lemma ParallelFacts()
    ensures Tidy(Parallel()) && IdOf(Parallel()) == Second() && !Q.Keyed(Parts(), Parallel())
    ensures Lookup(Parallel().fields, "_id") == Some(Str(Second()))
  {
    hide Q.Keyed, Lookup, Second, Keys, Distinct;
    ParallelFields();
    var fields := Parallel().fields;
    var x, y := [Num(E.Finite(1.0)), Num(E.Finite(2.0))], [Num(E.Finite(3.0))];
    Q.DifferentLengths(fields, "a", "b", x, y);
    assert forall i :: 0 <= i < |fields| ==> Tidy(fields[i].value);
  }

  function Both(): Store { One() + [Field(Second(), Parallel())] }

  lemma SortingThrows()
    ensures Runs(Sorting(), One()) && !Runs(Sorting(), Both())
  {
    ParallelFacts();
    hide Q.Keyed, Q.SortDocuments, Tidy, IdOf, Lookup, Parallel, Doc;
    var q := Sorting();
    assert Q.SortsBy(q, Parts());
    MatchingAll(Values(One()), q);
    MatchingAll(Values(Both()), q);
    Q.SortedQueryRunsExactly(q, Parts(), Values(One()));
    Q.SortedQueryRunsExactly(q, Parts(), Values(Both()));
    assert Values(Both())[1] == Parallel();
  }

  lemma AddsParallel()
    ensures Perform(One(), Adding(Parallel())) == Effect(Both(), true, false) && Lawful(Adding(Parallel()))
  {
    ParallelFacts();
    Documents();
    hide IdOf, Tidy, Same, Perform, LocalId, Lookup, Q.Keyed;
    assert Keys(One()) == [First()];
    Adds(One(), Second(), Parallel());
  }

  // A cursor that sorts by two fields observes first, then ours. The insert of a document with
  // arrays of different lengths in those fields is stored and announced, but the first cursor
  // throws and ours is never told, though its own query is fine and nothing broke midway.
  lemma ThrowingCursorHidesAnInsert() returns (ws: seq<World>, steps: seq<Step>)
    ensures Run(Everything(), ws, steps)
    ensures steps == [Mutate(Adding(Old()), Told), CursorJoins(Sorting()), Attach, Mutate(Adding(Parallel()), Told)]
    ensures Interrupted(ws[3].store, Ahead(ws[3]), Adding(Parallel()), Told)
            && !BreaksMidway(ws[3].store, Adding(Parallel()))
    ensures Runs(Everything(), ws[4].store) && ws[4].mirror.Some? && !Current(Everything(), ws[4])
  {
    hide Everything, Run, Perform, Lawful, Next, Result, Runs, ById, Mirrors, Same, Stored, Old, Parallel, Sorting,
         BreaksMidway;
    Allowed();
    FirstTwo();
    AddsParallel();
    SortingThrows();
    ws, steps := Start();
    Unobserving(START, Adding(Old()));
    ws, steps := OneMore(ws, steps, Mutate(Adding(Old()), Told));
    Joins(ws[1], Sorting());
    ws, steps := OneMore(ws, steps, CursorJoins(Sorting()));
    Attaches(ws[2]);
    ws, steps := OneMore(ws, steps, Attach);
    assert Ahead(ws[3]) == [Sorting()];
    NotAllRun(Sorting(), Both());
    UnheardKeepsMirror(Everything(), ws[3], Adding(Parallel()), Told);
    ws, steps := OneMore(ws, steps, Mutate(Adding(Parallel()), Told));
    InsertsDoNotBreak(ws[3].store, Parallel());
    EverythingRuns(Both());
    EverythingResult(Both());
    HoldsOnlyFirst();
  }

  lemma NotAllRun(p: Query, store: Store)
    requires !Runs(p, store)
    ensures !AllRun([p], store)
  {
    hide Runs;
    assert [p][0] == p;
  }

  lemma Joins(w: World, p: Query)
    ensures Next(Everything(), w, CursorJoins(p)) == w.(cursors := w.cursors + [p])
  {
    hide Everything;
  }

  lemma InsertsDoNotBreak(store: Store, d: Value)
    ensures !BreaksMidway(store, Adding(d))
  {
  }

  lemma HoldsOnlyFirst()
    ensures !Mirrors(ById(Values(One())), Values(Both()))
  {
    Documents();
    ParallelFacts();
    OneHeld();
    hide Doc, IdOf, Tidy, Same, Mirrors, Q.Keyed, Parallel, Lookup;
    assert Values(Both())[1] == Parallel();
    Unknown(ById(Values(One())), Values(Both()), 1);
  }

  /* ---------- A report cut short ---------- */

  lemma LaterUnknown()
    ensures Stored(Three()) && !Mirrors(ById(Values(Pair(Old()))), Values(Three()))
  {
    hide IdOf, Tidy, Same, Mirrors, Old, Other, Later, First, Second, Third, Stored, Perform, Lawful, Doc, ById, Values,
         Rows, LocalId;
    Identities24More();
    ThirdOne();
    PairShows(Old());
    PerformKeepsStored(Pair(Old()), Adding(Later()));
    assert Keys(Pair(Old())) == [First(), Second()];
    assert Keys(Three()) == [First(), Second(), Third()];
    KeyShows(Pair(Old()), Three(), Third());
  }

  // A mirror of one result that does not mirror another has news coming.
  lemma NewsOf(m: Mirror, p: seq<Value>, r: seq<Value>)
    requires Rows(p) && Rows(r) && Mirrors(m, p) && !Mirrors(m, r)
    ensures Details(p, r) != []
  {
    hide Rows, Mirrors, Details;
    CutExactly(m, p, r, 0);
    assert Details(p, r)[..0] == [];
    assert ApplyAll(m, []) == m;
  }

  // Another listener of the same cursor throws on the first event of an insert, before ours is
  // handed it.
  lemma CutReportLeavesListenerBehind() returns (ws: seq<World>, steps: seq<Step>)
    ensures Run(Everything(), ws, steps) && |steps| == 5 && steps[4] == Mutate(Adding(Later()), Cut(0))
    ensures Snips(Everything(), ws[4], steps[4]) && ws[5].mirror.Some? && !Current(Everything(), ws[5])
  {
    hide Everything, Run, Perform, Lawful, Next, Result, Runs, ById, Mirrors, Same, Stored, Details, Old, Other, Later;
    Allowed();
    ThirdOne();
    PairShows(Old());
    LaterUnknown();
    ws, steps := Filled();
    Attaches(ws[2]);
    ws, steps := OneMore(ws, steps, Attach);
    OthersMore(ws[3]);
    ws, steps := OneMore(ws, steps, OtherAttach);
    SoundOverRuns(Everything(), ws, steps, 4);
    CutAtOnce(ws[4]);
    ws, steps := OneMore(ws, steps, Mutate(Adding(Later()), Cut(0)));
  }

  lemma OthersMore(w: World)
    requires w.previous.Some?
    ensures Next(Everything(), w, OtherAttach) == w.(others := w.others + 1)
  {
    hide Everything;
  }

  lemma CutAtOnce(w: World)
    requires Sound(w) && w.store == Pair(Old()) && w.previous == Some(Values(Pair(Old())))
             && w.mirror == Some(ById(Values(Pair(Old()))))
    requires Ahead(w) == [] && Perform(Pair(Old()), Adding(Later())) == Effect(Three(), true, false)
             && Lawful(Adding(Later()))
    requires Stored(Three()) && !Mirrors(ById(Values(Pair(Old()))), Values(Three()))
    ensures Snipped(Everything(), w, Adding(Later()), Cut(0))
    ensures Next(Everything(), w, Mutate(Adding(Later()), Cut(0))).mirror.Some?
    ensures !Current(Everything(), Next(Everything(), w, Mutate(Adding(Later()), Cut(0))))
  {
    hide *;
    EverythingRespects();
    EverythingResult(Pair(Old()));
    EverythingResult(Three());
    UpToDateNow(w);
    ReachedWithNews(w);
    CutShortExactly(Everything(), w, Adding(Later()), Cut(0));
    SnippedKeeps(w, Adding(Later()), Cut(0));
  }

  lemma UpToDateNow(w: World)
    requires Sound(w) && w.previous == Some(Values(w.store)) && w.mirror == Some(ById(Values(w.store)))
    ensures UpToDate(Everything(), w)
  {
    hide Everything, Result, Runs, ById, Mirrors, Stored, LocalIds, Rows, LocalRows, TidyMirror, Proper, Respecting;
    EverythingRespects();
    EverythingRuns(w.store);
    EverythingResult(w.store);
    ResultLocal(Everything(), w.store);
  }

  lemma ReachedWithNews(w: World)
    requires Sound(w) && w.store == Pair(Old()) && w.previous == Some(Values(Pair(Old())))
             && w.mirror == Some(ById(Values(Pair(Old()))))
    requires Ahead(w) == [] && Perform(Pair(Old()), Adding(Later())) == Effect(Three(), true, false)
    requires Stored(Three()) && !Mirrors(ById(Values(Pair(Old()))), Values(Three()))
    ensures Snipped(Everything(), w, Adding(Later()), Cut(0)) && |News(Everything(), w, Adding(Later()))| > 0
  {
    hide Everything, Result, Runs, ById, Mirrors, Stored, Rows, Perform, Pair, Three, Old, Later, Details, Values;
    EverythingRuns(Three());
    EverythingResult(Three());
    ValuesRows(Pair(Old()));
    ValuesRows(Three());
    ByIdMirrors(Values(Pair(Old())));
    NewsOf(ById(Values(Pair(Old()))), Values(Pair(Old())), Values(Three()));
  }

  lemma SnippedKeeps(w: World, op: Op, fate: Fate)
    requires Snipped(Everything(), w, op, fate) && w.mirror.Some?
    ensures Next(Everything(), w, Mutate(op, fate)).mirror.Some?
  {
    hide Everything, Perform, Details, Result, Runs;
  }
}
