// One cursor over a whole run of its collection: mutations, other cursors observing before and
// after it, other listeners coming and going, and one listener that keeps the documents by
// identity.
module LiveQueryRuns {
  import opened Results
  import opened Fields
  import opened ValueOrder
  import opened DocumentStore
  import opened LiveQuery
  import opened LocalCollection

  // `cursors` are the other observers in order, the first `place` of them ahead of ours while it
  // observes. `previous` is our cursor's last result while it observes, `others` counts its
  // listeners besides ours, `mirror` is what ours holds while it is registered.
  datatype World = World(
    store: Store,
    cursors: seq<Query>,
    place: nat,
    previous: Option<seq<Value>>,
    others: nat,
    mirror: Option<Mirror>)

  // What the callbacks of a mutation do to our cursor: none throws before or while it reports;
  // one that runs before it is told throws, a listener of the collection or of a cursor ahead; or
  // one of its own listeners throws when ours has been handed so many events.
  datatype Fate = Told | Lost | Cut(handed: nat)

  datatype Step =
    | Mutate(op: Op, fate: Fate)
    | Attach
    | Detach
    | OtherAttach
    | OtherDetach
    | Stop
    | CursorJoins(query: Query)
    | CursorLeaves(i: nat)

  function Ahead(w: World): seq<Query> {
    if w.place <= |w.cursors| then w.cursors[..w.place] else w.cursors
  }

  predicate AllRun(cursors: seq<Query>, store: Store) {
    forall i :: 0 <= i < |cursors| ==> Runs(cursors[i], store)
  }

  // Our cursor is told of the mutation and its query does not throw.
  predicate Reached(q: Query, w: World, op: Op, fate: Fate) {
    var e := Perform(w.store, op);
    e.notified && w.previous.Some? && !fate.Lost? && AllRun(Ahead(w), e.store) && Runs(q, e.store)
  }

  function News(q: Query, w: World, op: Op): seq<Event>
    requires w.previous.Some?
  {
    Details(w.previous.value, Result(q, Perform(w.store, op).store))
  }

  // One of its own listeners throws while it reports.
  predicate Snipped(q: Query, w: World, op: Op, fate: Fate) {
    Reached(q, w, op, fate) && fate.Cut? && News(q, w, op) != []
  }

  predicate Hears(q: Query, w: World, op: Op, fate: Fate) {
    Reached(q, w, op, fate) && !Snipped(q, w, op, fate)
  }

  // The events our listener was handed by then.
  function Handed(q: Query, w: World, op: Op, fate: Fate): seq<Event>
    requires Snipped(q, w, op, fate)
  {
    var news := News(q, w, op);
    if fate.handed < |news| then news[..fate.handed] else news
  }

  function Observe(q: Query, w: World): World {
    if w.previous.Some? || !Runs(q, w.store) then w
    else w.(previous := Some(Result(q, w.store)), place := |w.cursors|)
  }

  function Release(w: World): World {
    if w.others == 0 && w.mirror == None then w.(previous := None) else w
  }

  ghost predicate Enabled(w: World, step: Step) {
    match step
    case Mutate(op, _) => Lawful(op)
    case Attach => w.mirror == None
    case Detach => w.mirror.Some?
    case OtherAttach => true
    case OtherDetach => w.others > 0
    case Stop => true
    case CursorJoins(p) => Runs(p, w.store)
    case CursorLeaves(i) => i < |w.cursors|
  }

  function Mutated(q: Query, w: World, op: Op, fate: Fate): World {
    var after := Perform(w.store, op).store;
    if Snipped(q, w, op, fate) then
      w.(store := after,
         mirror := if w.mirror == None then None else Some(ApplyAll(w.mirror.value, Handed(q, w, op, fate))))
    else if !Hears(q, w, op, fate) then w.(store := after)
    else
      var current := Result(q, after);
      w.(store := after, previous := Some(current),
         mirror := if w.mirror == None then None else Some(ApplyAll(w.mirror.value, Report(w.previous.value, current))))
  }

  function Next(q: Query, w: World, step: Step): World {
    match step
    case Mutate(op, fate) => Mutated(q, w, op, fate)
    // A query that throws leaves the listener registered, but without a result to start from.
    case Attach =>
      if Runs(q, w.store) then Observe(q, w).(mirror := Some(ById(Result(q, w.store)))) else w.(others := w.others + 1)
    case Detach => Release(w.(mirror := None))
    case OtherAttach => Observe(q, w).(others := w.others + 1)
    case OtherDetach => Release(w.(others := if w.others == 0 then 0 else w.others - 1))
    // Listeners stay registered, and are fed again once the cursor observes again.
    case Stop => w.(previous := None)
    case CursorJoins(p) => w.(cursors := w.cursors + [p])
    case CursorLeaves(i) =>
      if i >= |w.cursors| then w
      else w.(cursors := w.cursors[..i] + w.cursors[i + 1..], place := if i < w.place then w.place - 1 else w.place)
  }

  const START := World([], [], 0, None, 0, None)

  ghost predicate Run(q: Query, ws: seq<World>, steps: seq<Step>) {
    && Proper(q)
    && |ws| == |steps| + 1
    && ws[0] == START
    && forall i :: 0 <= i < |steps| ==> Enabled(ws[i], steps[i]) && ws[i + 1] == Next(q, ws[i], steps[i])
  }

  /* ---------- What every state keeps ---------- */

  ghost predicate LocalRows(docs: seq<Value>) {
    forall i :: 0 <= i < |docs| ==> LocalId(Str(IdOf(docs[i])))
  }

  ghost predicate Sound(w: World) {
    && Stored(w.store) && LocalIds(w.store)
    && (w.previous.Some? ==> Rows(w.previous.value) && LocalRows(w.previous.value) && w.place <= |w.cursors|)
    && (w.mirror.Some? ==> TidyMirror(w.mirror.value))
  }

  // The listener holds what re-running the query gives.
  ghost predicate Current(q: Query, w: World) {
    w.mirror.Some? && Runs(q, w.store) && Mirrors(w.mirror.value, Result(q, w.store))
  }

  // The listener holds what the cursor last saw.
  ghost predicate InStep(w: World) {
    w.mirror.Some? && w.previous.Some? && Mirrors(w.mirror.value, w.previous.value)
  }

  // The cursor remembers something else than re-running the query gives.
  predicate Behind(q: Query, w: World) {
    w.previous.Some? && (!Runs(q, w.store) || w.previous.value != Result(q, w.store))
  }

  lemma ResultLocal(q: Query, store: Store)
    requires Proper(q) && Stored(store) && LocalIds(store)
    ensures Rows(Result(q, store)) && LocalRows(Result(q, store))
    ensures Mirrors(ById(Result(q, store)), Result(q, store)) && TidyMirror(ById(Result(q, store)))
  {
    hide LocalId, Tidy, IdOf, Equal, Mirrors, ById, Rows;
    ResultRows(q, store);
    var r := Result(q, store);
    ByIdMirrors(r);
    assert TidyMirror(ById(r)) by { MirrorsTidy(ById(r), r); }
    forall i | 0 <= i < |r|
      ensures LocalId(Str(IdOf(r[i])))
    {
      var k := ResultFrom(q, store, i);
      assert LocalId(Str(store[k].key));
    }
  }

  lemma MirrorsTidy(m: Mirror, docs: seq<Value>)
    requires Mirrors(m, docs)
    ensures TidyMirror(m)
  {
  }

  lemma StepKeepsSound(q: Query, w: World, step: Step)
    requires Proper(q) && Sound(w) && Enabled(w, step)
    ensures Sound(Next(q, w, step))
  {
    hide Stored, LocalIds, Rows, LocalRows, TidyMirror, Result, Runs, Proper, Perform, Report, ById, Mirrors, Lawful;
    ResultLocal(q, w.store);
    if step.Mutate? {
      var after := Perform(w.store, step.op).store;
      PerformKeepsStored(w.store, step.op);
      PerformKeepsLocalIds(w.store, step.op);
      ResultLocal(q, after);
      if w.mirror.Some? && w.previous.Some? {
        ReportAppliesExactly(w.mirror.value, w.previous.value, Result(q, after));
        if Snipped(q, w, step.op, step.fate) {
          HandedTidy(q, w, step.op, step.fate);
        }
      }
    }
  }

  lemma HandedTidy(q: Query, w: World, op: Op, fate: Fate)
    requires w.mirror.Some? && TidyMirror(w.mirror.value) && Snipped(q, w, op, fate)
    requires Rows(w.previous.value) && Rows(Result(q, Perform(w.store, op).store))
    ensures TidyMirror(ApplyAll(w.mirror.value, Handed(q, w, op, fate)))
  {
    hide Rows, TidyMirror, Result, Runs, Perform, ApplyAll, Details, TidyEvent, Unnoticed;
    DetailsNamed(w.previous.value, Result(q, Perform(w.store, op).store));
    ApplyTidy(w.mirror.value, Handed(q, w, op, fate));
  }

  lemma {:induction false} SoundOverRuns(q: Query, ws: seq<World>, steps: seq<Step>, n: nat)
    requires Run(q, ws, steps) && n < |ws|
    ensures Sound(ws[n])
  {
    hide Next, Proper, Enabled;
    if n > 0 {
      SoundOverRuns(q, ws, steps, n - 1);
      StepKeepsSound(q, ws[n - 1], steps[n - 1]);
    }
  }

  ghost predicate Snips(q: Query, w: World, step: Step) { step.Mutate? && Snipped(q, w, step.op, step.fate) }

  // A listener in step stays in step for as long as its cursor observes and is not cut short.
  lemma StepKeepsInStep(q: Query, w: World, step: Step)
    requires Proper(q) && Sound(w) && Enabled(w, step) && InStep(w)
    requires Next(q, w, step).mirror.Some? && Next(q, w, step).previous.Some? && !Snips(q, w, step)
    ensures InStep(Next(q, w, step))
  {
    hide Stored, LocalIds, Rows, LocalRows, TidyMirror, Result, Runs, Proper, Perform, Report, ById, Mirrors, Lawful;
    if step.Mutate? {
      var after := Perform(w.store, step.op).store;
      PerformKeepsStored(w.store, step.op);
      PerformKeepsLocalIds(w.store, step.op);
      ResultLocal(q, after);
      ReportApplies(w.mirror.value, w.previous.value, Result(q, after));
    }
  }

  // So the next mutation the cursor hears of makes it current, even if it fell behind.
  lemma NotificationResyncs(q: Query, w: World, op: Op, fate: Fate)
    requires Proper(q) && Sound(w) && InStep(w) && Lawful(op) && Hears(q, w, op, fate)
    ensures var after := Next(q, w, Mutate(op, fate)); InStep(after) && Current(q, after) && !Behind(q, after)
  {
    hide Stored, LocalIds, Rows, LocalRows, TidyMirror, Result, Runs, Proper, Perform, Report, ById, Mirrors, Lawful;
    StepKeepsInStep(q, w, Mutate(op, fate));
  }

  // A listener in step is current exactly when the query runs and the cursor's last result
  // holds, under each identity, what it gives.
  lemma InStepCurrentExactly(q: Query, w: World)
    requires Proper(q) && Sound(w) && InStep(w)
    ensures Current(q, w) <==> Runs(q, w.store) && forall id :: Unnoticed(w.previous.value, Result(q, w.store), id)
  {
    hide Stored, LocalIds, Rows, LocalRows, Result, Runs, Proper, Mirrors, ById;
    ResultLocal(q, w.store);
    MirrorsBoth(w.mirror.value, w.previous.value, Result(q, w.store));
  }

  // A mirror of one result mirrors another exactly when the two agree under each identity.
  lemma MirrorsBoth(m: Mirror, p: seq<Value>, r: seq<Value>)
    requires Rows(p) && Rows(r) && TidyMirror(m) && Mirrors(m, p)
    ensures Mirrors(m, r) <==> forall id :: Unnoticed(p, r, id)
  {
    hide Rows, Find, Equal, Tidy, Mirrors;
    MirrorsEverywhere(m, p);
    MirrorsEverywhere(m, r);
    forall id
      ensures HoldsAt(m, r, id) <==> Unnoticed(p, r, id)
    {
      assert HoldsAt(m, p, id);
      FindsRow(p, id);
      FindsRow(r, id);
      if id in m && Find(r, id).Some? {
        LooseIsAnEquivalence(m[id], Find(p, id).value, Find(r, id).value);
        LooseIsAnEquivalence(Find(p, id).value, m[id], Find(r, id).value);
      }
    }
  }

  /* ---------- How a listener gets off track ---------- */

  // The store changes and our cursor does not hear of it.
  ghost predicate Missed(q: Query, w: World, step: Step) {
    step.Mutate? && Perform(w.store, step.op).store != w.store && !Hears(q, w, step.op, step.fate)
  }

  // The cursor hears of no mutation after step j and before step n.
  ghost predicate Deaf(q: Query, ws: seq<World>, steps: seq<Step>, j: nat, n: nat)
    requires n < |ws| == |steps| + 1
  {
    forall k :: j < k < n && steps[k].Mutate? ==> !Hears(q, ws[k], steps[k].op, steps[k].fate)
  }

  // The cursor observes in no state after step j up to state n.
  ghost predicate Unobserved(ws: seq<World>, j: nat, n: nat)
    requires n < |ws|
  {
    forall k :: j < k <= n ==> ws[k].previous == None
  }

  lemma SameStoreSameRun(q: Query, w: World, step: Step)
    requires Next(q, w, step).store == w.store && Behind(q, Next(q, w, step)) && !step.Mutate?
    ensures Behind(q, w)
  {
    hide Result, Runs, ById;
  }

  lemma {:induction false} BehindHasACause(q: Query, ws: seq<World>, steps: seq<Step>, n: nat) returns (j: nat)
    requires Run(q, ws, steps) && n < |ws| && Behind(q, ws[n])
    ensures j < n && Missed(q, ws[j], steps[j]) && Deaf(q, ws, steps, j, n)
  {
    hide Perform, Result, Runs, Report, Proper, Lawful, ById, AllRun;
    assert n > 0;
    var w, step := ws[n - 1], steps[n - 1];
    assert ws[n] == Next(q, w, step);
    if Behind(q, w) {
      j := BehindHasACause(q, ws, steps, n - 1);
    } else {
      j := n - 1;
      if !step.Mutate? {
        SameStoreSameRun(q, w, step);
      }
    }
  }

  lemma {:induction false} UnfedHasACause(q: Query, ws: seq<World>, steps: seq<Step>, n: nat) returns (j: nat)
    requires Run(q, ws, steps) && n < |ws| && ws[n].mirror.Some? && ws[n].previous == None
    ensures j < n && steps[j].Stop? && Unobserved(ws, j, n)
  {
    hide Perform, Result, Runs, Report, Proper, Lawful, ById, AllRun;
    assert n > 0;
    var w, step := ws[n - 1], steps[n - 1];
    assert ws[n] == Next(q, w, step) && Enabled(w, step);
    if w.previous == None {
      j := UnfedHasACause(q, ws, steps, n - 1);
    } else {
      j := n - 1;
    }
  }

  // Our listener attaches to a cursor that is behind, or the cursor observes again while our
  // listener, kept since a stop, is not current.
  ghost predicate JoinsWrong(q: Query, w: World, step: Step) {
    || (step.Attach? && Behind(q, w))
    || (step.OtherAttach? && w.mirror.Some? && w.previous == None && !Current(q, w))
  }

  lemma {:induction false} OutOfStepHasACause(q: Query, ws: seq<World>, steps: seq<Step>, n: nat) returns (i: nat)
    requires Run(q, ws, steps) && n < |ws| && ws[n].mirror.Some? && ws[n].previous.Some? && !InStep(ws[n])
    ensures i < n && (JoinsWrong(q, ws[i], steps[i]) || Snips(q, ws[i], steps[i]))
    ensures forall k :: i < k <= n ==> ws[k].mirror.Some?
  {
    hide Perform, Result, Runs, Report, Proper, Lawful, ById, Mirrors, ApplyAll, AllRun, Sound, Details;
    assert n > 0;
    var w, step := ws[n - 1], steps[n - 1];
    assert ws[n] == Next(q, w, step) && Enabled(w, step);
    SoundOverRuns(q, ws, steps, n - 1);
    if w.mirror.Some? && w.previous.Some? {
      if InStep(w) && !Snips(q, w, step) {
        StepKeepsInStep(q, w, step);
        assert false;
      }
      if Snips(q, w, step) {
        i := n - 1;
      } else {
        i := OutOfStepHasACause(q, ws, steps, n - 1);
      }
    } else {
      i := n - 1;
      FreshMirror(q, w);
    }
  }

  lemma FreshMirror(q: Query, w: World)
    requires Proper(q) && Sound(w)
    ensures Mirrors(ById(Result(q, w.store)), Result(q, w.store))
  {
    hide Mirrors, ById, Result, Proper;
    ResultLocal(q, w.store);
  }

  // Off track in state i: a change our cursor did not hear of, and nothing heard since; or a
  // stop, and no observation since.
  ghost predicate OffTrack(q: Query, ws: seq<World>, steps: seq<Step>, i: nat)
    requires i < |ws| == |steps| + 1
  {
    || (exists j :: 0 <= j < i && Missed(q, ws[j], steps[j]) && Deaf(q, ws, steps, j, i))
    || (exists j :: 0 <= j < i && steps[j].Stop? && Unobserved(ws, j, i))
  }

  // Our listener is registered in every state after step i up to state n.
  ghost predicate Kept(ws: seq<World>, i: nat, n: nat)
    requires n < |ws|
  {
    forall k :: i < k <= n ==> ws[k].mirror.Some?
  }

  // After any run the listener holds the result of re-running the query, unless it is off track
  // now, or was when it attached or when its cursor observed again, or a report to it was cut
  // short since.
  lemma ViewIsCurrent(q: Query, ws: seq<World>, steps: seq<Step>, n: nat)
    requires Run(q, ws, steps) && n < |ws| && ws[n].mirror.Some? && Runs(q, ws[n].store) && !Current(q, ws[n])
    ensures || (exists i :: 0 <= i <= n && OffTrack(q, ws, steps, i)
                            && (i == n || ((steps[i].Attach? || steps[i].OtherAttach?) && Kept(ws, i, n))))
            || (exists i :: 0 <= i < n && Snips(q, ws[i], steps[i]) && Kept(ws, i, n))
  {
    hide Next, Proper, Missed, Deaf, Unobserved, Mirrors, Result, Runs, Enabled, Snips;
    if ws[n].previous == None {
      var j := UnfedHasACause(q, ws, steps, n);
      assert OffTrack(q, ws, steps, n);
    } else if InStep(ws[n]) {
      var j := BehindHasACause(q, ws, steps, n);
      assert OffTrack(q, ws, steps, n);
    } else {
      var i := OutOfStepHasACause(q, ws, steps, n);
      if Snips(q, ws[i], steps[i]) {
        assert Kept(ws, i, n);
      } else if steps[i].Attach? {
        var j := BehindHasACause(q, ws, steps, i);
        assert OffTrack(q, ws, steps, i) && Kept(ws, i, n);
      } else {
        var j := UnfedHasACause(q, ws, steps, i);
        assert OffTrack(q, ws, steps, i) && Kept(ws, i, n);
      }
    }
  }
}
