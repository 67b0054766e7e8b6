// When a cursor observes, which cursors are told before it and which listeners it has, told from
// the steps so far (typeferry-ts/src/minimongo/cursor.ts and local-collection.ts).
module LiveQueryHistory {
  import opened Results
  import opened LiveQuery
  import opened LocalCollection
  import opened LiveQueryRuns

  /* ---------- Observing ---------- */

  // A listener comes to a cursor that does not observe, and the query runs.
  ghost predicate Starts(q: Query, w: World, step: Step) {
    (step.Attach? || step.OtherAttach?) && w.previous == None && Runs(q, w.store)
  }

  // The cursor is stopped, or loses its last listener.
  ghost predicate Ends(w: World, step: Step) {
    || step.Stop?
    || (step.Detach? && w.others == 0)
    || (step.OtherDetach? && w.others == 1 && w.mirror == None)
  }

  lemma StepObserves(q: Query, w: World, step: Step)
    requires Enabled(w, step)
    ensures Next(q, w, step).previous.Some? <==> Starts(q, w, step) || (w.previous.Some? && !Ends(w, step))
  {
    hide Result, Runs, Perform, Report, ById, ApplyAll, Details, AllRun;
  }

  ghost predicate ObservingSince(q: Query, ws: seq<World>, steps: seq<Step>, k: nat, n: nat)
    requires |ws| == |steps| + 1
  {
    k < n <= |steps| && Starts(q, ws[k], steps[k]) && forall m :: k < m < n ==> !Ends(ws[m], steps[m])
  }

  // A cursor observes exactly if a listener has made it start and it has neither been stopped nor
  // lost its last listener since.
  lemma {:induction false} ObservesExactly(q: Query, ws: seq<World>, steps: seq<Step>, n: nat)
    requires Run(q, ws, steps) && n < |ws|
    ensures ws[n].previous.Some? <==> exists k: nat :: ObservingSince(q, ws, steps, k, n)
  {
    hide Next, Enabled, Proper, Starts, Ends;
    if n > 0 {
      var m := n - 1;
      ObservesExactly(q, ws, steps, m);
      assert Enabled(ws[m], steps[m]) && ws[n] == Next(q, ws[m], steps[m]);
      StepObserves(q, ws[m], steps[m]);
      if Starts(q, ws[m], steps[m]) {
        assert ObservingSince(q, ws, steps, m, n);
      } else if k: nat :| ObservingSince(q, ws, steps, k, n) {
        assert ObservingSince(q, ws, steps, k, m);
      } else if k: nat :| ObservingSince(q, ws, steps, k, m) {
        assert Ends(ws[m], steps[m]) || ObservingSince(q, ws, steps, k, n);
      }
    }
  }

  /* ---------- Cursors ahead ---------- */

  // The list without its i-th entry.
  function Removed(cursors: seq<Query>, i: nat): seq<Query> {
    if i < |cursors| then cursors[..i] + cursors[i + 1..] else cursors
  }

  // A cursor that starts to observe comes after all that observe then; from then on it is told
  // after exactly those of them that have not left, in their order.
  lemma StepAhead(q: Query, w: World, step: Step)
    requires Enabled(w, step) && (w.previous.Some? ==> w.place <= |w.cursors|)
    ensures Starts(q, w, step) ==> Ahead(Next(q, w, step)) == w.cursors
    ensures w.previous.Some? ==>
              Ahead(Next(q, w, step)) == if step.CursorLeaves? then Removed(Ahead(w), step.i) else Ahead(w)
    ensures Next(q, w, step).cursors
            == match step
               case CursorJoins(p) => w.cursors + [p]
               case CursorLeaves(i) => Removed(w.cursors, i)
               case _ => w.cursors
  {
    hide Result, Runs, Perform, Report, ById, ApplyAll, Details, AllRun;
    if step.CursorLeaves? && w.previous.Some? {
      var i, after := step.i, Removed(w.cursors, step.i);
      if i < w.place {
        assert after[..w.place - 1] == w.cursors[..i] + w.cursors[i + 1..w.place];
        assert Removed(Ahead(w), i) == w.cursors[..i] + w.cursors[i + 1..w.place];
      } else {
        assert after[..w.place] == w.cursors[..w.place];
      }
    }
  }

  // What is left of a list after the departures of the steps from k up to n.
  function Remaining(cursors: seq<Query>, steps: seq<Step>, k: nat, n: nat): seq<Query>
    requires k <= n <= |steps|
    decreases n
  {
    if k == n then cursors
    else
      var before := Remaining(cursors, steps, k, n - 1);
      if steps[n - 1].CursorLeaves? then Removed(before, steps[n - 1].i) else before
  }

  lemma {:induction false} AheadExactly(q: Query, ws: seq<World>, steps: seq<Step>, k: nat, n: nat)
    requires Run(q, ws, steps) && n < |ws| && ObservingSince(q, ws, steps, k, n)
    ensures Ahead(ws[n]) == Remaining(ws[k].cursors, steps, k + 1, n)
    decreases n
  {
    hide Next, Enabled, Proper, Ahead, Removed, Sound;
    var m := n - 1;
    assert Enabled(ws[m], steps[m]) && ws[n] == Next(q, ws[m], steps[m]);
    SoundOverRuns(q, ws, steps, m);
    PlaceInRange(ws[m]);
    StepAhead(q, ws[m], steps[m]);
    if k < m {
      assert ObservingSince(q, ws, steps, k, m);
      ObservesExactly(q, ws, steps, m);
      AheadExactly(q, ws, steps, k, m);
    }
  }

  lemma PlaceInRange(w: World)
    requires Sound(w)
    ensures w.previous.Some? ==> w.place <= |w.cursors|
  {
  }

  /* ---------- Listeners ---------- */

  ghost predicate ListeningSince(q: Query, ws: seq<World>, steps: seq<Step>, k: nat, n: nat)
    requires |ws| == |steps| + 1
  {
    && k < n <= |steps| && steps[k].Attach? && Runs(q, ws[k].store)
    && forall m :: k < m < n ==> !steps[m].Detach?
  }

  lemma StepListens(q: Query, w: World, step: Step)
    requires Enabled(w, step)
    ensures Next(q, w, step).mirror.Some?
       <==> (step.Attach? && Runs(q, w.store)) || (w.mirror.Some? && !step.Detach?)
    ensures Next(q, w, step).others
            == w.others + (if step.OtherAttach? || (step.Attach? && !Runs(q, w.store)) then 1 else 0)
               - (if step.OtherDetach? then 1 else 0)
    ensures step.Attach? && Runs(q, w.store) ==> Next(q, w, step).mirror == Some(ById(Result(q, w.store)))
  {
    hide Result, Runs, Perform, Report, ById, ApplyAll, Details, AllRun;
  }

  // Our listener is registered exactly if it attached, to a query that ran, and has not detached
  // since: no stop takes it away.
  lemma {:induction false} ListensExactly(q: Query, ws: seq<World>, steps: seq<Step>, n: nat)
    requires Run(q, ws, steps) && n < |ws|
    ensures ws[n].mirror.Some? <==> exists k: nat :: ListeningSince(q, ws, steps, k, n)
  {
    hide Next, Enabled, Proper, Runs;
    if n > 0 {
      var m := n - 1;
      ListensExactly(q, ws, steps, m);
      assert Enabled(ws[m], steps[m]) && ws[n] == Next(q, ws[m], steps[m]);
      StepListens(q, ws[m], steps[m]);
      if steps[m].Attach? && Runs(q, ws[m].store) {
        assert ListeningSince(q, ws, steps, m, n);
      } else if k: nat :| ListeningSince(q, ws, steps, k, n) {
        assert ListeningSince(q, ws, steps, k, m);
      } else if k: nat :| ListeningSince(q, ws, steps, k, m) {
        assert steps[m].Detach? || ListeningSince(q, ws, steps, k, n);
      }
    }
  }
}
