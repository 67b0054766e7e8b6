// When a cached call runs its handler and when it shares another's answer, told from the calls
// made so far (typeferry-go/runtime/server.go).
module MethodCacheHistory {
  import opened Results
  import opened EjsonValue
  import opened MethodCache
  import C = EjsonCodec
  import K = EjsonKeys

  // Step k looks the parameters up, finds nothing young enough and installs an entry for them.
  ghost predicate InstallsAt(states: seq<State>, actions: seq<Action>, k: nat, params: Value)
    requires |states| == |actions| + 1
  {
    && k < |actions| && actions[k].Lookup?
    && PcOf(states[k], actions[k].t) == Keyed(params)
    && PcOf(states[k + 1], actions[k].t).Invoking?
  }

  /* ---------- Every entry is an install ---------- */

  ghost predicate EntryOf(states: seq<State>, actions: seq<Action>, k: nat, entry: Entry)
    requires |states| == |actions| + 1
  {
    && InstallsAt(states, actions, k, entry.params)
    && entry.owner == actions[k].t && entry.created == actions[k].created
  }

  lemma StepInstalls(g: Config, s: State, a: Action)
    requires Sound(g, s) && Enabled(g, s, a)
    ensures var s' := Next(g, s, a);
            && |s.entries| <= |s'.entries| <= |s.entries| + 1
            && (forall e :: 0 <= e < |s.entries| ==> s'.entries[e].(result := None) == s.entries[e].(result := None))
            && (|s'.entries| > |s.entries| <==> a.Lookup? && PcOf(s', a.t).Invoking?)
            && (|s'.entries| > |s.entries| ==>
                  var entry := s'.entries[|s.entries|];
                  PcOf(s, a.t) == Keyed(entry.params) && entry.key == KeyOf(g, entry.params)
                  && entry.owner == a.t && entry.created == a.created)
  {
    hide KeyOf;
  }

  lemma {:induction false} EntriesInstalled(g: Config, states: seq<State>, actions: seq<Action>, n: nat, e: nat)
    returns (k: nat)
    requires Run(g, states, actions) && n < |states| && e < |states[n].entries|
    ensures k < n && EntryOf(states, actions, k, states[n].entries[e])
    decreases n
  {
    hide Next, Enabled, Sound;
    assert n > 0;
    SoundOverRuns(g, states, actions, n - 1);
    assert Enabled(g, states[n - 1], actions[n - 1]) && states[n] == Next(g, states[n - 1], actions[n - 1]);
    StepInstalls(g, states[n - 1], actions[n - 1]);
    if e < |states[n - 1].entries| {
      k := EntriesInstalled(g, states, actions, n - 1, e);
    } else {
      k := n - 1;
    }
  }

  lemma InstallStays(g: Config, states: seq<State>, actions: seq<Action>, k: nat, n: nat, params: Value)
    returns (e: nat)
    requires Run(g, states, actions) && k < n < |states| && InstallsAt(states, actions, k, params)
    ensures e < |states[n].entries|
    ensures var entry := states[n].entries[e];
            entry.params == params && entry.key == KeyOf(g, params) && entry.created == actions[k].created
  {
    hide Next, Enabled, Sound, KeyOf;
    SoundOverRuns(g, states, actions, k);
    assert Enabled(g, states[k], actions[k]) && states[k + 1] == Next(g, states[k], actions[k]);
    StepInstalls(g, states[k], actions[k]);
    e := |states[k].entries|;
    CompletedOnce(g, states, actions, k + 1, n, e);
  }

  /* ---------- Hits ---------- */

  // An earlier install that still answers for these parameters when they are looked up.
  ghost predicate Answers(g: Config, states: seq<State>, actions: seq<Action>, k: nat, n: nat, params: Value)
    requires |states| == |actions| + 1 && n < |actions| && actions[n].Lookup?
  {
    && k < n
    && (exists other :: InstallsAt(states, actions, k, other) && K.Alike(g.codec, other, params))
    && actions[k].Lookup? && actions[n].seen - actions[k].created < g.maxAge
  }

  // A call waits for another's answer exactly if an earlier call with parameters alike installed an
  // entry less than MaxAge ago; otherwise it runs the handler.
  lemma HitExactly(g: Config, states: seq<State>, actions: seq<Action>, n: nat, params: Value)
    requires Run(g, states, actions) && n < |actions| && actions[n].Lookup?
    requires PcOf(states[n], actions[n].t) == Keyed(params)
    ensures var pc := PcOf(states[n + 1], actions[n].t);
            && (pc.Waiting? <==> exists k: nat :: Answers(g, states, actions, k, n, params))
            && (pc.Waiting? || pc.Invoking?) && pc.params == params
  {
    hide KeyOf, K.Alike, Sound;
    var s, a := states[n], actions[n];
    SoundOverRuns(g, states, actions, n);
    assert Enabled(g, s, a) && states[n + 1] == Next(g, s, a);
    var key := KeyOf(g, params);
    LookupBranches(g, s, a, params);
    hide Next, Enabled;
    if IsHit(g, s.entries, s.cache, key, a.seen) {
      var e := s.cache[key];
      var k := EntriesInstalled(g, states, actions, n, e);
      CachedKey(g, s, key);
      AlikeKeys(g, s.entries[e].params, params);
      assert Answers(g, states, actions, k, n, params);
    }
    if k: nat :| Answers(g, states, actions, k, n, params) {
      var other :| InstallsAt(states, actions, k, other) && K.Alike(g.codec, other, params);
      AlikeKeys(g, other, params);
      var e := InstallStays(g, states, actions, k, n, other);
      LatestIsYoung(g, s, e, a.seen);
    }
  }

  lemma LookupBranches(g: Config, s: State, a: Action, params: Value)
    requires Enabled(g, s, a) && a.Lookup? && PcOf(s, a.t) == Keyed(params)
    ensures var pc := PcOf(Next(g, s, a), a.t);
            && (pc.Waiting? <==> IsHit(g, s.entries, s.cache, KeyOf(g, params), a.seen))
            && (pc.Waiting? || pc.Invoking?) && pc.params == params
  {
    hide KeyOf;
  }

  lemma CachedKey(g: Config, s: State, key: Key)
    requires Sound(g, s) && key in s.cache
    ensures s.cache[key] < |s.entries| && s.entries[s.cache[key]].key == key
    ensures KeyOf(g, s.entries[s.cache[key]].params) == key
  {
    hide KeyOf;
  }

  lemma AlikeKeys(g: Config, v: Value, w: Value)
    ensures KeyOf(g, v) == KeyOf(g, w) <==> K.Alike(g.codec, v, w)
  {
    hide C.Stringify, K.Alike;
    K.KeysCollideExactly(g.codec, v, w);
  }

  // If any entry of a key is young, the one the map points at is.
  lemma LatestIsYoung(g: Config, s: State, e: nat, seen: int)
    requires Sound(g, s) && e < |s.entries| && seen - s.entries[e].created < g.maxAge && g.maxAge > 0
    ensures IsHit(g, s.entries, s.cache, s.entries[e].key, seen)
  {
    hide KeyOf;
  }

  /* ---------- Answers ---------- */

  ghost predicate CompletedAt(states: seq<State>, actions: seq<Action>, m: nat, e: nat, answer: CallResult)
    requires |states| == |actions| + 1
  {
    && m < |actions| && actions[m].Complete? && actions[m].answer == answer
    && PcOf(states[m], actions[m].t).Invoking? && PcOf(states[m], actions[m].t).entry == e
  }

  // A result is what the handler of the installing call ended in.
  lemma {:induction false} ResultsAreReturned(g: Config, states: seq<State>, actions: seq<Action>, n: nat, e: nat)
    returns (m: nat)
    requires Run(g, states, actions) && n < |states| && e < |states[n].entries| && states[n].entries[e].result.Some?
    ensures m < n && CompletedAt(states, actions, m, e, states[n].entries[e].result.value)
    ensures actions[m].t == states[n].entries[e].owner
    decreases n
  {
    hide Next, Enabled, Sound;
    assert n > 0;
    var s, a := states[n - 1], actions[n - 1];
    SoundOverRuns(g, states, actions, n - 1);
    assert Enabled(g, s, a) && states[n] == Next(g, s, a);
    StepInstalls(g, s, a);
    if e < |s.entries| && s.entries[e].result.Some? {
      StepRewrites(g, s, a, e);
      m := ResultsAreReturned(g, states, actions, n - 1, e);
    } else {
      m := n - 1;
      CompletingStep(g, s, a, e);
    }
  }

  lemma CompletingStep(g: Config, s: State, a: Action, e: nat)
    requires Sound(g, s) && Enabled(g, s, a) && e < |Next(g, s, a).entries| && Next(g, s, a).entries[e].result.Some?
    requires e < |s.entries| ==> s.entries[e].result.None?
    ensures a.Complete? && Next(g, s, a).entries[e].result == Some(a.answer) && a.t == Next(g, s, a).entries[e].owner
    ensures PcOf(s, a.t).Invoking? && PcOf(s, a.t).entry == e
  {
    hide KeyOf;
  }

  // Every call that shares an answer shares what a handler returned, in a call that installed the
  // entry for parameters alike.
  lemma HitsAreReturned(g: Config, states: seq<State>, actions: seq<Action>, n: nat, t: nat) returns (k: nat, m: nat)
    requires Run(g, states, actions) && n < |states| && PcOf(states[n], t).Hit?
    ensures k < n && m < n && k < |actions| && m < |actions| && actions[k].Lookup?
    ensures var pc := PcOf(states[n], t);
            && CompletedAt(states, actions, m, pc.entry, pc.answer) && actions[m].t == actions[k].t
            && exists params :: InstallsAt(states, actions, k, params) && K.Alike(g.codec, params, pc.params)
  {
    hide Next, Enabled, Sound, K.Alike;
    HitsAnswerAlikeParameters(g, states, actions, n, t);
    var e := PcOf(states[n], t).entry;
    k := EntriesInstalled(g, states, actions, n, e);
    m := ResultsAreReturned(g, states, actions, n, e);
    assert InstallsAt(states, actions, k, states[n].entries[e].params);
  }
}
