// The single-flight, time-bounded result cache of Server.Call (typeferry-go/runtime/server.go).
//
// Each section that holds the method's mutex is one step; handlers and waiters run between steps.
module MethodCache {
  import opened Results
  import opened Fields
  import opened EjsonValue
  import C = EjsonCodec
  import RT = EjsonRoundTrip
  import T = EjsonTheorems
  import K = EjsonKeys

  type Key = seq<C.Token>

  // What a handler call ends in; a panic is already turned into a failure.
  datatype CallResult = Returned(value: Value) | Failed(code: nat)

  // A cache entry; `ready` is closed when the result is there.
  datatype Entry = Entry(key: Key, params: Value, created: int, owner: nat, result: Option<CallResult>)

  datatype Pc =
    | Idle
    | Keyed(params: Value)                              // parameters transformed, key computed
    | Waiting(params: Value, entry: nat, since: int)    // found an entry, waits for it to be ready
    | Invoking(params: Value, entry: nat)               // installed an entry, runs the handler
    | Hit(params: Value, entry: nat, answer: CallResult)
    | Ran(params: Value, entry: nat, answer: CallResult)
    | Cancelled

  datatype State = State(entries: seq<Entry>, cache: map<Key, nat>, threads: map<nat, Pc>, clock: int)

  datatype Config = Config(codec: C.Codec, maxAge: int)

  datatype Action =
    | Start(t: nat, params: Value)
    | Lookup(t: nat, seen: int, created: int)   // the two clock readings of the section
    | Complete(t: nat, answer: CallResult)
    | Wake(t: nat)
    | Cancel(t: nat)
    | Leave(t: nat)

  function Init(clock: int): State {
    State([], map[], map[], clock)
  }

  function PcOf(s: State, t: nat): Pc {
    if t in s.threads then s.threads[t] else Idle
  }

  function KeyOf(g: Config, params: Value): Key {
    C.Stringify(g.codec, params, false)
  }

  predicate IsHit(g: Config, entries: seq<Entry>, cache: map<Key, nat>, key: Key, seen: int) {
    key in cache && cache[key] < |entries| && seen - entries[cache[key]].created < g.maxAge
  }

  predicate Enabled(g: Config, s: State, a: Action) {
    match a
    case Start(t, _) => PcOf(s, t).Idle?
    case Lookup(t, seen, created) => PcOf(s, t).Keyed? && s.clock <= seen <= created
    case Complete(t, _) => PcOf(s, t).Invoking? && PcOf(s, t).entry < |s.entries|
    case Wake(t) => PcOf(s, t).Waiting? && PcOf(s, t).entry < |s.entries| && s.entries[PcOf(s, t).entry].result.Some?
    case Cancel(t) => PcOf(s, t).Waiting?
    case Leave(t) => PcOf(s, t).Hit? || PcOf(s, t).Ran? || PcOf(s, t).Cancelled?
  }

  function Goto(s: State, t: nat, pc: Pc): State {
    s.(threads := s.threads[t := pc])
  }

  function Next(g: Config, s: State, a: Action): State
    requires Enabled(g, s, a)
  {
    match a
    case Start(t, params) => Goto(s, t, Keyed(params))
    case Lookup(t, seen, created) =>
      var params := PcOf(s, t).params;
      var key := KeyOf(g, params);
      if IsHit(g, s.entries, s.cache, key, seen) then
        Goto(s, t, Waiting(params, s.cache[key], seen)).(clock := seen)
      else
        Goto(s, t, Invoking(params, |s.entries|))
          .(entries := s.entries + [Entry(key, params, created, t, None)],
            cache := s.cache[key := |s.entries|],
            clock := created)
    case Complete(t, answer) =>
      var pc := PcOf(s, t);
      Goto(s, t, Ran(pc.params, pc.entry, answer))
        .(entries := s.entries[pc.entry := s.entries[pc.entry].(result := Some(answer))])
    case Wake(t) =>
      var pc := PcOf(s, t);
      Goto(s, t, Hit(pc.params, pc.entry, s.entries[pc.entry].result.value))
    case Cancel(t) => Goto(s, t, Cancelled)
    case Leave(t) => Goto(s, t, Idle)
  }

  ghost predicate Run(g: Config, states: seq<State>, actions: seq<Action>) {
    && g.maxAge > 0
    && |states| == |actions| + 1
    && states[0] == Init(states[0].clock)
    && forall i :: 0 <= i < |actions|
                   ==> Enabled(g, states[i], actions[i]) && states[i + 1] == Next(g, states[i], actions[i])
  }

  /* ---------- The two locked sections as the method runs them ---------- */

  class Cache {
    var entries: seq<Entry>
    var cache: map<Key, nat>

    constructor ()
      ensures entries == [] && cache == map[]
    {
      entries, cache := [], map[];
    }

    method Admit(g: Config, key: Key, params: Value, owner: nat, seen: int, created: int)
      returns (found: bool, entry: nat)
      modifies this
      ensures found == IsHit(g, old(entries), old(cache), key, seen)
      ensures found ==> entries == old(entries) && cache == old(cache) && entry == cache[key]
      ensures !found ==>
                && entry == |old(entries)|
                && entries == old(entries) + [Entry(key, params, created, owner, None)]
                && cache == old(cache)[key := entry]
    {
      if key in cache && cache[key] < |entries| && seen - entries[cache[key]].created < g.maxAge {
        return true, cache[key];
      }
      entry := |entries|;
      entries := entries + [Entry(key, params, created, owner, None)];
      cache := cache[key := entry];
      found := false;
    }

    method Finish(entry: nat, answer: CallResult)
      requires entry < |entries| && entries[entry].result.None?
      modifies this`entries
      ensures entries == old(entries)[entry := old(entries)[entry].(result := Some(answer))]
    {
      entries := entries[entry := entries[entry].(result := Some(answer))];
    }
  }

  /* ---------- Invariant ---------- */

  // The map points at the latest entry of each key, and installs of one key are maxAge apart.
  ghost predicate CacheGood(g: Config, s: State) {
    && (forall k :: k in s.cache ==> s.cache[k] < |s.entries| && s.entries[s.cache[k]].key == k)
    && (forall i :: 0 <= i < |s.entries| ==>
          && s.entries[i].key in s.cache && i <= s.cache[s.entries[i].key]
          && s.entries[i].created <= s.clock
          && s.entries[i].key == KeyOf(g, s.entries[i].params))
    && (forall i, j :: 0 <= i < j < |s.entries| && s.entries[i].key == s.entries[j].key ==>
          s.entries[j].created - s.entries[i].created >= g.maxAge)
  }

  // An entry is pending exactly while the call that installed it is running its handler.
  ghost predicate OwnersGood(s: State) {
    && (forall i :: 0 <= i < |s.entries| && s.entries[i].result.None? ==>
          PcOf(s, s.entries[i].owner).Invoking? && PcOf(s, s.entries[i].owner).entry == i)
    && (forall t: nat :: PcOf(s, t).Invoking? ==>
          var e := PcOf(s, t).entry;
          e < |s.entries| && s.entries[e].owner == t && s.entries[e].params == PcOf(s, t).params
          && s.entries[e].result.None?)
  }

  ghost predicate ReadersGood(g: Config, s: State) {
    && (forall t: nat :: PcOf(s, t).Waiting? ==>
          var pc := PcOf(s, t);
          && pc.entry < |s.entries| && s.entries[pc.entry].key == KeyOf(g, pc.params)
          && pc.since - s.entries[pc.entry].created < g.maxAge)
    && (forall t: nat :: PcOf(s, t).Hit? ==>
          var pc := PcOf(s, t);
          && pc.entry < |s.entries| && s.entries[pc.entry].key == KeyOf(g, pc.params)
          && s.entries[pc.entry].result == Some(pc.answer))
    && (forall t: nat :: PcOf(s, t).Ran? ==>
          var pc := PcOf(s, t);
          && pc.entry < |s.entries| && s.entries[pc.entry].params == pc.params
          && s.entries[pc.entry].result == Some(pc.answer))
  }

  ghost predicate Sound(g: Config, s: State) {
    CacheGood(g, s) && OwnersGood(s) && ReadersGood(g, s)
  }

  lemma InstallKeepsCache(g: Config, s: State, a: Action)
    requires CacheGood(g, s) && Enabled(g, s, a) && a.Lookup?
    ensures CacheGood(g, Next(g, s, a))
  {
    hide KeyOf;
    var key, s' := KeyOf(g, PcOf(s, a.t).params), Next(g, s, a);
    if !IsHit(g, s.entries, s.cache, key, a.seen) {
      InstallIsSpaced(g, s, key, a.seen);
      var added := Entry(key, PcOf(s, a.t).params, a.created, a.t, None);
      assert s'.entries == s.entries + [added] && s'.cache == s.cache[key := |s.entries|] && s'.clock == a.created;
      assert forall i :: 0 <= i < |s'.entries| ==> s'.entries[i] == if i < |s.entries| then s.entries[i] else added;
      hide Next, IsHit;
    }
  }

  // A miss means that every earlier install of the key is at least maxAge old.
  lemma InstallIsSpaced(g: Config, s: State, key: Key, seen: int)
    requires CacheGood(g, s) && s.clock <= seen && !IsHit(g, s.entries, s.cache, key, seen)
    ensures forall i :: 0 <= i < |s.entries| && s.entries[i].key == key ==> seen - s.entries[i].created >= g.maxAge
  {
    hide KeyOf;
    forall i | 0 <= i < |s.entries| && s.entries[i].key == key
      ensures seen - s.entries[i].created >= g.maxAge
    {
      var latest := s.cache[key];
      assert s.entries[latest].key == key && i <= latest;
      assert i < latest ==> s.entries[latest].created - s.entries[i].created >= g.maxAge;
    }
  }

  lemma InstallKeepsOwners(g: Config, s: State, a: Action)
    requires Sound(g, s) && Enabled(g, s, a) && a.Lookup?
    ensures OwnersGood(Next(g, s, a))
  {
    hide KeyOf, CacheGood, ReadersGood, IsHit;
    var s' := Next(g, s, a);
    assert forall t: nat :: t != a.t ==> PcOf(s', t) == PcOf(s, t);
    assert forall i :: 0 <= i < |s.entries| ==> s'.entries[i] == s.entries[i];
    assert forall i :: 0 <= i < |s.entries| && s.entries[i].result.None? ==> s.entries[i].owner != a.t;
  }

  lemma InstallKeepsReaders(g: Config, s: State, a: Action)
    requires Sound(g, s) && Enabled(g, s, a) && a.Lookup?
    ensures ReadersGood(g, Next(g, s, a))
  {
    hide KeyOf, OwnersGood;
    var s' := Next(g, s, a);
    assert forall t: nat :: t != a.t ==> PcOf(s', t) == PcOf(s, t);
    assert forall i :: 0 <= i < |s.entries| ==> s'.entries[i] == s.entries[i];
  }

  lemma CompleteKeepsCache(g: Config, s: State, a: Action)
    requires Sound(g, s) && Enabled(g, s, a) && a.Complete?
    ensures CacheGood(g, Next(g, s, a))
  {
    hide KeyOf, OwnersGood, ReadersGood;
    var s' := Next(g, s, a);
    assert forall i :: 0 <= i < |s.entries| ==> s'.entries[i].(result := None) == s.entries[i].(result := None);
  }

  lemma CompleteKeepsReaders(g: Config, s: State, a: Action)
    requires Sound(g, s) && Enabled(g, s, a) && a.Complete?
    ensures ReadersGood(g, Next(g, s, a))
  {
    hide KeyOf, CacheGood;
    var s', e := Next(g, s, a), PcOf(s, a.t).entry;
    assert s.entries[e].result.None?;
    assert forall t: nat :: t != a.t ==> PcOf(s', t) == PcOf(s, t);
    assert forall i :: 0 <= i < |s.entries| ==> s'.entries[i].(result := None) == s.entries[i].(result := None);
    assert forall i :: 0 <= i < |s.entries| && i != e ==> s'.entries[i] == s.entries[i];
  }

  lemma CompleteKeepsOwners(g: Config, s: State, a: Action)
    requires Sound(g, s) && Enabled(g, s, a) && a.Complete?
    ensures OwnersGood(Next(g, s, a))
  {
    hide KeyOf, CacheGood, ReadersGood;
    var s', e := Next(g, s, a), PcOf(s, a.t).entry;
    assert forall t: nat :: t != a.t ==> PcOf(s', t) == PcOf(s, t);
    assert forall i :: 0 <= i < |s.entries| && i != e ==> s'.entries[i] == s.entries[i];
    assert s'.entries[e] == s.entries[e].(result := Some(a.answer));
  }

  // The remaining steps move one thread and leave the entries alone.
  predicate Elsewhere(a: Action) {
    !a.Lookup? && !a.Complete?
  }

  lemma OtherFrame(g: Config, s: State, a: Action)
    requires Enabled(g, s, a) && Elsewhere(a)
    ensures var s' := Next(g, s, a);
            && s'.entries == s.entries && s'.cache == s.cache && s'.clock == s.clock
            && (forall t: nat :: t != a.t ==> PcOf(s', t) == PcOf(s, t))
            && !PcOf(s, a.t).Invoking? && !PcOf(s', a.t).Invoking? && !PcOf(s', a.t).Ran? && !PcOf(s', a.t).Waiting?
            && (PcOf(s', a.t).Hit? ==> a.Wake?)
  {
  }

  lemma OtherKeepsOwners(g: Config, s: State, a: Action)
    requires OwnersGood(s) && Enabled(g, s, a) && Elsewhere(a)
    ensures OwnersGood(Next(g, s, a))
  {
    hide Next, Enabled;
    OtherFrame(g, s, a);
  }

  lemma OtherKeepsReaders(g: Config, s: State, a: Action)
    requires ReadersGood(g, s) && Enabled(g, s, a) && Elsewhere(a)
    ensures ReadersGood(g, Next(g, s, a))
  {
    hide KeyOf;
    OtherFrame(g, s, a);
    if a.Wake? {
      assert PcOf(s, a.t).Waiting?;
    }
  }

  lemma OtherKeepsCache(g: Config, s: State, a: Action)
    requires CacheGood(g, s) && Enabled(g, s, a) && Elsewhere(a)
    ensures CacheGood(g, Next(g, s, a))
  {
    hide Next, Enabled, KeyOf;
    OtherFrame(g, s, a);
  }

  lemma StepKeepsSound(g: Config, s: State, a: Action)
    requires g.maxAge > 0 && Sound(g, s) && Enabled(g, s, a)
    ensures Sound(g, Next(g, s, a))
  {
    hide CacheGood, OwnersGood, ReadersGood, Next, Enabled;
    match a
    case Lookup(_, _, _) =>
      InstallKeepsCache(g, s, a);
      InstallKeepsOwners(g, s, a);
      InstallKeepsReaders(g, s, a);
    case Complete(_, _) =>
      CompleteKeepsCache(g, s, a);
      CompleteKeepsReaders(g, s, a);
      CompleteKeepsOwners(g, s, a);
    case _ =>
      OtherKeepsCache(g, s, a);
      OtherKeepsOwners(g, s, a);
      OtherKeepsReaders(g, s, a);
  }

  lemma {:induction false} SoundOverRuns(g: Config, states: seq<State>, actions: seq<Action>, n: nat)
    requires Run(g, states, actions) && n < |states|
    ensures Sound(g, states[n])
  {
    hide KeyOf, Next, Enabled;
    if n > 0 {
      SoundOverRuns(g, states, actions, n - 1);
      StepKeepsSound(g, states[n - 1], actions[n - 1]);
    }
  }

  /* ---------- The theorems ---------- */

  // Nobody waits on an entry that no running call will complete.
  lemma NoOrphans(g: Config, states: seq<State>, actions: seq<Action>, n: nat, t: nat)
    requires Run(g, states, actions) && n < |states| && PcOf(states[n], t).Waiting?
    ensures var s, e := states[n], PcOf(states[n], t).entry;
            && e < |s.entries|
            && (s.entries[e].result.Some?
               || (PcOf(s, s.entries[e].owner).Invoking? && PcOf(s, s.entries[e].owner).entry == e))
  {
    SoundOverRuns(g, states, actions, n);
  }

  // Two installs of one key are at least maxAge apart.
  lemma InstallsAreSpaced(g: Config, states: seq<State>, actions: seq<Action>, n: nat, i: nat, j: nat)
    requires Run(g, states, actions) && n < |states| && i < j < |states[n].entries|
    requires states[n].entries[i].key == states[n].entries[j].key
    ensures states[n].entries[j].created - states[n].entries[i].created >= g.maxAge
  {
    SoundOverRuns(g, states, actions, n);
  }

  // Entries are only added, never rewritten, except that the owner completes its own once.
  lemma StepRewrites(g: Config, s: State, a: Action, e: nat)
    requires Sound(g, s) && Enabled(g, s, a) && e < |s.entries|
    ensures var s' := Next(g, s, a);
            && e < |s'.entries|
            && (s'.entries[e] == s.entries[e]
                || (a.Complete? && a.t == s.entries[e].owner && s.entries[e].result.None?
                    && s'.entries[e] == s.entries[e].(result := Some(a.answer))))
  {
    hide KeyOf;
  }

  lemma {:induction false} CompletedOnce(g: Config, states: seq<State>, actions: seq<Action>, i: nat, j: nat, e: nat)
    requires Run(g, states, actions) && i <= j < |states| && e < |states[i].entries|
    ensures e < |states[j].entries|
    ensures states[j].entries[e].(result := None) == states[i].entries[e].(result := None)
    ensures states[i].entries[e].result.Some? ==> states[j].entries[e] == states[i].entries[e]
    decreases j
  {
    hide Next, Enabled, Sound;
    if i < j {
      CompletedOnce(g, states, actions, i, j - 1, e);
      SoundOverRuns(g, states, actions, j - 1);
      StepRewrites(g, states[j - 1], actions[j - 1], e);
    }
  }

  // A hit answers with what the handler produced, in the call that installed the entry, for
  // parameters that differ from these at most in numbers that are spelled alike.
  lemma HitsAnswerAlikeParameters(g: Config, states: seq<State>, actions: seq<Action>, n: nat, t: nat)
    requires Run(g, states, actions) && n < |states| && PcOf(states[n], t).Hit?
    ensures var pc, s := PcOf(states[n], t), states[n];
            && pc.entry < |s.entries| && s.entries[pc.entry].result == Some(pc.answer)
            && K.Alike(g.codec, s.entries[pc.entry].params, pc.params)
  {
    hide C.Stringify, K.Alike;
    SoundOverRuns(g, states, actions, n);
    var pc := PcOf(states[n], t);
    K.KeysCollideExactly(g.codec, states[n].entries[pc.entry].params, pc.params);
  }

  // So for these very parameters, where both parse back from their text.
  lemma HitsAnswerTheSameParameters(g: Config, states: seq<State>, actions: seq<Action>, n: nat, t: nat)
    requires Run(g, states, actions) && n < |states| && PcOf(states[n], t).Hit?
             && PcOf(states[n], t).entry < |states[n].entries|
    requires RT.Rebuilding(g.codec)
    requires RT.Faithful(g.codec, PcOf(states[n], t).params)
    requires RT.Faithful(g.codec, states[n].entries[PcOf(states[n], t).entry].params)
    ensures var pc, s := PcOf(states[n], t), states[n];
            s.entries[pc.entry].params == pc.params && s.entries[pc.entry].result == Some(pc.answer)
  {
    hide RT.Rebuilding, RT.Faithful, C.Stringify;
    SoundOverRuns(g, states, actions, n);
    var pc := PcOf(states[n], t);
    T.KeysAreInjective(g.codec, pc.params, states[n].entries[pc.entry].params);
  }

  predicate Leads(g: Config, s: State, a: Action, s': State) { Enabled(g, s, a) && s' == Next(g, s, a) }

  // A cache with one entry, for `params`, and the threads of a caller and a later caller.
  function Single(g: Config, params: Value, result: Option<CallResult>, first: Pc, second: Option<Pc>): State {
    State([Entry(KeyOf(g, params), params, 0, 0, result)], map[KeyOf(g, params) := 0],
          if second == None then map[0 := first] else map[0 := first, 1 := second.value], 0)
  }

  lemma Installs(g: Config, v: Value, answer: CallResult)
    ensures Leads(g, Init(0), Start(0, v), State([], map[], map[0 := Keyed(v)], 0))
    ensures Leads(g, State([], map[], map[0 := Keyed(v)], 0), Lookup(0, 0, 0), Single(g, v, None, Invoking(v, 0), None))
    ensures Leads(g, Single(g, v, None, Invoking(v, 0), None), Complete(0, answer),
                  Single(g, v, Some(answer), Ran(v, 0, answer), None))
  {
    hide KeyOf;
  }

  lemma Hits(g: Config, v: Value, w: Value, answer: CallResult)
    requires g.maxAge > 0 && KeyOf(g, v) == KeyOf(g, w)
    ensures var first := Ran(v, 0, answer);
            && Leads(g, Single(g, v, Some(answer), first, None), Start(1, w),
                     Single(g, v, Some(answer), first, Some(Keyed(w))))
            && Leads(g, Single(g, v, Some(answer), first, Some(Keyed(w))), Lookup(1, 0, 0),
                     Single(g, v, Some(answer), first, Some(Waiting(w, 0, 0))))
            && Leads(g, Single(g, v, Some(answer), first, Some(Waiting(w, 0, 0))), Wake(1),
                     Single(g, v, Some(answer), first, Some(Hit(w, 0, answer))))
  {
    hide KeyOf;
  }

  // Parameters that are alike do share an entry: a call with 1.0 installs it, a call with 1 hits.
  lemma FloatAndIntegerShareAnEntry(g: Config, answer: CallResult) returns (states: seq<State>, actions: seq<Action>)
    requires g.maxAge > 0 && g.codec.formatFloat(1.0) == "1"
    ensures Run(g, states, actions) && |actions| == 6
    ensures var s := states[6];
            && PcOf(s, 1) == Hit(Int(1), 0, answer)
            && |s.entries| == 1 && s.entries[0].params == Flt(Finite(1.0)) && s.entries[0].result == Some(answer)
  {
    var v, w := Flt(Finite(1.0)), Int(1);
    hide *;
    SameKey(g);
    Installs(g, v, answer);
    Hits(g, v, w, answer);
    var first := Ran(v, 0, answer);
    states, actions := SixSteps(
      g, [Start(0, v), Lookup(0, 0, 0), Complete(0, answer)], [Start(1, w), Lookup(1, 0, 0), Wake(1)],
      State([], map[], map[0 := Keyed(v)], 0), Single(g, v, None, Invoking(v, 0), None),
      Single(g, v, Some(answer), first, None), Single(g, v, Some(answer), first, Some(Keyed(w))),
      Single(g, v, Some(answer), first, Some(Waiting(w, 0, 0))),
      Single(g, v, Some(answer), first, Some(Hit(w, 0, answer))));
    SingleHit(g, v, w, first, answer);
  }

  lemma SameKey(g: Config)
    requires g.codec.formatFloat(1.0) == "1"
    ensures KeyOf(g, Flt(Finite(1.0))) == KeyOf(g, Int(1))
  {
    hide C.Stringify;
    assert K.Alike(g.codec, Flt(Finite(1.0)), Int(1));
    K.KeysCollideExactly(g.codec, Flt(Finite(1.0)), Int(1));
  }

  lemma SixSteps(g: Config, three: seq<Action>, more: seq<Action>,
                 s1: State, s2: State, s3: State, s4: State, s5: State, s6: State)
    returns (states: seq<State>, actions: seq<Action>)
    requires g.maxAge > 0 && |three| == |more| == 3
    requires Leads(g, Init(0), three[0], s1) && Leads(g, s1, three[1], s2) && Leads(g, s2, three[2], s3)
    requires Leads(g, s3, more[0], s4) && Leads(g, s4, more[1], s5) && Leads(g, s5, more[2], s6)
    ensures Run(g, states, actions) && actions == three + more && |states| == 7 && states[6] == s6
  {
    hide Next, Enabled;
    states, actions := [Init(0), s1, s2, s3, s4, s5, s6], three + more;
  }

  lemma SingleHit(g: Config, v: Value, w: Value, first: Pc, answer: CallResult)
    ensures var s := Single(g, v, Some(answer), first, Some(Hit(w, 0, answer)));
            PcOf(s, 1) == Hit(w, 0, answer) && |s.entries| == 1 && s.entries[0].params == v
            && s.entries[0].result == Some(answer)
  {
    hide KeyOf;
  }

  // A waiter found its entry younger than maxAge.
  lemma HitsAreFresh(g: Config, states: seq<State>, actions: seq<Action>, n: nat, t: nat)
    requires Run(g, states, actions) && n < |states| && PcOf(states[n], t).Waiting?
    ensures var pc := PcOf(states[n], t);
            pc.entry < |states[n].entries| && pc.since - states[n].entries[pc.entry].created < g.maxAge
  {
    SoundOverRuns(g, states, actions, n);
  }
}
