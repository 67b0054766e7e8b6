// One WebSocket connection against the runtime: Open, its authentication callback, the
// authentication timeout and Close (typeferry-go/websocket/dispatcher.go).
//
// Every other actor of the server appears as an environment step on the runtime: any client
// but this one may be added, any client removed, subscribed or replaced, the server closed.
module Dispatcher {
  import opened Results
  import opened Runtime
  import R = RuntimeProtocol
  import E = EjsonValue
  import F = Fields

  /* ---------- The identity a connection carries ---------- */

  datatype Auth = Auth(authenticated: bool, context: E.Value, userID: string)

  function FieldOf(v: E.Value, key: string): Option<E.Value> {
    if v.Obj? then F.Lookup(v.fields, key) else None
  }

  // Client.SetContext: the user ID is read out of the context, if it is there.
  function UserIdOf(context: E.Value): string {
    match FieldOf(context, "user")
    case None => ""
    case Some(user) =>
      match FieldOf(user, "_id")
      case Some(id) => if id.Str? then id.text else ""
      case None => ""
  }

  function Accept(identity: E.Value): Auth {
    if identity == E.Null || identity == E.Bool(false) then Auth(false, E.Null, "")
    else Auth(true, identity, UserIdOf(identity))
  }

  // A connection without authentication carries no identity.
  predicate Consistent(auth: Auth) {
    && (!auth.authenticated ==> auth.context == E.Null)
    && auth.userID == UserIdOf(auth.context)
  }

  // The part of runtime.Client that authentication changes.
  class ClientIdentity {
    var authenticated: bool
    var context: E.Value
    var userID: string

    ghost function View(): Auth
      reads this
    {
      Auth(authenticated, context, userID)
    }

    constructor ()
      ensures Consistent(View()) && !authenticated
    {
      authenticated, context, userID := false, E.Null, "";
    }

    method SetAuthenticated(value: bool)
      modifies this
      ensures View() == old(View()).(authenticated := value)
    {
      authenticated := value;
    }

    method SetContext(value: E.Value)
      modifies this
      ensures View() == Auth(old(authenticated), value, UserIdOf(value))
    {
      context := value;
      userID := "";
      var user := FieldOf(value, "user");
      if user.None? {
        return;
      }
      var id := FieldOf(user.value, "_id");
      if id.None? {
        return;
      }
      if id.value.Str? {
        userID := id.value.text;
      }
    }

    method AcceptIdentity(identity: E.Value)
      modifies this
      ensures View() == Accept(identity) && Consistent(View())
    {
      var accepted := !identity.Null?;
      if identity.Bool? && !identity.b {
        accepted := false;
      }
      SetAuthenticated(accepted);
      if accepted {
        SetContext(identity);
      } else {
        SetContext(E.Null);
      }
    }
  }

  /* ---------- The protocol ---------- */

  datatype OpenPc =
    | Out
    | Registering                        // holds lifecycle
    | Adding                             // holds lifecycle, inside AddClient
    | Waiting(callback: nat)             // select on the callback's result and the timeout
    | Committing(result: Option<E.Value>)  // holds lifecycle; None is a failed callback
    | Accepting(identity: E.Value)       // holds lifecycle, has set the flag, not yet the context
    | Refreshing                         // holds lifecycle, inside RefreshClientPresence

  datatype ClosePc = NotClosed | Joining(t: nat) | Deleting(t: nat) | Closed

  datatype State = State(
    rt: R.State,
    closing: bool,
    lifecycle: Option<nat>,
    opens: map<nat, OpenPc>,
    callbacks: set<nat>,                 // the WaitGroup: callbacks still running
    started: set<nat>,
    results: map<nat, Option<E.Value>>,
    closer: ClosePc,
    auth: Auth,
    commits: nat)

  datatype Action =
    | Env(a: R.Action)
    | OpenLock(t: nat)
    | OpenAdd(t: nat)
    | OpenAdded(t: nat, authenticate: bool, callback: nat)
    | CallbackSend(callback: nat, result: Option<E.Value>)
    | CallbackDone(callback: nat)
    | OpenTimeout(t: nat)
    | OpenReceive(t: nat)
    | OpenCommit(t: nat, expired: bool)
    | OpenAccept(t: nat)
    | OpenRefresh(t: nat)
    | CloseLock(t: nat)
    | CloseDelete
    | CloseReturn

  function Init(rt: R.State): State {
    State(rt, false, None, map[], {}, {}, map[], NotClosed, Auth(false, E.Null, ""), 0)
  }

  function OpenOf(s: State, t: nat): OpenPc {
    if t in s.opens then s.opens[t] else Out
  }

  // Runtime threads that run this connection's own calls.
  predicate Owned(s: State, t: nat) {
    OpenOf(s, t).Adding? || (s.closer.Deleting? && s.closer.t == t)
  }

  ghost predicate Enabled(c: Client, s: State, a: Action) {
    match a
    case Env(b) =>
      && R.Enabled(s.rt, b)
      && !(b.BeginAdd? && b.c == c)
      && (Owned(s, b.t) ==> b.Tell? || b.Release? || b.CloseSocket?)
    case OpenLock(t) => OpenOf(s, t).Out? && s.lifecycle.None?
    case OpenAdd(t) => OpenOf(s, t).Registering? && R.Enabled(s.rt, R.BeginAdd(t, c))
    case OpenAdded(t, _, callback) => OpenOf(s, t).Adding? && R.PcOf(s.rt, t).Idle? && callback !in s.started
    case CallbackSend(callback, _) => callback in s.callbacks && callback !in s.results
    case CallbackDone(callback) => callback in s.callbacks && callback in s.results
    case OpenTimeout(t) => OpenOf(s, t).Waiting?
    case OpenReceive(t) => OpenOf(s, t).Waiting? && OpenOf(s, t).callback in s.results && s.lifecycle.None?
    case OpenCommit(t, _) => OpenOf(s, t).Committing?
    case OpenAccept(t) => OpenOf(s, t).Accepting?
    case OpenRefresh(t) => OpenOf(s, t).Refreshing? && s.rt.holder.None?   // takes presenceMu and gives it back
    case CloseLock(t) => s.closer.NotClosed? && s.lifecycle.None?
    case CloseDelete => s.closer.Joining? && s.callbacks == {} && R.Enabled(s.rt, R.BeginDelete(s.closer.t, c))
    case CloseReturn => s.closer.Deleting? && R.PcOf(s.rt, s.closer.t).Idle?
  }

  function Goto(s: State, t: nat, pc: OpenPc): State {
    s.(opens := s.opens[t := pc])
  }

  ghost function Next(c: Client, s: State, a: Action): State
    requires Enabled(c, s, a)
  {
    match a
    case Env(b) => s.(rt := R.Next(s.rt, b))
    case OpenLock(t) => if s.closing then s else Goto(s, t, Registering).(lifecycle := Some(t))
    case OpenAdd(t) => Goto(s, t, Adding).(rt := R.Next(s.rt, R.BeginAdd(t, c)))
    case OpenAdded(t, authenticate, callback) =>
      if !authenticate then Goto(s, t, Out).(lifecycle := None)
      else
        Goto(s, t, Waiting(callback))
          .(lifecycle := None, callbacks := s.callbacks + {callback}, started := s.started + {callback})
    case CallbackSend(callback, result) => s.(results := s.results[callback := result])
    case CallbackDone(callback) => s.(callbacks := s.callbacks - {callback})
    case OpenTimeout(t) => Goto(s, t, Out)
    case OpenReceive(t) => Goto(s, t, Committing(s.results[OpenOf(s, t).callback])).(lifecycle := Some(t))
    case OpenCommit(t, expired) =>
      var result := OpenOf(s, t).result;
      var released := Goto(s, t, Out).(lifecycle := None);
      if !s.closing && result.Some? && !expired
      then Goto(s, t, Accepting(result.value))
             .(auth := s.auth.(authenticated := Accept(result.value).authenticated), commits := s.commits + 1)
      else released
    case OpenAccept(t) => Goto(s, t, Refreshing).(auth := Accept(OpenOf(s, t).identity))
    case OpenRefresh(t) => Goto(s, t, Out).(lifecycle := None)
    case CloseLock(t) => s.(closing := true, closer := Joining(t))
    case CloseDelete => s.(rt := R.Next(s.rt, R.BeginDelete(s.closer.t, c)), closer := Deleting(s.closer.t))
    case CloseReturn => s.(closer := Closed)
  }

  ghost predicate Run(c: Client, states: seq<State>, actions: seq<Action>) {
    && |states| == |actions| + 1
    && Good(states[0].rt.data) && Nowhere(states[0].rt.data, c) && states[0] == Init(states[0].rt)
    && forall i :: 0 <= i < |actions|
                   ==> Enabled(c, states[i], actions[i]) && states[i + 1] == Next(c, states[i], actions[i])
  }

  /* ---------- Invariant ---------- */

  // Between the decision to commit an identity and its end.
  predicate Admitting(pc: OpenPc) { pc.Accepting? || pc.Refreshing? }

  predicate HoldsLifecycle(pc: OpenPc) {
    pc.Registering? || pc.Adding? || pc.Committing? || Admitting(pc)
  }

  ghost predicate Sound(c: Client, s: State) {
    && Good(s.rt.data)
    && (forall t: nat :: HoldsLifecycle(OpenOf(s, t)) <==> s.lifecycle == Some(t))
    && (s.closing <==> !s.closer.NotClosed?)
    && (s.closing ==> forall t: nat :: !OpenOf(s, t).Registering? && !OpenOf(s, t).Adding? && !Admitting(OpenOf(s, t)))
    && (s.closer.Deleting? || s.closer.Closed? ==> Nowhere(s.rt.data, c) && s.callbacks == {})
    && (forall t: nat :: OpenOf(s, t).Accepting?
                         ==> s.auth.authenticated == Accept(OpenOf(s, t).identity).authenticated)
    && ((forall t: nat :: !OpenOf(s, t).Accepting?) ==> Consistent(s.auth))
  }

  // Nobody but the connection itself can bring its client back.
  lemma NowhereStays(c: Client, s: R.State, a: R.Action)
    requires Good(s.data) && Nowhere(s.data, c) && R.Enabled(s, a) && !(a.BeginAdd? && a.c == c)
    ensures Nowhere(R.Next(s, a).data, c)
  {
    match a
    case BeginAdd(_, x) => AddElsewhere(s.data, x, c);
    case BeginDelete(_, x) =>
      DeleteKeeps(s.data, x);
      DeleteElsewhere(s.data, x, c);
    case BeginAttach(_, tracker, _) =>
      assert forall room :: InRoom(s.data.(tracker := tracker), c, room) <==> InRoom(s.data, c, room);
    case Commit(t) =>
      var pc := R.PcOf(s, t);
      SubscribeElsewhere(s.data, pc.client, pc.room, pc.subscribe, pc.allowed, c);
    case _ =>
  }

  lemma AddElsewhere(d: Data, x: Client, c: Client)
    requires Good(d) && Nowhere(d, c) && x != c
    ensures Nowhere(Add(d, x), c)
  {
    AddKeeps(d, x);
    assert forall room :: !InRoom(d, c, room);
  }

  lemma DeleteElsewhere(d: Data, x: Client, c: Client)
    requires Good(d) && Nowhere(d, c)
    ensures Nowhere(Delete(d, x), c)
  {
    DeleteKeeps(d, x);
  }

  lemma SubscribeElsewhere(d: Data, x: Client, room: string, subscribe: bool, allowed: bool, c: Client)
    requires Good(d) && Nowhere(d, c)
    ensures Nowhere(Subscribe(d, x, room, subscribe, allowed), c)
  {
    if !subscribe {
      LeaveRooms(d, x, room);
    } else if Answer(d, x, allowed) {
      assert x != c;
      assert forall r :: InRoom(Join(d, x, room), c, r) ==> InRoom(d, c, r);
    }
  }

  lemma EnvKeeps(c: Client, s: State, b: R.Action)
    requires Sound(c, s) && Enabled(c, s, Env(b))
    ensures Sound(c, Next(c, s, Env(b)))
  {
    hide Good, Nowhere, R.Next, R.Enabled;
    R.StepKeepsGood(s.rt, b);
    if s.closer.Deleting? || s.closer.Closed? {
      NowhereStays(c, s.rt, b);
    }
    assert forall t: nat :: OpenOf(Next(c, s, Env(b)), t) == OpenOf(s, t);
  }

  lemma OpenKeeps(c: Client, s: State, a: Action)
    requires Sound(c, s) && Enabled(c, s, a)
    requires a.OpenLock? || a.OpenAdd? || a.OpenAdded? || a.OpenTimeout? || a.OpenReceive?
    ensures Sound(c, Next(c, s, a))
  {
    hide Good, Nowhere, R.Next, R.Enabled, Accept, Consistent;
    var s' := Next(c, s, a);
    assert forall t: nat :: t != a.t ==> OpenOf(s', t) == OpenOf(s, t);
    assert !OpenOf(s, a.t).Accepting? && !OpenOf(s', a.t).Accepting?;
    if a.OpenAdd? {
      R.StepKeepsGood(s.rt, R.BeginAdd(a.t, c));
    }
  }

  lemma CommitKeeps(c: Client, s: State, a: Action)
    requires Sound(c, s) && Enabled(c, s, a) && (a.OpenCommit? || a.OpenAccept? || a.OpenRefresh?)
    ensures Sound(c, Next(c, s, a))
  {
    hide Good, Nowhere, R.Next, R.Enabled, Accept, Consistent;
    var s' := Next(c, s, a);
    assert forall t: nat :: t != a.t ==> OpenOf(s', t) == OpenOf(s, t);
    assert s.lifecycle == Some(a.t);
    assert forall t: nat :: t != a.t ==> !HoldsLifecycle(OpenOf(s, t));
    if a.OpenAccept? {
      AcceptConsistent(OpenOf(s, a.t).identity);
    }
  }

  lemma AcceptConsistent(identity: E.Value)
    ensures Consistent(Accept(identity))
    ensures Accept(identity).authenticated <==> identity != E.Null && identity != E.Bool(false)
  {
  }

  lemma CloseKeeps(c: Client, s: State, a: Action)
    requires Sound(c, s) && Enabled(c, s, a)
    requires a.CallbackSend? || a.CallbackDone? || a.CloseLock? || a.CloseDelete? || a.CloseReturn?
    ensures Sound(c, Next(c, s, a))
  {
    hide Good, Nowhere, Delete;
    var s' := Next(c, s, a);
    assert forall t: nat :: OpenOf(s', t) == OpenOf(s, t);
    if a.CloseLock? {
      assert forall t: nat :: !HoldsLifecycle(OpenOf(s, t));
    }
    if a.CloseDelete? {
      DeleteKeeps(s.rt.data, c);
    }
  }

  lemma StepKeepsSound(c: Client, s: State, a: Action)
    requires Sound(c, s) && Enabled(c, s, a)
    ensures Sound(c, Next(c, s, a))
  {
    hide Sound, Enabled, Next;
    match a
    case Env(b) => EnvKeeps(c, s, b);
    case OpenLock(_) => OpenKeeps(c, s, a);
    case OpenAdd(_) => OpenKeeps(c, s, a);
    case OpenAdded(_, _, _) => OpenKeeps(c, s, a);
    case OpenTimeout(_) => OpenKeeps(c, s, a);
    case OpenReceive(_) => OpenKeeps(c, s, a);
    case OpenCommit(_, _) => CommitKeeps(c, s, a);
    case OpenAccept(_) => CommitKeeps(c, s, a);
    case OpenRefresh(_) => CommitKeeps(c, s, a);
    case CallbackSend(_, _) => CloseKeeps(c, s, a);
    case CallbackDone(_) => CloseKeeps(c, s, a);
    case CloseLock(_) => CloseKeeps(c, s, a);
    case CloseDelete => CloseKeeps(c, s, a);
    case CloseReturn => CloseKeeps(c, s, a);
  }

  lemma {:induction false} SoundOverRuns(c: Client, states: seq<State>, actions: seq<Action>, n: nat)
    requires Run(c, states, actions) && n < |states|
    ensures Sound(c, states[n])
  {
    hide Next, Enabled, Good, Nowhere;
    if n > 0 {
      SoundOverRuns(c, states, actions, n - 1);
      StepKeepsSound(c, states[n - 1], actions[n - 1]);
    }
  }

  /* ---------- The theorems ---------- */

  lemma StepAfterClosing(c: Client, s: State, a: Action)
    requires Sound(c, s) && s.closing && Enabled(c, s, a)
    ensures var s' := Next(c, s, a); s'.closing && s'.auth == s.auth && s'.commits == s.commits
  {
    hide Good, Nowhere, Accept, Consistent;
  }

  // No identity is committed once closing is set.
  lemma {:induction false} NoCommitAfterClosing(c: Client, states: seq<State>, actions: seq<Action>, i: nat, j: nat)
    requires Run(c, states, actions) && i <= j < |states| && states[i].closing
    ensures states[j].closing && states[j].auth == states[i].auth && states[j].commits == states[i].commits
    decreases j
  {
    hide Next, Enabled, Good, Nowhere;
    if i < j {
      NoCommitAfterClosing(c, states, actions, i, j - 1);
      SoundOverRuns(c, states, actions, j - 1);
      StepAfterClosing(c, states[j - 1], actions[j - 1]);
    }
  }

  lemma StepAfterClosed(c: Client, s: State, a: Action)
    requires s.closer.Closed? && Enabled(c, s, a)
    ensures Next(c, s, a).closer.Closed?
  {
  }

  // Once Close has returned, the client is registered nowhere and in no room, no authentication
  // callback is running, and all of it stays so.
  lemma {:induction false} ClosedIsGone(c: Client, states: seq<State>, actions: seq<Action>, i: nat, j: nat)
    requires Run(c, states, actions) && i <= j < |states| && states[i].closer.Closed?
    ensures states[j].closer.Closed? && Nowhere(states[j].rt.data, c) && states[j].callbacks == {}
    decreases j
  {
    hide Next, Enabled, Good, Nowhere, Consistent;
    SoundOverRuns(c, states, actions, j);
    if i < j {
      ClosedIsGone(c, states, actions, i, j - 1);
      StepAfterClosed(c, states[j - 1], actions[j - 1]);
    }
  }

  // An identity is committed only by an Open that received its callback's success unexpired; it
  // goes on to accept exactly that identity.
  lemma CommitIsEarned(c: Client, states: seq<State>, actions: seq<Action>, n: nat)
    requires Run(c, states, actions) && n < |actions| && states[n + 1].commits != states[n].commits
    ensures var s, s' := states[n], states[n + 1];
            && actions[n].OpenCommit? && !actions[n].expired && !s.closing
            && OpenOf(s, actions[n].t).Committing? && OpenOf(s, actions[n].t).result.Some?
            && OpenOf(s', actions[n].t) == Accepting(OpenOf(s, actions[n].t).result.value)
  {
    hide Good, Nowhere, Accept, R.Next, R.Enabled;
  }

  // Flag, context and user ID are those of one accepted identity, or of none, whenever no Open is
  // between its two writes; and each accepting step leaves exactly the identity it committed.
  lemma IdentityIsWhole(c: Client, states: seq<State>, actions: seq<Action>, n: nat)
    requires Run(c, states, actions) && n < |states|
    ensures (forall t: nat :: !OpenOf(states[n], t).Accepting?) ==> Consistent(states[n].auth)
    ensures n < |actions| && actions[n].OpenAccept? ==>
              && OpenOf(states[n], actions[n].t).Accepting?
              && states[n + 1].auth == Accept(OpenOf(states[n], actions[n].t).identity)
              && Consistent(states[n + 1].auth)
  {
    hide Good, Nowhere, Accept, Consistent, R.Next, R.Enabled;
    SoundOverRuns(c, states, actions, n);
    if n < |actions| && actions[n].OpenAccept? {
      AcceptConsistent(OpenOf(states[n], actions[n].t).identity);
    }
  }

  /* ---------- No deadlock ---------- */

  // A step of a call that is under way, as opposed to one that begins a call.
  predicate Continues(a: Action) {
    match a
    case Env(b) => b.Tell? || b.Release? || b.CloseSocket? || b.Commit? || b.Return?
    case OpenLock(_) => false
    case CloseLock(_) => false
    case _ => true
  }

  // Nothing is under way: no runtime call, no Open, no callback, no Close.
  ghost predicate Resting(s: State) {
    && (forall t: nat :: R.PcOf(s.rt, t).Idle?)
    && (forall t: nat :: OpenOf(s, t).Out?)
    && s.callbacks == {}
    && (s.closer.NotClosed? || s.closer.Closed?)
  }

  // presenceMu is held by whoever is telling the tracker, and this connection's own runtime
  // calls are in one of their own sections.
  ghost predicate Ordered(s: State) {
    && R.LockHeldByTeller(s.rt)
    && forall t: nat :: Owned(s, t) ==>
         R.PcOf(s.rt, t).Idle? || R.PcOf(s.rt, t).Telling? || R.PcOf(s.rt, t).ClosingSockets?
  }

  lemma StepKeepsOrdered(c: Client, s: State, a: Action)
    requires Ordered(s) && Enabled(c, s, a)
    ensures Ordered(Next(c, s, a))
  {
    hide R.LockHeldByTeller, Add, Delete, Subscribe, Enumerates, Accept;
    match a
    case Env(b) => R.StepKeepsLock(s.rt, b);
    case OpenAdd(t) => R.StepKeepsLock(s.rt, R.BeginAdd(t, c));
    case CloseDelete => R.StepKeepsLock(s.rt, R.BeginDelete(s.closer.t, c));
    case _ =>
  }

  lemma {:induction false} OrderedOverRuns(c: Client, states: seq<State>, actions: seq<Action>, n: nat)
    requires Run(c, states, actions) && R.LockHeldByTeller(states[0].rt) && n < |states|
    ensures Ordered(states[n])
  {
    hide Next, Enabled, Good, Nowhere;
    if n > 0 {
      OrderedOverRuns(c, states, actions, n - 1);
      StepKeepsOrdered(c, states[n - 1], actions[n - 1]);
    }
  }

  lemma {:induction false} SomeFresh(used: set<nat>) returns (n: nat)
    ensures n !in used && forall m :: m in used ==> m < n
    decreases |used|
  {
    if used == {} {
      n := 0;
    } else {
      var m :| m in used;
      var rest := SomeFresh(used - {m});
      n := if m < rest then rest else m + 1;
      forall x | x in used
        ensures x < n
      {
        assert x == m || x in used - {m};
      }
    }
  }

  // A runtime thread in the middle of a call can always go on.
  lemma RuntimeGoesOn(c: Client, s: State, t: nat) returns (a: Action)
    requires Ordered(s) && !R.PcOf(s.rt, t).Idle?
    ensures Enabled(c, s, a) && Continues(a)
  {
    hide R.LockHeldByTeller;
    match R.PcOf(s.rt, t)
    case Telling(_, calls, _) => a := Env(if calls != [] then R.Tell(t) else R.Release(t));
    case ClosingSockets(_) => a := Env(R.CloseSocket(t));
    case Decided(_, _, _, _) => a := Env(R.Commit(t));
    case Answered(_, _, _, _) => a := Env(R.Return(t));
  }

  // So can an Open once the runtime is at rest.
  lemma OpenGoesOn(c: Client, s: State, t: nat) returns (a: Action)
    requires (forall u: nat :: R.PcOf(s.rt, u).Idle?) && s.rt.holder.None? && !OpenOf(s, t).Out?
    ensures Enabled(c, s, a) && Continues(a)
  {
    match OpenOf(s, t)
    case Registering => a := OpenAdd(t);
    case Adding =>
      var callback := SomeFresh(s.started);
      a := OpenAdded(t, false, callback);
    case Waiting(_) => a := OpenTimeout(t);
    case Committing(_) => a := OpenCommit(t, false);
    case Accepting(_) => a := OpenAccept(t);
    case Refreshing => a := OpenRefresh(t);
  }

  // In every reachable state some call that is under way can take its next step, although Open
  // holds `lifecycle` while AddClient or RefreshClientPresence waits for presenceMu and Close
  // waits for callbacks.
  lemma NoDeadlock(c: Client, states: seq<State>, actions: seq<Action>, n: nat) returns (a: Action)
    requires Run(c, states, actions) && R.LockHeldByTeller(states[0].rt) && n < |states| && !Resting(states[n])
    ensures Enabled(c, states[n], a) && Continues(a)
  {
    var s := states[n];
    OrderedOverRuns(c, states, actions, n);
    hide Run;
    if t: nat :| !R.PcOf(s.rt, t).Idle? {
      a := RuntimeGoesOn(c, s, t);
    } else if t: nat :| !OpenOf(s, t).Out? {
      AllIdle(s.rt);
      a := OpenGoesOn(c, s, t);
    } else if s.callbacks != {} {
      var callback :| callback in s.callbacks;
      a := if callback in s.results then CallbackDone(callback) else CallbackSend(callback, None);
    } else {
      AllIdle(s.rt);
      a := if s.closer.Joining? then CloseDelete else CloseReturn;
    }
  }

  lemma AllIdle(rt: R.State)
    requires R.LockHeldByTeller(rt) && forall u: nat :: R.PcOf(rt, u).Idle?
    ensures rt.holder.None?
  {
    forall t: nat
      ensures rt.holder != Some(t)
    {
      assert R.PcOf(rt, t).Idle?;
    }
  }
}
