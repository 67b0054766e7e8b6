// Which identity a connection carries, told from the calls made so far
// (typeferry-go/websocket/dispatcher.go).
module DispatcherHistory {
  import opened Results
  import opened Runtime
  import opened Dispatcher
  import R = RuntimeProtocol
  import E = EjsonValue
  import F = Fields

  /* ---------- Identities ---------- */

  // The user ID is the text at user._id of the context, and empty if there is none.
  lemma UserIdExactly(context: E.Value, id: string)
    ensures id != "" ==>
              (UserIdOf(context) == id <==>
                 exists user: E.Value ::
                   context.Obj? && F.Lookup(context.fields, "user") == Some(user)
                   && user.Obj? && F.Lookup(user.fields, "_id") == Some(E.Str(id)))
  {
    hide F.Lookup;
  }

  // Anything but null and false is accepted and becomes the context.
  lemma AcceptExactly(identity: E.Value)
    ensures Accept(identity).authenticated <==> identity != E.Null && identity != E.Bool(false)
    ensures Accept(identity).context == if Accept(identity).authenticated then identity else E.Null
    ensures Accept(identity).userID == UserIdOf(Accept(identity).context)
  {
    NoUser();
  }

  lemma NoUser()
    ensures UserIdOf(E.Null) == ""
  {
  }

  /* ---------- One step of Open ---------- */

  // Open goes ahead exactly if the connection is not closing, registers the client unless the
  // server is closed, and commits exactly a success received in time and before closing.
  lemma OpenSteps(c: Client, s: State, a: Action)
    requires Sound(c, s) && Enabled(c, s, a)
    ensures var s' := Next(c, s, a);
            && (a.OpenLock? ==> (OpenOf(s', a.t).Registering? <==> !s.closing) && (s.closing ==> s' == s))
            && (a.OpenAdd? ==> OpenOf(s', a.t).Adding? && (Registered(s'.rt.data, c) <==> !s.rt.data.closed))
            && (a.OpenAdded? ==> OpenOf(s', a.t) == if a.authenticate then Waiting(a.callback) else Out)
            && (a.OpenReceive? ==> OpenOf(s', a.t) == Committing(s.results[OpenOf(s, a.t).callback]))
            && (a.OpenCommit? ==>
                  var result := OpenOf(s, a.t).result;
                  OpenOf(s', a.t)
                  == if !s.closing && result.Some? && !a.expired then Accepting(result.value) else Out)
  {
    hide Accept, Consistent, Add, Enumerates;
    if a.OpenAdd? {
      AddExactly(s.rt.data, c);
      ClosedNowhere(s.rt.data, c);
    }
  }

  lemma ClosedNowhere(d: Data, c: Client)
    requires Good(d)
    ensures d.closed ==> !Registered(d, c)
  {
  }

  /* ---------- Where an identity comes from ---------- */

  ghost predicate StartedAt(actions: seq<Action>, i: nat, t: nat, callback: nat) {
    i < |actions| && actions[i] == OpenAdded(t, true, callback)
  }

  ghost predicate SentAt(actions: seq<Action>, j: nat, callback: nat, result: Option<E.Value>) {
    j < |actions| && actions[j] == CallbackSend(callback, result)
  }

  // The result an Open holds was sent by the callback it started itself.
  ghost predicate FromOwn(actions: seq<Action>, n: nat, t: nat, result: Option<E.Value>) {
    exists i: nat, j: nat, callback: nat ::
      i < n && j < n && StartedAt(actions, i, t, callback) && SentAt(actions, j, callback, result)
  }

  lemma StepWaits(c: Client, s: State, a: Action, t: nat)
    requires Enabled(c, s, a) && OpenOf(Next(c, s, a), t).Waiting? && OpenOf(Next(c, s, a), t) != OpenOf(s, t)
    ensures a == OpenAdded(t, true, OpenOf(Next(c, s, a), t).callback)
  {
    hide Good, Nowhere, Accept, R.Next, R.Enabled;
  }

  lemma {:induction false} WaitingStarted(c: Client, states: seq<State>, actions: seq<Action>, n: nat, t: nat)
    returns (i: nat)
    requires Run(c, states, actions) && n < |states| && OpenOf(states[n], t).Waiting?
    ensures i < n && StartedAt(actions, i, t, OpenOf(states[n], t).callback)
    decreases n
  {
    hide Next, Enabled, Good, Nowhere;
    assert n > 0;
    var s, a := states[n - 1], actions[n - 1];
    assert Enabled(c, s, a) && states[n] == Next(c, s, a);
    if OpenOf(s, t) == OpenOf(states[n], t) {
      i := WaitingStarted(c, states, actions, n - 1, t);
    } else {
      StepWaits(c, s, a, t);
      i := n - 1;
    }
  }

  lemma {:induction false} ResultSent(c: Client, states: seq<State>, actions: seq<Action>, n: nat, callback: nat)
    returns (j: nat)
    requires Run(c, states, actions) && n < |states| && callback in states[n].results
    ensures j < n && SentAt(actions, j, callback, states[n].results[callback])
    decreases n
  {
    hide Good, Nowhere, Accept, R.Next, R.Enabled;
    assert n > 0;
    var s, a := states[n - 1], actions[n - 1];
    assert Enabled(c, s, a) && states[n] == Next(c, s, a);
    if callback in s.results {
      j := ResultSent(c, states, actions, n - 1, callback);
    } else {
      j := n - 1;
    }
  }

  lemma {:induction false} CommittingFromOwn(c: Client, states: seq<State>, actions: seq<Action>, n: nat, t: nat)
    requires Run(c, states, actions) && n < |states|
    ensures OpenOf(states[n], t).Committing? ==> FromOwn(actions, n, t, OpenOf(states[n], t).result)
    ensures OpenOf(states[n], t).Accepting? ==> FromOwn(actions, n, t, Some(OpenOf(states[n], t).identity))
    decreases n
  {
    hide Good, Nowhere, Accept, R.Next, R.Enabled, FromOwn;
    if n > 0 && (OpenOf(states[n], t).Committing? || OpenOf(states[n], t).Accepting?) {
      var m := n - 1;
      var s, a := states[m], actions[m];
      assert Enabled(c, s, a) && states[n] == Next(c, s, a);
      CommittingFromOwn(c, states, actions, m, t);
      if a.OpenReceive? && a.t == t {
        var i := WaitingStarted(c, states, actions, m, t);
        var callback := OpenOf(s, t).callback;
        var j := ResultSent(c, states, actions, m, callback);
        OwnResult(actions, n, t, i, j, callback, s.results[callback]);
      } else {
        LaterToo(actions, m, n, t, if OpenOf(s, t).Committing? then OpenOf(s, t).result else None);
        LaterToo(actions, m, n, t, if OpenOf(s, t).Accepting? then Some(OpenOf(s, t).identity) else None);
      }
    }
  }

  lemma OwnResult(actions: seq<Action>, n: nat, t: nat, i: nat, j: nat, callback: nat, result: Option<E.Value>)
    requires i < n && j < n && StartedAt(actions, i, t, callback) && SentAt(actions, j, callback, result)
    ensures FromOwn(actions, n, t, result)
  {
  }

  lemma LaterToo(actions: seq<Action>, m: nat, n: nat, t: nat, result: Option<E.Value>)
    requires m <= n
    ensures FromOwn(actions, m, t, result) ==> FromOwn(actions, n, t, result)
  {
  }

  /* ---------- The identity over the run ---------- */

  // Step k is the last one that accepts an identity.
  ghost predicate AcceptsLast(states: seq<State>, actions: seq<Action>, k: nat, n: nat)
    requires |states| == |actions| + 1
  {
    && k < n <= |actions| && actions[k].OpenAccept? && OpenOf(states[k], actions[k].t).Accepting?
    && forall m :: k < m < n ==> !actions[m].OpenAccept?
  }

  ghost predicate NoAccept(actions: seq<Action>, n: nat) {
    forall m :: 0 <= m < n && m < |actions| ==> !actions[m].OpenAccept?
  }

  lemma StepContext(c: Client, s: State, a: Action)
    requires Enabled(c, s, a)
    ensures a.OpenAccept? ==> Next(c, s, a).auth == Accept(OpenOf(s, a.t).identity)
    ensures !a.OpenAccept? ==>
              Next(c, s, a).auth.context == s.auth.context && Next(c, s, a).auth.userID == s.auth.userID
  {
    hide Good, Nowhere, Accept, R.Next, R.Enabled;
  }

  // The context and user ID a connection carries are those of the identity accepted last, which its
  // own callback sent; before the first there is none.
  lemma {:induction false} CarriesExactly(c: Client, states: seq<State>, actions: seq<Action>, n: nat)
    requires Run(c, states, actions) && n < |states|
    ensures NoAccept(actions, n) ==> states[n].auth.context == E.Null && states[n].auth.userID == ""
    ensures forall k: nat :: AcceptsLast(states, actions, k, n) ==>
              var identity := OpenOf(states[k], actions[k].t).identity;
              && states[n].auth.context == Accept(identity).context && states[n].auth.userID == Accept(identity).userID
              && FromOwn(actions, k, actions[k].t, Some(identity))
    decreases n
  {
    hide Next, Enabled, Accept, Good, Nowhere, FromOwn;
    if n > 0 {
      var m := n - 1;
      CarriesExactly(c, states, actions, m);
      assert Enabled(c, states[m], actions[m]) && states[n] == Next(c, states[m], actions[m]);
      StepContext(c, states[m], actions[m]);
      assert NoAccept(actions, n) ==> NoAccept(actions, m);
      forall k: nat | AcceptsLast(states, actions, k, n)
        ensures var identity := OpenOf(states[k], actions[k].t).identity;
                && states[n].auth.context == Accept(identity).context
                && states[n].auth.userID == Accept(identity).userID
                && FromOwn(actions, k, actions[k].t, Some(identity))
      {
        if k < m {
          assert AcceptsLast(states, actions, k, m);
        } else {
          CommittingFromOwn(c, states, actions, k, actions[k].t);
        }
      }
    }
  }
}
