// The whole server state told from the calls made so far: who is connected, who is in which
// room and whose socket is closed, in every state of every interleaving.
module RuntimeHistory {
  import opened Results
  import opened Runtime
  import opened RuntimeProtocol

  /* ---------- Closing and trackers ---------- */

  // No call has closed the server before step n.
  ghost predicate Open(actions: seq<Action>, n: nat) {
    forall k :: 0 <= k < n && k < |actions| ==> !actions[k].BeginClose?
  }

  lemma StepCloses(s: State, a: Action)
    requires Enabled(s, a)
    ensures Next(s, a).data.closed <==> s.data.closed || a.BeginClose?
    ensures Next(s, a).data.tracker
            == if a.BeginAttach? then a.tracker else if a.BeginClose? then None else s.data.tracker
  {
    hide Enumerates, LeaveAll, Leave, Join;
    match a
    case BeginAdd(_, c) => AddFlags(s.data, c);
    case BeginDelete(_, c) => DeleteFlags(s.data, c);
    case Commit(t) =>
      var pc := PcOf(s, t);
      SubscribeOpen(s.data, pc.client, pc.room, pc.subscribe, pc.allowed);
    case _ =>
  }

  lemma AddFlags(d: Data, c: Client)
    ensures Add(d, c).closed == d.closed && Add(d, c).tracker == d.tracker
  {
  }

  lemma DeleteFlags(d: Data, c: Client)
    ensures Delete(d, c).closed == d.closed && Delete(d, c).tracker == d.tracker
  {
  }

  lemma {:induction false} ClosedExactly(states: seq<State>, actions: seq<Action>, n: nat)
    requires Run(states, actions) && n < |states|
    ensures states[n].data.closed <==> !Open(actions, n)
  {
    hide Next, Enabled;
    if n > 0 {
      ClosedExactly(states, actions, n - 1);
      assert Step(states[n - 1], actions[n - 1], states[n]);
      StepCloses(states[n - 1], actions[n - 1]);
    }
  }

  // The attached tracker is the one attached last, unless the server was closed since.
  ghost predicate AttachedAt(actions: seq<Action>, k: nat, n: nat, tracker: nat) {
    && k < n <= |actions| && actions[k].BeginAttach? && actions[k].tracker == Some(tracker)
    && forall m :: k < m < n ==> !actions[m].BeginAttach? && !actions[m].BeginClose?
  }

  lemma {:induction false} TrackerExactly(states: seq<State>, actions: seq<Action>, n: nat, tracker: nat)
    requires Run(states, actions) && n < |states|
    ensures states[n].data.tracker == Some(tracker) <==> exists k: nat :: AttachedAt(actions, k, n, tracker)
  {
    hide Next, Enabled;
    if n > 0 {
      var m := n - 1;
      TrackerExactly(states, actions, m, tracker);
      assert Step(states[n - 1], actions[n - 1], states[n]);
      var a := actions[n - 1];
      StepCloses(states[n - 1], a);
      if a.BeginAttach? && a.tracker == Some(tracker) {
        assert AttachedAt(actions, n - 1, n, tracker);
      } else if k: nat :| AttachedAt(actions, k, n, tracker) {
        assert AttachedAt(actions, k, m, tracker);
      } else if k: nat :| AttachedAt(actions, k, m, tracker) {
        assert a.BeginAttach? || a.BeginClose? || AttachedAt(actions, k, n, tracker);
      }
    }
  }

  /* ---------- Who is connected ---------- */

  // The client goes: deleted, taken over by another with its UUID, or retired with the server.
  predicate Unregisters(a: Action, c: Client) {
    a.BeginClose? || (a.BeginDelete? && a.c == c) || (a.BeginAdd? && a.c != c && a.c.id == c.id)
  }

  lemma StepRegisters(s: State, a: Action, c: Client)
    requires Good(s.data) && Enabled(s, a)
    ensures Registered(Next(s, a).data, c)
       <==> if a.BeginAdd? && a.c == c && !s.data.closed then true
            else Registered(s.data, c) && !Unregisters(a, c)
  {
    hide Enumerates, Add, Delete, Subscribe;
    match a
    case BeginAdd(_, x) => AddExactly(s.data, x);
    case BeginDelete(_, x) => DeleteKeeps(s.data, x);
    case Commit(t) =>
      var pc := PcOf(s, t);
      SubscribeKeeps(s.data, pc.client, pc.room, pc.subscribe, pc.allowed);
    case _ =>
  }

  ghost predicate ConnectedSince(actions: seq<Action>, k: nat, n: nat, c: Client) {
    && k < n <= |actions| && actions[k].BeginAdd? && actions[k].c == c && Open(actions, k)
    && forall m :: k < m < n ==> !Unregisters(actions[m], c)
  }

  // A client is connected exactly if it was added to an open server and has since neither been
  // deleted nor taken over nor retired.
  lemma {:induction false} ConnectedExactly(states: seq<State>, actions: seq<Action>, n: nat, c: Client)
    requires Run(states, actions) && n < |states|
    ensures Registered(states[n].data, c) <==> exists k: nat :: ConnectedSince(actions, k, n, c)
  {
    hide Next, Enabled, Good, Open;
    if n > 0 {
      var m := n - 1;
      ConnectedExactly(states, actions, m, c);
      assert Step(states[n - 1], actions[n - 1], states[n]);
      RoomsOverRuns(states, actions, n - 1);
      var a := actions[n - 1];
      StepRegisters(states[n - 1], a, c);
      ClosedExactly(states, actions, n - 1);
      if a.BeginAdd? && a.c == c && Open(actions, n - 1) {
        assert ConnectedSince(actions, n - 1, n, c);
      } else if k: nat :| ConnectedSince(actions, k, n, c) {
        assert ConnectedSince(actions, k, m, c);
      } else if k: nat :| ConnectedSince(actions, k, m, c) {
        assert Unregisters(a, c) || ConnectedSince(actions, k, n, c);
      }
    }
  }

  /* ---------- Who is in which room ---------- */

  // What a thread has decided is what it decided last.
  ghost predicate DecidedAt(actions: seq<Action>, k: nat, n: nat, t: nat, pc: Pc) {
    && k < n <= |actions| && pc.Decided?
    && actions[k] == Decide(t, pc.client, pc.room, pc.subscribe, pc.allowed)
    && forall m :: k < m < n ==> actions[m].t != t
  }

  lemma StepDecides(s: State, a: Action, t: nat)
    requires Enabled(s, a)
    ensures a.t != t ==> PcOf(Next(s, a), t) == PcOf(s, t)
    ensures a.t == t && PcOf(Next(s, a), t).Decided? ==>
              var pc := PcOf(Next(s, a), t);
              a == Decide(t, pc.client, pc.room, pc.subscribe, pc.allowed)
    ensures a.Decide? && a.t == t ==> PcOf(Next(s, a), t) == Decided(a.c, a.room, a.subscribe, a.allowed)
  {
    hide Enumerates, Add, Delete, Subscribe;
  }

  lemma {:induction false} DecidedExactly(states: seq<State>, actions: seq<Action>, n: nat, t: nat, pc: Pc)
    requires Run(states, actions) && n < |states| && pc.Decided?
    ensures PcOf(states[n], t) == pc <==> exists k: nat :: DecidedAt(actions, k, n, t, pc)
  {
    hide Next, Enabled;
    if n > 0 {
      var m := n - 1;
      DecidedExactly(states, actions, m, t, pc);
      assert Step(states[n - 1], actions[n - 1], states[n]);
      var a := actions[n - 1];
      StepDecides(states[n - 1], a, t);
      if a.t == t {
        assert a == Decide(t, pc.client, pc.room, pc.subscribe, pc.allowed) ==> DecidedAt(actions, n - 1, n, t, pc);
      } else if k: nat :| DecidedAt(actions, k, n, t, pc) {
        assert DecidedAt(actions, k, m, t, pc);
      } else if k: nat :| DecidedAt(actions, k, m, t, pc) {
        assert DecidedAt(actions, k, n, t, pc);
      }
    }
  }

  // Step k commits a subscription, or the end of one, that was allowed when it was decided.
  ghost predicate Commits(s: State, a: Action, c: Client, room: string, subscribe: bool) {
    && a.Commit? && PcOf(s, a.t).Decided?
    && var pc := PcOf(s, a.t);
       pc.client == c && pc.room == room && pc.subscribe == subscribe && (subscribe ==> pc.allowed)
  }

  lemma StepMembership(s: State, a: Action, c: Client, room: string)
    requires Good(s.data) && Enabled(s, a)
    ensures InRoom(Next(s, a).data, c, room)
       <==> || (Commits(s, a, c, room, true) && Registered(s.data, c))
            || (InRoom(s.data, c, room) && !Unregisters(a, c) && !Commits(s, a, c, room, false))
  {
    hide Enumerates, Add, Delete, Subscribe;
    RegisteredMembers(s.data, c, room);
    match a
    case BeginAdd(_, x) => AddExactly(s.data, x);
    case BeginDelete(_, x) => DeleteKeeps(s.data, x);
    case BeginAttach(_, tracker, _) =>
      assert InRoom(s.data.(tracker := tracker), c, room) <==> InRoom(s.data, c, room);
    case Commit(t) =>
      var pc := PcOf(s, t);
      SubscribeKeeps(s.data, pc.client, pc.room, pc.subscribe, pc.allowed);
    case _ =>
  }

  lemma RegisteredMembers(d: Data, c: Client, room: string)
    requires Good(d)
    ensures InRoom(d, c, room) ==> Registered(d, c) && !d.closed
    ensures Registered(d, c) ==> !d.closed
  {
  }

  ghost predicate MemberSince(states: seq<State>, actions: seq<Action>, k: nat, n: nat, c: Client, room: string)
    requires |states| == |actions| + 1
  {
    && k < n <= |actions| && Commits(states[k], actions[k], c, room, true) && Registered(states[k].data, c)
    && forall m :: k < m < n ==> !Unregisters(actions[m], c) && !Commits(states[m], actions[m], c, room, false)
  }

  // A client is in a room exactly if a subscription of its to the room was committed while it
  // was connected and it has since neither unsubscribed from that room nor gone. In particular no
  // other subscription, of its own or of anybody else, changes that.
  lemma {:induction false} MembershipExactly(states: seq<State>, actions: seq<Action>, n: nat, c: Client, room: string)
    requires Run(states, actions) && n < |states|
    ensures InRoom(states[n].data, c, room) <==> exists k: nat :: MemberSince(states, actions, k, n, c, room)
  {
    hide Next, Enabled, Good, Commits;
    if n > 0 {
      var m := n - 1;
      MembershipExactly(states, actions, m, c, room);
      assert Step(states[n - 1], actions[n - 1], states[n]);
      RoomsOverRuns(states, actions, n - 1);
      var s, a := states[n - 1], actions[n - 1];
      StepMembership(s, a, c, room);
      hide InRoom, Registered;
      if Commits(s, a, c, room, true) && Registered(s.data, c) {
        assert MemberSince(states, actions, n - 1, n, c, room);
      } else if k: nat :| MemberSince(states, actions, k, n, c, room) {
        assert MemberSince(states, actions, k, m, c, room);
      } else if k: nat :| MemberSince(states, actions, k, m, c, room) {
        assert Unregisters(a, c) || Commits(s, a, c, room, false) || MemberSince(states, actions, k, n, c, room);
      }
    }
  }

  // The answer a subscription gets: granted exactly if it was allowed when it was decided and the
  // client is connected now.
  lemma AnswerExactly(states: seq<State>, actions: seq<Action>, n: nat)
    requires Run(states, actions) && n < |actions| && actions[n].Commit?
    ensures var pc, answered := PcOf(states[n], actions[n].t), PcOf(states[n + 1], actions[n].t);
            && pc.Decided? && answered.Answered?
            && answered.client == pc.client && answered.room == pc.room && answered.subscribe == pc.subscribe
            && (answered.granted <==> pc.allowed && Registered(states[n].data, pc.client))
  {
    RoomsOverRuns(states, actions, n);
    assert Step(states[n], actions[n], states[n + 1]);
    var pc := PcOf(states[n], actions[n].t);
    RegisteredMembers(states[n].data, pc.client, pc.room);
    hide Subscribe, Good;
  }

  /* ---------- Whose sockets are closed ---------- */

  // The sockets a thread still has to close.
  function Closing(pc: Pc): seq<Client> {
    match pc
    case Telling(_, _, sockets) => sockets
    case ClosingSockets(sockets) => sockets
    case _ => []
  }

  ghost predicate Doomed(s: State, c: Client) {
    c in s.closedSockets || exists t: nat :: c in Closing(PcOf(s, t))
  }

  // The step turns the client away, replaces it or retires it.
  ghost predicate Condemns(s: State, a: Action, c: Client) {
    || (a.BeginAdd? && s.data.closed && a.c == c)
    || (a.BeginAdd? && !s.data.closed && a.c != c && a.c.id == c.id && Registered(s.data, c))
    || (a.BeginClose? && Registered(s.data, c))
  }

  lemma StepCondemns(s: State, a: Action, c: Client)
    requires Good(s.data) && Enabled(s, a)
    ensures Doomed(Next(s, a), c) <==> Doomed(s, c) || Condemns(s, a, c)
  {
    hide Good, Add, Delete, Subscribe, Enumerates;
    var s' := Next(s, a);
    assert forall u: nat :: u != a.t ==> PcOf(s', u) == PcOf(s, u);
    ClosingAfter(s, a, c);
    if Doomed(s, c) && c !in s.closedSockets {
      var t: nat :| c in Closing(PcOf(s, t));
      assert c in Closing(PcOf(s', t)) || c in s'.closedSockets;
    }
    if Condemns(s, a, c) {
      assert c in Closing(PcOf(s', a.t));
    }
    if Doomed(s', c) && c !in s'.closedSockets {
      var t: nat :| c in Closing(PcOf(s', t));
      assert c in Closing(PcOf(s, t)) || Condemns(s, a, c);
    }
  }

  lemma ConnectedValues(d: Data, c: Client)
    requires Good(d)
    ensures Registered(d, c) <==> c in d.clients.Values
  {
  }

  // What the acting thread has to close, before and after.
  lemma ClosingAfter(s: State, a: Action, c: Client)
    requires Good(s.data) && Enabled(s, a)
    ensures var s' := Next(s, a);
            var before, after := Closing(PcOf(s, a.t)), Closing(PcOf(s', a.t));
            && (c in s'.closedSockets <==> c in s.closedSockets || (a.CloseSocket? && before != [] && before[0] == c))
            && (c in after <==> Condemns(s, a, c)
                                || (c in if a.CloseSocket? && before != [] then before[1..] else before))
  {
    hide Add, Delete, Subscribe;
    match a
    case BeginClose(_, order) =>
      EnumeratesEach(order, s.data);
      hide Enumerates;
      ConnectedValues(s.data, c);
    case CloseSocket(_) =>
      var sockets := PcOf(s, a.t).sockets;
      assert sockets != [] ==> sockets == [sockets[0]] + sockets[1..];
    case _ => hide Enumerates;
  }

  // A socket is closed, or a thread is about to close it, exactly if its client was turned away
  // by a closed server, replaced under its UUID, or connected when the server closed.
  lemma {:induction false} SocketsExactly(states: seq<State>, actions: seq<Action>, n: nat, c: Client)
    requires Run(states, actions) && n < |states|
    ensures Doomed(states[n], c) <==> exists k: nat :: k < n && Condemns(states[k], actions[k], c)
  {
    hide Next, Enabled, Good, Condemns;
    if n > 0 {
      SocketsExactly(states, actions, n - 1, c);
      assert Step(states[n - 1], actions[n - 1], states[n]);
      RoomsOverRuns(states, actions, n - 1);
      StepCondemns(states[n - 1], actions[n - 1], c);
    } else {
      assert states[0] == Init();
    }
  }
}
