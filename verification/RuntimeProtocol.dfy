// The runtime under concurrency: threads interleave at lock boundaries.
//
// `presenceMu` spans several steps: the data section runs under `mu`, then the presence tracker
// is told, then the lock is released. A subscription is decided before it takes `mu`.
module RuntimeProtocol {
  import opened Results
  import opened Runtime

  datatype Call = Remove(client: Client) | Register(client: Client)

  datatype Pc =
    | Idle
    | Telling(tracker: Option<nat>, calls: seq<Call>, sockets: seq<Client>)   // holds presenceMu
    | ClosingSockets(sockets: seq<Client>)
    | Decided(client: Client, room: string, subscribe: bool, allowed: bool)   // authorized, not yet joined
    | Answered(client: Client, room: string, subscribe: bool, granted: bool)

  datatype State = State(
    data: Data,
    presence: map<nat, set<string>>,     // what each tracker believes
    holder: Option<nat>,                 // the thread holding presenceMu
    threads: map<nat, Pc>,
    closedSockets: set<Client>,
    retired: Option<nat>)                // the tracker Close detached

  datatype Action =
    | BeginAdd(t: nat, c: Client)
    | BeginDelete(t: nat, c: Client)
    | BeginClose(t: nat, order: seq<Client>)
    | BeginAttach(t: nat, tracker: Option<nat>, order: seq<Client>)
    | Tell(t: nat)
    | Release(t: nat)
    | CloseSocket(t: nat)
    | Decide(t: nat, c: Client, room: string, subscribe: bool, allowed: bool)
    | Commit(t: nat)
    | Return(t: nat)

  function Init(): State {
    State(Data(map[], map[], map[], false, None), map[], None, map[], {}, None)
  }

  function PcOf(s: State, t: nat): Pc {
    if t in s.threads then s.threads[t] else Idle
  }

  function Present(s: State, tracker: nat): set<string> {
    if tracker in s.presence then s.presence[tracker] else {}
  }

  function ApplyCall(call: Call, ids: set<string>): set<string> {
    match call
    case Remove(c) => ids - {c.id}
    case Register(c) => ids + {c.id}
  }

  // Where a tracker ends up once the remaining calls reach it.
  function Final(calls: seq<Call>, ids: set<string>): set<string>
    decreases |calls|
  {
    if calls == [] then ids else Final(calls[1..], ApplyCall(calls[0], ids))
  }

  function Removals(order: seq<Client>): (calls: seq<Call>)
    ensures |calls| == |order|
  {
    seq(|order|, i requires 0 <= i < |order| => Remove(order[i]))
  }

  function Registrations(order: seq<Client>): (calls: seq<Call>)
    ensures |calls| == |order|
  {
    seq(|order|, i requires 0 <= i < |order| => Register(order[i]))
  }

  function AddCalls(d: Data, c: Client): seq<Call> {
    (if Replaced(d, c).Some? then [Remove(Replaced(d, c).value)] else []) + [Register(c)]
  }

  ghost predicate Enabled(s: State, a: Action) {
    match a
    case BeginAdd(t, _) => PcOf(s, t).Idle? && s.holder.None?
    case BeginDelete(t, _) => PcOf(s, t).Idle? && s.holder.None?
    case BeginClose(t, order) =>
      PcOf(s, t).Idle? && s.holder.None? && !s.data.closed && Enumerates(order, s.data.clients)
    case BeginAttach(t, _, order) => PcOf(s, t).Idle? && s.holder.None? && Enumerates(order, s.data.clients)
    case Tell(t) => PcOf(s, t).Telling? && PcOf(s, t).calls != []
    case Release(t) => PcOf(s, t).Telling? && PcOf(s, t).calls == []
    case CloseSocket(t) => PcOf(s, t).ClosingSockets?
    case Decide(t, _, _, _, _) => PcOf(s, t).Idle?
    case Commit(t) => PcOf(s, t).Decided?
    case Return(t) => PcOf(s, t).Answered? || PcOf(s, t).Decided?   // without a socket nothing is committed
  }

  function Goto(s: State, t: nat, pc: Pc): State {
    s.(threads := s.threads[t := pc])
  }

  // Leave the data section holding presenceMu, with these calls still to make.
  function Hold(s: State, t: nat, d: Data, calls: seq<Call>, sockets: seq<Client>): State {
    Goto(s, t, Telling(s.data.tracker, if s.data.tracker.None? then [] else calls, sockets))
      .(data := d, holder := Some(t))
  }

  ghost function Next(s: State, a: Action): State
    requires Enabled(s, a)
  {
    match a
    case BeginAdd(t, c) =>
      if s.data.closed then Goto(s, t, ClosingSockets([c]))
      else
        Hold(s, t, Add(s.data, c), AddCalls(s.data, c),
             if Replaced(s.data, c).Some? then [Replaced(s.data, c).value] else [])
    case BeginDelete(t, c) =>
      if Registered(s.data, c) then Hold(s, t, Delete(s.data, c), [Remove(c)], [])
      else s.(data := Delete(s.data, c))
    case BeginClose(t, order) =>
      Hold(s, t, Retire(s.data), Removals(order), order).(retired := s.data.tracker)
    case BeginAttach(t, tracker, order) =>
      var attached := s.(data := s.data.(tracker := tracker));
      Hold(attached, t, attached.data, Registrations(order), [])
    case Tell(t) =>
      var pc := PcOf(s, t);
      var told := Goto(s, t, pc.(calls := pc.calls[1..]));
      if pc.tracker.None? then told
      else
        var k := pc.tracker.value;
        told.(presence := s.presence[k := ApplyCall(pc.calls[0], Present(s, k))])
    case Release(t) =>
      Goto(s, t, ClosingSockets(PcOf(s, t).sockets)).(holder := None)
    case CloseSocket(t) =>
      var sockets := PcOf(s, t).sockets;
      if sockets == [] then Goto(s, t, Idle)
      else Goto(s, t, ClosingSockets(sockets[1..])).(closedSockets := s.closedSockets + {sockets[0]})
    case Decide(t, c, room, subscribe, allowed) =>
      Goto(s, t, Decided(c, room, subscribe, allowed))
    case Commit(t) =>
      var pc := PcOf(s, t);
      Goto(s, t, Answered(pc.client, pc.room, pc.subscribe, Answer(s.data, pc.client, pc.allowed)))
        .(data := Subscribe(s.data, pc.client, pc.room, pc.subscribe, pc.allowed))
    case Return(t) => Goto(s, t, Idle)
  }

  ghost predicate Step(s: State, a: Action, s': State) {
    Enabled(s, a) && s' == Next(s, a)
  }

  /* ---------- Runs ---------- */

  ghost predicate Run(states: seq<State>, actions: seq<Action>) {
    && |states| == |actions| + 1
    && states[0] == Init()
    && forall i :: 0 <= i < |actions| ==> Step(states[i], actions[i], states[i + 1])
  }

  /* ---------- Rooms over every interleaving ---------- */

  lemma StepKeepsGood(s: State, a: Action)
    requires Good(s.data) && Enabled(s, a)
    ensures Good(Next(s, a).data)
  {
    hide Good, Add, Delete, Subscribe;
    match a
    case BeginAdd(_, c) => AddKeeps(s.data, c);
    case BeginDelete(_, c) => DeleteKeeps(s.data, c);
    case BeginClose(_, _) => RetiredGood(s.data);
    case BeginAttach(_, tracker, _) => AttachGood(s.data, tracker);
    case Commit(t) =>
      var pc := PcOf(s, t);
      SubscribeKeeps(s.data, pc.client, pc.room, pc.subscribe, pc.allowed);
    case _ =>
  }

  lemma RetiredGood(d: Data)
    ensures Good(Retire(d))
  {
  }

  lemma AttachGood(d: Data, tracker: Option<nat>)
    requires Good(d)
    ensures Good(d.(tracker := tracker))
  {
    assert forall c, room :: InRoom(d.(tracker := tracker), c, room) <==> InRoom(d, c, room);
  }

  lemma {:induction false} RoomsOverRuns(states: seq<State>, actions: seq<Action>, n: nat)
    requires Run(states, actions) && n < |states|
    ensures Good(states[n].data)
  {
    if n > 0 {
      RoomsOverRuns(states, actions, n - 1);
      assert Step(states[n - 1], actions[n - 1], states[n]);
      StepKeepsGood(states[n - 1], actions[n - 1]);
    } else {
      RetiredGood(states[0].data);
    }
  }

  lemma StepKeepsClosed(s: State, a: Action)
    requires s.data.closed && Enabled(s, a)
    ensures Next(s, a).data.closed
  {
  }

  // Once closed, closed for ever: no late client and no late subscription comes back.
  lemma {:induction false} ClosedForever(states: seq<State>, actions: seq<Action>, i: nat, j: nat)
    requires Run(states, actions) && i <= j < |states| && states[i].data.closed
    ensures var d := states[j].data;
            d.closed && d.clients == map[] && d.rooms == map[] && d.clientRooms == map[]
    decreases j
  {
    hide Next, Enabled, Inverse, Registered;
    RoomsOverRuns(states, actions, j);
    if i < j {
      ClosedForever(states, actions, i, j - 1);
      assert Step(states[j - 1], actions[j - 1], states[j]);
      StepKeepsClosed(states[j - 1], actions[j - 1]);
    }
  }

  // A granted subscription is really in the room the moment it is answered, whatever happened
  // since it was authorized; a refused one changed nothing.
  lemma CommitIsTruthful(states: seq<State>, actions: seq<Action>, n: nat)
    requires Run(states, actions) && n < |actions| && actions[n].Commit?
    ensures var s, s', pc := states[n], states[n + 1], PcOf(states[n + 1], actions[n].t);
            && pc.Answered?
            && (pc.granted ==> Registered(s'.data, pc.client) && !s'.data.closed)
            && (pc.subscribe && !pc.granted ==> s'.data == s.data)
            && (forall x, r :: InRoom(s'.data, x, r) <==>
                  if x == pc.client && r == pc.room && (!pc.subscribe || pc.granted) then pc.subscribe
                  else InRoom(s.data, x, r))
  {
    hide Good, Subscribe, InRoom;
    RoomsOverRuns(states, actions, n);
    RoomsOverRuns(states, actions, n + 1);
    assert Step(states[n], actions[n], states[n + 1]);
    var pc := PcOf(states[n], actions[n].t);
    SubscribeKeeps(states[n].data, pc.client, pc.room, pc.subscribe, pc.allowed);
    SubscribeOpen(states[n].data, pc.client, pc.room, pc.subscribe, pc.allowed);
  }

  lemma SubscribeOpen(d: Data, c: Client, room: string, subscribe: bool, allowed: bool)
    ensures Subscribe(d, c, room, subscribe, allowed).closed == d.closed
    ensures Subscribe(d, c, room, subscribe, allowed).tracker == d.tracker
  {
  }

  /* ---------- Presence ---------- */

  ghost predicate LockHeldByTeller(s: State) {
    forall t: nat :: PcOf(s, t).Telling? <==> s.holder == Some(t)
  }

  lemma StepKeepsLock(s: State, a: Action)
    requires LockHeldByTeller(s) && Enabled(s, a)
    ensures LockHeldByTeller(Next(s, a))
    ensures forall u: nat :: u != a.t ==> PcOf(Next(s, a), u) == PcOf(s, u)
  {
    hide Add, Delete, Subscribe, Enumerates;
    var s' := Next(s, a);
    assert forall u: nat :: u != a.t ==> PcOf(s', u) == PcOf(s, u);
    assert PcOf(s, a.t).Telling? <==> s.holder == Some(a.t);
  }

  // What a tracker believes, or will believe once the lock holder has told it everything.
  function Settled(s: State, k: nat): set<string> {
    if s.holder.None? then Present(s, k)
    else
      var pc := PcOf(s, s.holder.value);
      if pc.Telling? && pc.tracker == Some(k) then Final(pc.calls, Present(s, k)) else Present(s, k)
  }

  // Those an attached tracker believes present although they are not connected, after a step:
  // whoever it brings along when it is attached, until they connect.
  function StrangersAfter(s: State, strangers: set<string>, a: Action): set<string> {
    match a
    case BeginAttach(_, Some(k), _) => Present(s, k) - s.data.clients.Keys
    case BeginAttach(_, None, _) => {}
    case BeginClose(_, _) => {}
    case BeginAdd(_, c) => if s.data.closed then strangers else strangers - {c.id}
    case _ => strangers
  }

  function Strangers(states: seq<State>, actions: seq<Action>, n: nat): set<string>
    requires n <= |actions| < |states|
    decreases n
  {
    if n == 0 then {} else StrangersAfter(states[n - 1], Strangers(states, actions, n - 1), actions[n - 1])
  }

  // Those the tracker that Close detached was left with.
  function Leftover(states: seq<State>, actions: seq<Action>, n: nat): set<string>
    requires n <= |actions| < |states|
    decreases n
  {
    if n == 0 then {}
    else if actions[n - 1].BeginClose? then Strangers(states, actions, n - 1)
    else Leftover(states, actions, n - 1)
  }

  ghost predicate PresenceGood(s: State, strangers: set<string>, leftover: set<string>) {
    && Good(s.data)
    && LockHeldByTeller(s)
    && strangers !! s.data.clients.Keys
    && (s.data.tracker.Some? ==> Settled(s, s.data.tracker.value) == s.data.clients.Keys + strangers)
    && (s.retired.Some? ==> s.data.closed && Settled(s, s.retired.value) == leftover)
  }

  function Ids(order: seq<Client>): set<string> {
    set c | c in order :: c.id
  }

  lemma {:induction false} FinalRemovals(order: seq<Client>, ids: set<string>)
    ensures Final(Removals(order), ids) == ids - Ids(order)
    decreases |order|
  {
    if order != [] {
      FinalRemovals(order[1..], ids - {order[0].id});
      assert Removals(order)[1..] == Removals(order[1..]);
      assert order == [order[0]] + order[1..];
    }
  }

  lemma {:induction false} FinalRegistrations(order: seq<Client>, ids: set<string>)
    ensures Final(Registrations(order), ids) == ids + Ids(order)
    decreases |order|
  {
    if order != [] {
      FinalRegistrations(order[1..], ids + {order[0].id});
      assert Registrations(order)[1..] == Registrations(order[1..]);
      assert order == [order[0]] + order[1..];
    }
  }

  lemma EnumeratedIds(order: seq<Client>, d: Data)
    requires Good(d) && Enumerates(order, d.clients)
    ensures Ids(order) == d.clients.Keys
  {
    EnumeratesEach(order, d);
    forall id | id in d.clients.Keys
      ensures id in Ids(order)
    {
      assert d.clients[id] in d.clients.Values;
      assert d.clients[id] in order;
    }
  }

  // Whoever is replaced is told gone before the newcomer is told present.
  lemma FinalAdd(d: Data, c: Client, ids: set<string>)
    requires Good(d)
    ensures Final(AddCalls(d, c), ids) == ids + {c.id}
  {
    if Replaced(d, c).Some? {
      var previous := Replaced(d, c).value;
      assert previous.id == c.id;
      assert AddCalls(d, c) == [Remove(previous), Register(c)];
      assert AddCalls(d, c)[1..] == [Register(c)];
      assert [Register(c)][1..] == [];
      assert Final([Register(c)], ids - {c.id}) == ids - {c.id} + {c.id};
    } else {
      assert AddCalls(d, c) == [Register(c)];
      assert [Register(c)][1..] == [];
    }
  }

  lemma HoldSettles(s: State, t: nat, d: Data, calls: seq<Call>, sockets: seq<Client>, k: nat)
    requires s.holder.None?
    ensures Settled(Hold(s, t, d, calls, sockets), k)
         == if s.data.tracker == Some(k) then Final(calls, Present(s, k)) else Present(s, k)
  {
  }

  lemma HoldLocks(s: State, t: nat, d: Data, calls: seq<Call>, sockets: seq<Client>)
    requires s.holder.None? && LockHeldByTeller(s)
    ensures LockHeldByTeller(Hold(s, t, d, calls, sockets))
  {
    assert forall u: nat :: !PcOf(s, u).Telling?;
  }

  lemma BeginAddPresence(s: State, t: nat, c: Client, l: set<string>, r: set<string>)
    requires PresenceGood(s, l, r) && Enabled(s, BeginAdd(t, c))
    ensures PresenceGood(Next(s, BeginAdd(t, c)), StrangersAfter(s, l, BeginAdd(t, c)), r)
  {
    hide Good, Add, Final, AddCalls;
    AddKeeps(s.data, c);
    if !s.data.closed {
      var calls := AddCalls(s.data, c);
      var sockets := if Replaced(s.data, c).Some? then [Replaced(s.data, c).value] else [];
      HoldLocks(s, t, Add(s.data, c), calls, sockets);
      if s.data.tracker.Some? {
        HoldSettles(s, t, Add(s.data, c), calls, sockets, s.data.tracker.value);
        FinalAdd(s.data, c, Present(s, s.data.tracker.value));
      }
      AddTracker(s.data, c);
    }
  }

  lemma AddTracker(d: Data, c: Client)
    ensures Add(d, c).tracker == d.tracker
  {
  }

  lemma BeginDeletePresence(s: State, t: nat, c: Client, l: set<string>, r: set<string>)
    requires PresenceGood(s, l, r) && Enabled(s, BeginDelete(t, c))
    ensures PresenceGood(Next(s, BeginDelete(t, c)), l, r)
  {
    hide Good;
    DeleteKeeps(s.data, c);
    if Registered(s.data, c) {
      HoldLocks(s, t, Delete(s.data, c), [Remove(c)], []);
      assert [Remove(c)][1..] == [];
      if s.data.tracker.Some? {
        HoldSettles(s, t, Delete(s.data, c), [Remove(c)], [], s.data.tracker.value);
      }
      assert !s.data.closed by {
        if s.data.closed {
          ClosedEmpty(s.data);
        }
      }
    }
  }

  lemma ClosedEmpty(d: Data)
    requires Good(d) && d.closed
    ensures d.clients == map[]
  {
  }

  lemma BeginClosePresence(s: State, t: nat, order: seq<Client>, l: set<string>, r: set<string>)
    requires PresenceGood(s, l, r) && Enabled(s, BeginClose(t, order))
    ensures PresenceGood(Next(s, BeginClose(t, order)), {}, l)
  {
    hide Good, Final, Enumerates;
    RetiredGood(s.data);
    HoldLocks(s, t, Retire(s.data), Removals(order), order);
    if s.data.tracker.Some? {
      var k := s.data.tracker.value;
      HoldSettles(s, t, Retire(s.data), Removals(order), order, k);
      EnumeratedIds(order, s.data);
      FinalRemovals(order, Present(s, k));
    }
  }

  lemma BeginAttachPresence(s: State, t: nat, tracker: Option<nat>, order: seq<Client>, l: set<string>, r: set<string>)
    requires PresenceGood(s, l, r) && Enabled(s, BeginAttach(t, tracker, order))
    ensures PresenceGood(Next(s, BeginAttach(t, tracker, order)),
                         StrangersAfter(s, l, BeginAttach(t, tracker, order)), r)
  {
    hide Good, Final, Enumerates;
    AttachGood(s.data, tracker);
    var attached := s.(data := s.data.(tracker := tracker));
    assert LockHeldByTeller(attached) by {
      assert forall u: nat :: PcOf(attached, u) == PcOf(s, u);
    }
    HoldLocks(attached, t, attached.data, Registrations(order), []);
    EnumeratedIds(order, s.data);
    if tracker.Some? {
      HoldSettles(attached, t, attached.data, Registrations(order), [], tracker.value);
      FinalRegistrations(order, Present(s, tracker.value));
    }
    if s.retired.Some? {
      ClosedEmpty(s.data);
      HoldSettles(attached, t, attached.data, Registrations(order), [], s.retired.value);
      FinalRegistrations(order, Present(s, s.retired.value));
    }
  }

  lemma TellPresence(s: State, t: nat, l: set<string>, r: set<string>)
    requires PresenceGood(s, l, r) && Enabled(s, Tell(t))
    ensures PresenceGood(Next(s, Tell(t)), l, r)
  {
    hide Good;
    var s' := Next(s, Tell(t));
    assert s.holder == Some(t);
    forall k: nat
      ensures Settled(s', k) == Settled(s, k)
    {
    }
    assert forall u: nat :: PcOf(s', u).Telling? <==> PcOf(s, u).Telling?;
  }

  lemma ReleasePresence(s: State, t: nat, l: set<string>, r: set<string>)
    requires PresenceGood(s, l, r) && Enabled(s, Release(t))
    ensures PresenceGood(Next(s, Release(t)), l, r)
  {
    hide Good;
    var s' := Next(s, Release(t));
    assert s.holder == Some(t);
    assert forall u: nat :: PcOf(s', u).Telling? <==> PcOf(s, u).Telling? && u != t;
    forall k: nat
      ensures Settled(s', k) == Settled(s, k)
    {
    }
  }

  // A thread between calls, or inside one that never holds presenceMu.
  lemma OtherPresence(s: State, a: Action, l: set<string>, r: set<string>)
    requires PresenceGood(s, l, r) && Enabled(s, a)
    requires a.CloseSocket? || a.Decide? || a.Commit? || a.Return?
    ensures PresenceGood(Next(s, a), l, r)
  {
    hide Good, Subscribe;
    var s' := Next(s, a);
    assert !PcOf(s, a.t).Telling? && !PcOf(s', a.t).Telling?;
    assert forall u: nat :: u != a.t ==> PcOf(s', u) == PcOf(s, u);
    if a.Commit? {
      var pc := PcOf(s, a.t);
      SubscribeKeeps(s.data, pc.client, pc.room, pc.subscribe, pc.allowed);
      SubscribeOpen(s.data, pc.client, pc.room, pc.subscribe, pc.allowed);
    }
    forall k: nat
      ensures Settled(s', k) == Settled(s, k)
    {
    }
  }

  lemma StepKeepsPresence(s: State, a: Action, l: set<string>, r: set<string>)
    requires PresenceGood(s, l, r) && Enabled(s, a)
    ensures PresenceGood(Next(s, a), StrangersAfter(s, l, a), if a.BeginClose? then l else r)
  {
    hide PresenceGood, Enabled, Next, Present;
    match a
    case BeginAdd(t, c) => BeginAddPresence(s, t, c, l, r);
    case BeginDelete(t, c) => BeginDeletePresence(s, t, c, l, r);
    case BeginClose(t, order) => BeginClosePresence(s, t, order, l, r);
    case BeginAttach(t, tracker, order) => BeginAttachPresence(s, t, tracker, order, l, r);
    case Tell(t) => TellPresence(s, t, l, r);
    case Release(t) => ReleasePresence(s, t, l, r);
    case CloseSocket(_) => OtherPresence(s, a, l, r);
    case Decide(_, _, _, _, _) => OtherPresence(s, a, l, r);
    case Commit(_) => OtherPresence(s, a, l, r);
    case Return(_) => OtherPresence(s, a, l, r);
  }

  lemma {:induction false} PresenceOverRuns(states: seq<State>, actions: seq<Action>, n: nat)
    requires Run(states, actions) && n < |states|
    ensures PresenceGood(states[n], Strangers(states, actions, n), Leftover(states, actions, n))
  {
    hide StrangersAfter, Next, Enabled;
    if n > 0 {
      PresenceOverRuns(states, actions, n - 1);
      assert Step(states[n - 1], actions[n - 1], states[n]);
      StepKeepsPresence(states[n - 1], actions[n - 1], Strangers(states, actions, n - 1),
                        Leftover(states, actions, n - 1));
    } else {
      RetiredGood(states[0].data);
    }
  }

  // Whenever presenceMu is free the attached tracker knows the connected clients and the
  // strangers it brought along, so exactly the connected clients if and only if none are left;
  // the tracker that Close detached knows only the strangers it then had.
  lemma TrackerMatchesClients(states: seq<State>, actions: seq<Action>, n: nat)
    requires Run(states, actions) && n < |states| && states[n].holder.None?
    ensures var s, strangers := states[n], Strangers(states, actions, n);
            && (s.data.tracker.Some? ==>
                  && Present(s, s.data.tracker.value) == s.data.clients.Keys + strangers
                  && (Present(s, s.data.tracker.value) == s.data.clients.Keys <==> strangers == {}))
            && (s.retired.Some? ==> Present(s, s.retired.value) == Leftover(states, actions, n))
  {
    PresenceOverRuns(states, actions, n);
    var s, strangers := states[n], Strangers(states, actions, n);
    if s.data.clients.Keys + strangers == s.data.clients.Keys {
      assert strangers == {} by {
        assert forall id :: id in strangers ==> id in s.data.clients.Keys + strangers;
      }
    }
  }

  // A tracker attached while it believes only connected clients present.
  predicate CleanAttach(s: State, a: Action) {
    a.BeginAttach? && a.tracker.Some? ==> Present(s, a.tracker.value) <= s.data.clients.Keys
  }

  // Without trackers that bring strangers there never are any.
  lemma {:induction false} CleanRunsHaveNoStrangers(states: seq<State>, actions: seq<Action>, n: nat)
    requires Run(states, actions) && n < |states|
    requires forall i :: 0 <= i < n ==> CleanAttach(states[i], actions[i])
    ensures Strangers(states, actions, n) == {} && Leftover(states, actions, n) == {}
  {
    hide Step, Present;
    if n > 0 {
      assert CleanAttach(states[n - 1], actions[n - 1]);
      CleanRunsHaveNoStrangers(states, actions, n - 1);
    }
  }

  // Attaching a tracker settles on the connected clients exactly when it believed in nobody else.
  lemma AttachExact(s: State, t: nat, tracker: nat, order: seq<Client>)
    requires Good(s.data) && Enabled(s, BeginAttach(t, Some(tracker), order))
    ensures var s' := Next(s, BeginAttach(t, Some(tracker), order));
            Settled(s', tracker) == s'.data.clients.Keys <==> CleanAttach(s, BeginAttach(t, Some(tracker), order))
  {
    hide Good, Final, Enumerates;
    var attached := s.(data := s.data.(tracker := Some(tracker)));
    HoldSettles(attached, t, attached.data, Registrations(order), [], tracker);
    EnumeratedIds(order, s.data);
    FinalRegistrations(order, Present(s, tracker));
  }

  /* ---------- A tracker can bring strangers ---------- */

  // A tracker is attached, a client connects, the tracker is detached, the client leaves
  // unnoticed, the tracker is attached again: it goes on believing the client present.
  lemma StaleTracker(c: Client) returns (states: seq<State>, actions: seq<Action>)
    ensures Run(states, actions) && |actions| == 11 && !CleanAttach(states[9], actions[9])
    ensures var s := states[11];
            s.holder.None? && s.data.tracker == Some(0) && Present(s, 0) == {c.id} && s.data.clients.Keys == {}
  {
    NoOrder();
    OneOrder(c);
    hide Enabled, Next, Step, Enumerates, Delete;
    var s1, s2 := Brief(Init(), BeginAttach(0, Some(0), []));
    var s3, s4, s5 := FirstIn(s2, 1, c);
    var s6, s7 := Brief(s5, BeginAttach(2, None, [c]));
    DeletesAlone(s7.data, c);
    var s8, s9 := Brief(s7, BeginDelete(3, c));
    var s10, s11 := Brief(s9, BeginAttach(4, Some(0), []));
    actions := [BeginAttach(0, Some(0), []), Release(0), BeginAdd(1, c), Tell(1), Release(1),
                BeginAttach(2, None, [c]), Release(2), BeginDelete(3, c), Release(3),
                BeginAttach(4, Some(0), []), Release(4)];
    states := [Init(), s1, s2, s3, s4, s5, s6, s7, s8, s9, s10, s11];
  }

  lemma NoOrder()
    ensures Enumerates([], map[])
  {
    assert InOrder([], [], map[]);
  }

  lemma OneOrder(c: Client)
    ensures Enumerates([c], map[c.id := c])
  {
    assert InOrder([c], [c.id], map[c.id := c]);
  }

  // A call that has nothing to tell, from taking presenceMu to releasing it.
  lemma Brief(s: State, a: Action) returns (held: State, released: State)
    requires PcOf(s, a.t).Idle? && s.holder.None?
    requires || (a.BeginAttach? && Enumerates(a.order, s.data.clients) && (a.tracker.None? || a.order == []))
             || (a.BeginDelete? && Registered(s.data, a.c) && s.data.tracker.None?)
    ensures Step(s, a, held) && Step(held, Release(a.t), released)
    ensures released.holder.None? && released.presence == s.presence
    ensures released.data == if a.BeginAttach? then s.data.(tracker := a.tracker) else Delete(s.data, a.c)
    ensures forall u: nat :: u != a.t ==> PcOf(released, u) == PcOf(s, u)
  {
    hide Delete, Enumerates;
    held := Next(s, a);
    assert a.BeginAttach? && a.order == [] ==> Registrations(a.order) == [];
    released := Next(held, Release(a.t));
  }

  // The first client, from taking presenceMu to releasing it.
  lemma FirstIn(s: State, t: nat, c: Client) returns (held: State, told: State, released: State)
    requires PcOf(s, t).Idle? && s.holder.None? && !s.data.closed && s.data.clients == map[]
             && s.data.tracker == Some(0)
    ensures Step(s, BeginAdd(t, c), held) && Step(held, Tell(t), told) && Step(told, Release(t), released)
    ensures released.holder.None? && Present(released, 0) == Present(s, 0) + {c.id}
    ensures released.data == s.data.(clients := map[c.id := c])
    ensures forall u: nat :: u != t ==> PcOf(released, u) == PcOf(s, u)
  {
    AddsAlone(s.data, c);
    hide Add, AddCalls;
    held := Next(s, BeginAdd(t, c));
    told := Next(held, Tell(t));
    assert [Register(c)][1..] == [];
    released := Next(told, Release(t));
  }

  lemma AddsAlone(d: Data, c: Client)
    requires !d.closed && d.clients == map[]
    ensures Add(d, c) == d.(clients := map[c.id := c]) && AddCalls(d, c) == [Register(c)]
  {
    assert d.clients[c.id := c] == map[c.id := c];
  }

  lemma DeletesAlone(d: Data, c: Client)
    requires d.clients == map[c.id := c] && d.rooms == map[] && d.clientRooms == map[]
    ensures Delete(d, c) == d.(clients := map[])
  {
    assert d.clients - {c.id} == map[];
    assert LeaveAll(d, c).rooms == map[] && LeaveAll(d, c).clientRooms == map[];
  }
}
