// The client, room and closing state that typeferry-go/runtime/events.go keeps under `mu`.
module Runtime {
  import opened Results

  // A connection: `ref` is its identity, `id` the UUID it announced.
  datatype Client = Client(ref: nat, id: string)

  datatype Data = Data(
    clients: map<string, Client>,
    rooms: map<string, set<Client>>,
    clientRooms: map<Client, set<string>>,
    closed: bool,
    tracker: Option<nat>)

  /* ---------- What every lock-held section keeps ---------- */

  ghost predicate InRoom(d: Data, c: Client, room: string) {
    room in d.rooms && c in d.rooms[room]
  }

  ghost predicate Inverse(d: Data) {
    && (forall room, c :: InRoom(d, c, room) <==> c in d.clientRooms && room in d.clientRooms[c])
    && (forall room :: room in d.rooms ==> d.rooms[room] != {})
    && (forall c :: c in d.clientRooms ==> d.clientRooms[c] != {})
  }

  predicate Registered(d: Data, c: Client) {
    c.id in d.clients && d.clients[c.id] == c
  }

  ghost predicate Good(d: Data) {
    && Inverse(d)
    && (forall c :: c in d.clientRooms ==> Registered(d, c))
    && (forall id :: id in d.clients ==> d.clients[id].id == id)
    && (d.closed ==> d.clients == map[] && d.rooms == map[] && d.clientRooms == map[])
  }

  ghost predicate Nowhere(d: Data, c: Client) {
    !Registered(d, c) && c !in d.clientRooms && forall room :: !InRoom(d, c, room)
  }

  /* ---------- Lock-held sections as functions ---------- */

  function Members(d: Data, room: string): set<Client> {
    if room in d.rooms then d.rooms[room] else {}
  }

  function RoomsOf(d: Data, c: Client): set<string> {
    if c in d.clientRooms then d.clientRooms[c] else {}
  }

  function Join(d: Data, c: Client, room: string): Data {
    d.(rooms := d.rooms[room := Members(d, room) + {c}],
       clientRooms := d.clientRooms[c := RoomsOf(d, c) + {room}])
  }

  function Leave(d: Data, c: Client, room: string): Data {
    var members, rooms := Members(d, room) - {c}, RoomsOf(d, c) - {room};
    d.(rooms := if members == {} then d.rooms - {room} else d.rooms[room := members],
       clientRooms := if rooms == {} then d.clientRooms - {c} else d.clientRooms[c := rooms])
  }

  // The client leaves every room at once.
  function LeaveAll(d: Data, c: Client): Data {
    d.(rooms := map room | room in d.rooms && d.rooms[room] - {c} != {} :: d.rooms[room] - {c},
       clientRooms := d.clientRooms - {c})
  }

  function Replaced(d: Data, c: Client): Option<Client> {
    if c.id in d.clients && d.clients[c.id] != c then Some(d.clients[c.id]) else None
  }

  function Add(d: Data, c: Client): Data {
    if d.closed then d
    else
      var added := d.(clients := d.clients[c.id := c]);
      match Replaced(d, c)
      case Some(previous) => LeaveAll(added, previous)
      case None => added
  }

  function Delete(d: Data, c: Client): Data {
    var left := LeaveAll(d, c);
    if Registered(d, c) then left.(clients := d.clients - {c.id}) else left
  }

  function Retire(d: Data): Data {
    Data(map[], map[], map[], true, None)
  }

  // The answer to one subscription, given the decision taken before the lock.
  predicate Answer(d: Data, c: Client, allowed: bool) {
    allowed && !d.closed && Registered(d, c)
  }

  function Subscribe(d: Data, c: Client, room: string, subscribe: bool, allowed: bool): Data {
    if !subscribe then Leave(d, c, room)
    else if Answer(d, c, allowed) then Join(d, c, room)
    else d
  }

  // The clients one by one, under the identifiers `ids`.
  ghost predicate InOrder(order: seq<Client>, ids: seq<string>, clients: map<string, Client>) {
    && |ids| == |order|
    && (forall i, j :: 0 <= i < j < |ids| ==> ids[i] != ids[j])
    && (forall id :: id in ids <==> id in clients)
    && (forall i :: 0 <= i < |ids| ==> ids[i] in clients && order[i] == clients[ids[i]])
  }

  // Every client once, in some order.
  ghost predicate Enumerates(order: seq<Client>, clients: map<string, Client>) {
    exists ids :: InOrder(order, ids, clients)
  }

  lemma EnumeratesEach(order: seq<Client>, d: Data)
    requires Enumerates(order, d.clients) && Good(d)
    ensures forall c :: c in order <==> c in d.clients.Values
    ensures forall i, j :: 0 <= i < j < |order| ==> order[i].id != order[j].id
  {
    hide Inverse;
    var ids :| InOrder(order, ids, d.clients);
    forall id | id in d.clients
      ensures d.clients[id] in order
    {
      var i :| 0 <= i < |ids| && ids[i] == id;
      assert order[i] == d.clients[id];
    }
  }

  /* ---------- Each section keeps the invariant ---------- */

  lemma JoinKeeps(d: Data, c: Client, room: string)
    requires Good(d) && Registered(d, c) && !d.closed
    ensures Good(Join(d, c, room))
    ensures forall x, r :: InRoom(Join(d, c, room), x, r) <==> InRoom(d, x, r) || (x == c && r == room)
  {
    var d' := Join(d, c, room);
    forall r, x
      ensures InRoom(d', x, r) <==> x in d'.clientRooms && r in d'.clientRooms[x]
      ensures InRoom(d', x, r) <==> InRoom(d, x, r) || (x == c && r == room)
    {
      assert InRoom(d, x, r) <==> x in d.clientRooms && r in d.clientRooms[x];
    }
  }

  lemma LeaveRooms(d: Data, c: Client, room: string)
    requires Inverse(d)
    ensures Inverse(Leave(d, c, room))
    ensures forall r, x :: InRoom(Leave(d, c, room), x, r) <==> InRoom(d, x, r) && !(x == c && r == room)
    ensures RoomsOf(Leave(d, c, room), c) == RoomsOf(d, c) - {room}
  {
    var d' := Leave(d, c, room);
    forall r, x
      ensures InRoom(d', x, r) <==> InRoom(d, x, r) && !(x == c && r == room)
      ensures x in d'.clientRooms && r in d'.clientRooms[x] <==> InRoom(d, x, r) && !(x == c && r == room)
    {
      assert InRoom(d, x, r) <==> x in d.clientRooms && r in d.clientRooms[x];
      assert x in Members(d, room) - {c} <==> x in Members(d, room) && x != c;
      assert r in RoomsOf(d, c) - {room} <==> r in RoomsOf(d, c) && r != room;
    }
  }

  lemma LeaveKeeps(d: Data, c: Client, room: string)
    requires Good(d)
    ensures Good(Leave(d, c, room)) && !InRoom(Leave(d, c, room), c, room)
  {
    LeaveRooms(d, c, room);
  }

  lemma LeaveAllRooms(d: Data, c: Client)
    requires Inverse(d)
    ensures Inverse(LeaveAll(d, c))
    ensures c !in LeaveAll(d, c).clientRooms
    ensures forall room, x :: InRoom(LeaveAll(d, c), x, room) <==> InRoom(d, x, room) && x != c
  {
    var d' := LeaveAll(d, c);
    forall r, x
      ensures InRoom(d', x, r) <==> InRoom(d, x, r) && x != c
      ensures x in d'.clientRooms && r in d'.clientRooms[x] <==> InRoom(d, x, r) && x != c
    {
      if InRoom(d, x, r) && x != c {
        assert x in d.rooms[r] - {c};
      }
      assert InRoom(d, x, r) <==> x in d.clientRooms && r in d.clientRooms[x];
    }
  }

  lemma AddKeeps(d: Data, c: Client)
    requires Good(d)
    ensures Good(Add(d, c)) && (!d.closed ==> Registered(Add(d, c), c))
    ensures Add(d, c).clients.Keys == if d.closed then {} else d.clients.Keys + {c.id}
    ensures Replaced(d, c).Some? ==> Nowhere(Add(d, c), Replaced(d, c).value)
  {
    hide LeaveAll;
    if !d.closed && Replaced(d, c).Some? {
      var added := d.(clients := d.clients[c.id := c]);
      var previous := Replaced(d, c).value;
      assert Inverse(added) by {
        assert forall r, x :: InRoom(added, x, r) <==> InRoom(d, x, r);
      }
      LeaveAllRooms(added, previous);
      LeaveAllFrame(added, previous);
      var d' := Add(d, c);
      forall x | x in d'.clientRooms
        ensures Registered(d', x)
      {
        assert x in d.clientRooms && x != previous;
      }
    } else if !d.closed {
      assert forall r, x :: InRoom(Add(d, c), x, r) <==> InRoom(d, x, r);
    }
  }

  // Adding replaces whoever had the UUID and touches nobody else.
  lemma AddExactly(d: Data, c: Client)
    requires Good(d)
    ensures d.closed ==> Add(d, c) == d
    ensures !d.closed ==> forall x :: Registered(Add(d, c), x) <==> x == c || (Registered(d, x) && x.id != c.id)
    ensures !d.closed ==>
              forall x, r :: InRoom(Add(d, c), x, r) <==> InRoom(d, x, r) && (x == c || x.id != c.id)
    ensures Add(d, c).closed == d.closed && Add(d, c).tracker == d.tracker
  {
    if !d.closed {
      var added := d.(clients := d.clients[c.id := c]);
      assert forall r, x :: InRoom(added, x, r) <==> InRoom(d, x, r);
      forall x, r | InRoom(d, x, r)
        ensures Registered(d, x)
      {
      }
      if Replaced(d, c).Some? {
        assert Inverse(added);
        LeaveAllRooms(added, Replaced(d, c).value);
      }
    }
  }

  lemma LeaveAllFrame(d: Data, c: Client)
    ensures var d' := LeaveAll(d, c);
            && d'.clients == d.clients && d'.closed == d.closed && d'.tracker == d.tracker
            && d'.clientRooms == d.clientRooms - {c}
            && (d.rooms == map[] ==> d'.rooms == map[])
  {
  }

  lemma DeleteKeeps(d: Data, c: Client)
    requires Good(d)
    ensures Good(Delete(d, c)) && Nowhere(Delete(d, c), c)
    ensures forall x :: Registered(Delete(d, c), x) <==> Registered(d, x) && x != c
    ensures forall x, room :: InRoom(Delete(d, c), x, room) <==> InRoom(d, x, room) && x != c
    ensures Delete(d, c).closed == d.closed && Delete(d, c).tracker == d.tracker
  {
    hide LeaveAll;
    LeaveAllRooms(d, c);
    LeaveAllFrame(d, c);
    var left, d' := LeaveAll(d, c), Delete(d, c);
    assert forall room, x :: InRoom(d', x, room) <==> InRoom(left, x, room);
    if d.closed {
      assert d.clientRooms - {c} == map[];
    }
  }

  lemma SubscribeKeeps(d: Data, c: Client, room: string, subscribe: bool, allowed: bool)
    requires Good(d)
    ensures Good(Subscribe(d, c, room, subscribe, allowed))
    ensures subscribe && !Answer(d, c, allowed) ==> Subscribe(d, c, room, subscribe, allowed) == d
    ensures subscribe ==>
              forall x, r :: InRoom(Subscribe(d, c, room, subscribe, allowed), x, r)
                             <==> InRoom(d, x, r)
                                  || (x == c && r == room && allowed && !d.closed && Registered(d, c))
    ensures !subscribe ==>
              forall x, r :: InRoom(Subscribe(d, c, room, subscribe, allowed), x, r)
                             <==> InRoom(d, x, r) && !(x == c && r == room)
    ensures Subscribe(d, c, room, subscribe, allowed).clients == d.clients
  {
    hide Leave, Join;
    if !subscribe {
      LeaveKeeps(d, c, room);
      LeaveRooms(d, c, room);
      LeaveFrame(d, c, room);
    } else if Answer(d, c, allowed) {
      JoinKeeps(d, c, room);
      JoinFrame(d, c, room);
    }
  }

  lemma LeaveFrame(d: Data, c: Client, room: string)
    ensures Leave(d, c, room).clients == d.clients
  {
  }

  lemma JoinFrame(d: Data, c: Client, room: string)
    ensures Join(d, c, room).clients == d.clients
  {
  }

  // A stale close callback leaves its replacement in place, rooms included.
  lemma StaleDeleteKeepsReplacement(d: Data, stale: Client, live: Client)
    requires Good(d) && Registered(d, live) && stale != live && stale.id == live.id
    ensures Delete(d, stale) == d
  {
    assert stale !in d.clientRooms;
    forall room | room in d.rooms
      ensures d.rooms[room] - {stale} == d.rooms[room]
    {
      assert !InRoom(d, stale, room);
    }
    assert LeaveAll(d, stale).rooms == d.rooms;
    assert LeaveAll(d, stale).clientRooms == d.clientRooms;
  }

  /* ---------- The sections as the server runs them ---------- */

  class Server {
    var clients: map<string, Client>
    var rooms: map<string, set<Client>>
    var clientRooms: map<Client, set<string>>
    var closed: bool
    var presenceTracker: Option<nat>

    ghost function View(): Data
      reads this
    {
      Data(clients, rooms, clientRooms, closed, presenceTracker)
    }

    constructor ()
      ensures View() == Data(map[], map[], map[], false, None)
    {
      clients, rooms, clientRooms, closed, presenceTracker := map[], map[], map[], false, None;
    }

    method JoinLocked(client: Client, room: string)
      modifies this
      ensures View() == Join(old(View()), client, room)
    {
      if room !in rooms {
        rooms := rooms[room := {}];
      }
      rooms := rooms[room := rooms[room] + {client}];
      if client !in clientRooms {
        clientRooms := clientRooms[client := {}];
      }
      clientRooms := clientRooms[client := clientRooms[client] + {room}];
    }

    method LeaveLocked(client: Client, room: string)
      modifies this
      ensures View() == Leave(old(View()), client, room)
    {
      if room in rooms {
        rooms := rooms[room := rooms[room] - {client}];
      }
      if room !in rooms || rooms[room] == {} {
        rooms := rooms - {room};
      }
      if client in clientRooms {
        clientRooms := clientRooms[client := clientRooms[client] - {room}];
      }
      if client !in clientRooms || clientRooms[client] == {} {
        clientRooms := clientRooms - {client};
      }
    }

    method LeaveAllLocked(client: Client)
      requires Inverse(View())
      modifies this
      ensures View() == LeaveAll(old(View()), client)
    {
      var pending := if client in clientRooms then clientRooms[client] else {};
      ghost var start := View();
      while pending != {}
        invariant Inverse(View())
        invariant pending == RoomsOf(View(), client)
        invariant clients == start.clients && closed == start.closed && presenceTracker == start.tracker
        invariant LeaveAll(View(), client) == LeaveAll(start, client)
        decreases |pending|
      {
        var room :| room in pending;
        ghost var before := View();
        LeaveLocked(client, room);
        LeaveRooms(before, client, room);
        LeaveOne(before, client, room);
        pending := pending - {room};
      }
      LeftAll(View(), client);
    }

    method AddClient(client: Client) returns (previous: Option<Client>)
      requires Good(View())
      modifies this
      ensures View() == Add(old(View()), client)
      ensures previous == if old(closed) then None else Replaced(old(View()), client)
    {
      if closed {
        return None;
      }
      previous := if client.id in clients then Some(clients[client.id]) else None;
      clients := clients[client.id := client];
      if previous.Some? && previous.value != client {
        assert forall r, x :: InRoom(View(), x, r) <==> InRoom(old(View()), x, r);
        LeaveAllLocked(previous.value);
      } else {
        previous := None;
      }
    }

    method DeleteClient(client: Client) returns (removed: bool)
      requires Good(View())
      modifies this
      ensures View() == Delete(old(View()), client)
      ensures removed == Registered(old(View()), client)
    {
      LeaveAllLocked(client);
      if client.id !in clients || clients[client.id] != client {
        return false;
      }
      clients := clients - {client.id};
      return true;
    }

    // In the order the map yields them.
    method ClientSnapshot() returns (snapshot: seq<Client>)
      ensures Enumerates(snapshot, clients)
    {
      snapshot := [];
      var ids := clients.Keys;
      ghost var done: seq<string> := [];
      while ids != {}
        invariant ids <= clients.Keys && |done| == |snapshot|
        invariant forall i, j :: 0 <= i < j < |done| ==> done[i] != done[j]
        invariant forall id :: id in done <==> id in clients.Keys - ids
        invariant forall i :: 0 <= i < |done| ==> done[i] in clients && snapshot[i] == clients[done[i]]
        decreases |ids|
      {
        var id :| id in ids;
        snapshot := snapshot + [clients[id]];
        assert id !in done;
        done := done + [id];
        ids := ids - {id};
      }
      assert InOrder(snapshot, done, clients);
    }

    method SetPresenceTracker(tracker: Option<nat>) returns (present: seq<Client>)
      modifies this
      ensures View() == old(View()).(tracker := tracker)
      ensures Enumerates(present, clients)
    {
      presenceTracker := tracker;
      present := ClientSnapshot();
    }

    method Close() returns (retired: seq<Client>, tracker: Option<nat>)
      modifies this
      ensures View() == Retire(old(View()))
      ensures tracker == old(presenceTracker)
      ensures Enumerates(retired, old(clients))
    {
      closed := true;
      retired := ClientSnapshot();
      clients, rooms, clientRooms := map[], map[], map[];
      tracker := presenceTracker;
      presenceTracker := None;
    }

    method CommitSubscription(client: Client, room: string, subscribe: bool, decided: bool) returns (allowed: bool)
      modifies this
      ensures View() == Subscribe(old(View()), client, room, subscribe, decided)
      ensures allowed == Answer(old(View()), client, decided)
    {
      allowed := decided;
      if closed || client.id !in clients || clients[client.id] != client {
        allowed := false;
      }
      if subscribe && allowed {
        JoinLocked(client, room);
      }
      if !subscribe {
        LeaveLocked(client, room);
      }
    }
  }

  // Leaving one room first does not change where leaving all of them ends.
  lemma LeaveOne(d: Data, c: Client, room: string)
    ensures LeaveAll(Leave(d, c, room), c) == LeaveAll(d, c)
  {
    var d' := Leave(d, c, room);
    forall r
      ensures r in d'.rooms && d'.rooms[r] - {c} != {} <==> r in d.rooms && d.rooms[r] - {c} != {}
      ensures r in d'.rooms && r in d.rooms ==> d'.rooms[r] - {c} == d.rooms[r] - {c}
    {
    }
    assert LeaveAll(d', c).rooms == LeaveAll(d, c).rooms;
    assert LeaveAll(d', c).clientRooms == LeaveAll(d, c).clientRooms;
  }

  lemma LeftAll(d: Data, c: Client)
    requires Inverse(d) && RoomsOf(d, c) == {}
    ensures LeaveAll(d, c) == d
  {
    assert c !in d.clientRooms;
    forall room | room in d.rooms
      ensures d.rooms[room] - {c} == d.rooms[room]
    {
      assert !InRoom(d, c, room);
    }
    assert LeaveAll(d, c).rooms == d.rooms;
    assert LeaveAll(d, c).clientRooms == d.clientRooms;
  }
}
