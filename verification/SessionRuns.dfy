// The session table over whole runs: every family is one rotation chain, revocation is
// permanent, and refreshing is a function of the token.
module SessionRuns {
  import opened Results
  import opened Sessions

  datatype Place = Place(family: string, index: nat)

  // The table, and the history the theorems speak of: the tokens each family was ever issued,
  // in order, and the tokens ever revoked.
  datatype State = State(
    table: Table,
    chains: map<string, seq<string>>,
    places: map<string, Place>,
    owners: map<string, string>,
    ids: set<string>,
    revokedEver: set<string>,
    clock: int)

  datatype Action =
    | Create(user: string, family: string, device: string, new_: Fresh, created: int, paired: int)
    | Rotate(token: string, device: string, new_: Fresh, at: Times)
    | RevokeSession(id: string)
    | RevokeWholeFamily(family: string)
    | RevokeUser(user: string, except: string)
    | Clean(reading: string -> int, finished: int)
    | Close

  function Init(clock: int): State {
    State(map[], map[], map[], map[], {}, {}, clock)
  }

  ghost predicate Enabled(s: State, a: Action) {
    match a
    case Create(user, family, _, new_, created, paired) =>
      user != "" && family !in s.chains && new_.token !in s.places && new_.id !in s.ids && s.clock <= created <= paired
    case Rotate(_, _, new_, at) =>
      new_.token !in s.places && new_.id !in s.ids && s.clock <= at.checked <= at.created <= at.paired <= at.used
    case Clean(reading, finished) => s.clock <= finished && forall t :: s.clock <= reading(t) <= finished
    case _ => true
  }

  function RevokedIn(table: Table): set<string> {
    set t | t in table && table[t].revoked
  }

  // A refresh that issues a new token.
  predicate Extends(s: State, a: Action) {
    a.Rotate? && !Unavailable(s.table, a.token, a.at.checked) && s.table[a.token].replacedBy.None?
  }

  function TableAfter(g: Config, s: State, a: Action): Table {
    match a
    case Create(user, family, device, new_, created, _) =>
      s.table[new_.token := NewSession(g, user, family, device, new_.token, new_.id, created)]
    case Rotate(token, device, new_, at) => Refresh(g, s.table, token, device, new_, at).table
    case RevokeSession(id) => RevokeOne(s.table, id)
    case RevokeWholeFamily(family) => RevokeFamily(s.table, family)
    case RevokeUser(user, except) => RevokeAll(s.table, user, except)
    case Clean(reading, _) => Cleanup(s.table, reading)
    case Close => map[]
  }

  function ClockAfter(s: State, a: Action): int {
    match a
    case Create(_, _, _, _, _, paired) => paired
    case Rotate(_, _, _, at) => at.used
    case Clean(_, finished) => finished
    case _ => s.clock
  }

  // Record a token as the newest of its family.
  function Issue(s: State, family: string, user: string, new_: Fresh): State {
    var chain := if family in s.chains then s.chains[family] else [];
    s.(chains := s.chains[family := chain + [new_.token]],
       places := s.places[new_.token := Place(family, |chain|)],
       owners := s.owners[family := user],
       ids := s.ids + {new_.id})
  }

  function Next(g: Config, s: State, a: Action): State {
    var table := TableAfter(g, s, a);
    var recorded :=
      if a.Create? then Issue(s, a.family, a.user, a.new_)
      else if Extends(s, a) then Issue(s, s.table[a.token].family, s.table[a.token].user, a.new_)
      else s;
    recorded.(table := table, revokedEver := s.revokedEver + RevokedIn(table), clock := ClockAfter(s, a))
  }

  function Answer(g: Config, s: State, a: Action): Option<TokenPair> {
    if a.Rotate? then Refresh(g, s.table, a.token, a.device, a.new_, a.at).answer else None
  }

  ghost predicate Run(g: Config, states: seq<State>, actions: seq<Action>) {
    && g.refreshExpiry > 0 && g.grace >= 0
    && |states| == |actions| + 1
    && states[0] == Init(states[0].clock)
    && forall i :: 0 <= i < |actions|
                   ==> Enabled(states[i], actions[i]) && states[i + 1] == Next(g, states[i], actions[i])
  }

  /* ---------- Invariant ---------- */

  // Chains and places say the same, so no token occurs twice.
  ghost predicate History(s: State) {
    && (forall t :: t in s.places ==>
          var p := s.places[t];
          p.family in s.chains && p.index < |s.chains[p.family]| && s.chains[p.family][p.index] == t)
    && (forall f, i :: f in s.chains && 0 <= i < |s.chains[f]| ==>
          s.chains[f][i] in s.places && s.places[s.chains[f][i]] == Place(f, i))
    && s.chains.Keys == s.owners.Keys
  }

  function Successor(s: State, t: string): Option<string> {
    if t in s.places && s.places[t].family in s.chains && s.places[t].index + 1 < |s.chains[s.places[t].family]|
    then Some(s.chains[s.places[t].family][s.places[t].index + 1])
    else None
  }

  predicate InPlace(s: State, t: string, x: Session) {
    && t in s.places && x.token == t && x.family == s.places[t].family
    && x.family in s.owners && x.user == s.owners[x.family]
    && x.replacedBy == Successor(s, t)
    && x.id in s.ids
  }

  ghost predicate Linked(s: State) {
    && (forall t :: t in s.table ==> InPlace(s, t, s.table[t]))
    && (forall t, u :: t in s.table && u in s.table && s.table[t].id == s.table[u].id ==> t == u)
  }

  ghost predicate Timed(g: Config, s: State) {
    && (forall t :: t in s.table ==> s.table[t].expiration <= s.clock + g.refreshExpiry)
    && (forall t, u :: t in s.table && u in s.table && s.table[t].replacedBy == Some(u) ==>
          s.table[t].expiration <= s.table[u].expiration)
  }

  ghost predicate Kept(s: State) {
    && (forall t :: t in s.table && s.table[t].revoked ==> t in s.revokedEver)
    && (forall t :: t in s.table && s.table[t].replacedBy.Some? && s.table[t].replacedBy.value !in s.table ==>
          s.table[t].replacedBy.value in s.revokedEver || s.clock >= s.table[t].expiration)
  }

  ghost predicate Sound(g: Config, s: State) {
    History(s) && Linked(s) && Timed(g, s) && Kept(s)
  }

  /* ---------- Revocation only sets flags ---------- */

  ghost predicate OnlyRevoked(before: Table, after: Table) {
    && after.Keys == before.Keys
    && forall t :: t in before ==> after[t] == before[t] || after[t] == before[t].(revoked := true)
  }

  lemma RevokeWhereFlags(table: Table, hit: Session -> bool)
    ensures OnlyRevoked(table, RevokeWhere(table, hit))
  {
  }

  ghost predicate SameHistory(s: State, s': State) {
    s'.chains == s.chains && s'.places == s.places && s'.owners == s.owners && s'.ids == s.ids
  }

  lemma HistoryStays(s: State, s': State)
    requires History(s) && SameHistory(s, s')
    ensures History(s')
  {
  }

  lemma PlaceStays(s: State, s': State, t: string, x: Session, y: Session)
    requires SameHistory(s, s') && InPlace(s, t, x) && (y == x || y == x.(revoked := true))
    ensures InPlace(s', t, y)
  {
  }

  lemma FlagsKeepLinked(s: State, s': State)
    requires Linked(s) && OnlyRevoked(s.table, s'.table) && SameHistory(s, s')
    ensures Linked(s')
  {
    hide InPlace, SameHistory;
    forall t | t in s'.table
      ensures InPlace(s', t, s'.table[t])
    {
      PlaceStays(s, s', t, s.table[t], s'.table[t]);
    }
  }

  lemma FlagsKeepTimed(g: Config, s: State, s': State)
    requires Timed(g, s) && OnlyRevoked(s.table, s'.table) && s.clock <= s'.clock
    ensures Timed(g, s')
  {
  }

  lemma FlagsKeepKept(s: State, s': State)
    requires Kept(s) && OnlyRevoked(s.table, s'.table) && s.clock <= s'.clock
    requires s'.revokedEver == s.revokedEver + RevokedIn(s'.table)
    ensures Kept(s')
  {
  }

  lemma FlagsKeep(g: Config, s: State, s': State)
    requires Sound(g, s) && OnlyRevoked(s.table, s'.table)
    requires s.clock <= s'.clock
    requires s' == s.(table := s'.table, revokedEver := s.revokedEver + RevokedIn(s'.table), clock := s'.clock)
    ensures Sound(g, s')
  {
    hide History, Linked, Timed, Kept, OnlyRevoked, RevokedIn;
    HistoryStays(s, s');
    FlagsKeepLinked(s, s');
    FlagsKeepTimed(g, s, s');
    FlagsKeepKept(s, s');
  }

  /* ---------- Issuing ---------- */

  lemma IssuePlaces(s: State, family: string, user: string, new_: Fresh)
    requires History(s) && new_.token !in s.places
    ensures var s' := Issue(s, family, user, new_);
            && (forall t :: t in s'.places ==>
                  var p := s'.places[t];
                  p.family in s'.chains && p.index < |s'.chains[p.family]| && s'.chains[p.family][p.index] == t)
            && Successor(s', new_.token).None?
  {
  }

  lemma IssueChains(s: State, family: string, user: string, new_: Fresh)
    requires History(s) && new_.token !in s.places
    ensures var s' := Issue(s, family, user, new_);
            forall f, i :: f in s'.chains && 0 <= i < |s'.chains[f]| ==>
              s'.chains[f][i] in s'.places && s'.places[s'.chains[f][i]] == Place(f, i)
  {
    var s' := Issue(s, family, user, new_);
    forall f, i | f in s'.chains && 0 <= i < |s'.chains[f]|
      ensures s'.chains[f][i] in s'.places && s'.places[s'.chains[f][i]] == Place(f, i)
    {
      if f in s.chains && i < |s.chains[f]| {
        assert s'.chains[f][i] == s.chains[f][i];
      }
    }
  }

  lemma IssueHistory(s: State, family: string, user: string, new_: Fresh)
    requires History(s) && new_.token !in s.places
    ensures History(Issue(s, family, user, new_))
  {
    IssuePlaces(s, family, user, new_);
    IssueChains(s, family, user, new_);
  }

  // Only the last token of the family gets a new successor.
  lemma IssueSuccessors(s: State, family: string, user: string, new_: Fresh, t: string)
    requires History(s) && new_.token !in s.places && t in s.places
    ensures var s' := Issue(s, family, user, new_);
            Successor(s', t)
            == if s.places[t].family == family && Successor(s, t).None? then Some(new_.token) else Successor(s, t)
  {
    var p := s.places[t];
    assert s.chains[p.family][p.index] == t;
  }

  // A family has one last token.
  lemma LastIsUnique(s: State, t: string, u: string)
    requires History(s) && t in s.places && u in s.places && s.places[t].family == s.places[u].family
    requires Successor(s, t).None? && Successor(s, u).None?
    ensures t == u
  {
  }

  // After issuing a token, an older session is in place if its link was updated when it was last.
  lemma PlaceAfterIssue(s: State, family: string, user: string, new_: Fresh, t: string, x: Session, y: Session)
    requires History(s) && new_.token !in s.places && InPlace(s, t, x)
    requires family in s.owners ==> s.owners[family] == user
    requires y.(replacedBy := x.replacedBy, usedAt := x.usedAt) == x
    requires y.replacedBy == if x.family == family && x.replacedBy.None? then Some(new_.token) else x.replacedBy
    ensures InPlace(Issue(s, family, user, new_), t, y)
  {
    IssueSuccessors(s, family, user, new_, t);
    hide Successor;
  }

  lemma NewInPlace(g: Config, s: State, family: string, user: string, device: string, new_: Fresh, now: int)
    requires History(s) && new_.token !in s.places
    ensures InPlace(Issue(s, family, user, new_), new_.token,
                    NewSession(g, user, family, device, new_.token, new_.id, now))
  {
    IssuePlaces(s, family, user, new_);
    hide Successor;
  }

  // The session just issued, the table it went into, and the session it replaces, if any.
  ghost predicate Grown(s: State, table: Table, n: Session, replaced: Option<string>) {
    && n.token !in s.table && table.Keys == s.table.Keys + {n.token} && table[n.token] == n
    && (forall t :: t in s.table && replaced != Some(t) ==> table[t] == s.table[t])
    && (replaced.Some? ==>
          && replaced.value in s.table && s.table[replaced.value].replacedBy.None?
          && table[replaced.value].(usedAt := s.table[replaced.value].usedAt)
             == s.table[replaced.value].(replacedBy := Some(n.token)))
    && n.replacedBy.None? && !n.revoked && n.id !in s.ids && n.token !in s.places
  }

  lemma GrownLinked(g: Config, s: State, s': State, family: string, user: string, new_: Fresh, n: Session,
                    replaced: Option<string>)
    requires History(s) && Linked(s) && Grown(s, s'.table, n, replaced)
    requires n.token == new_.token && n.id == new_.id && n.family == family && n.user == user
    requires SameHistory(Issue(s, family, user, new_), s')
    requires family in s.owners ==> s.owners[family] == user
    requires replaced.Some? ==> s.table[replaced.value].family == family
    requires replaced.None? ==> family !in s.chains
    requires InPlace(Issue(s, family, user, new_), new_.token, n)
    ensures Linked(s')
  {
    hide InPlace, History;
    var issued := Issue(s, family, user, new_);
    forall t | t in s.table
      ensures InPlace(s', t, s'.table[t])
    {
      var x, y := s.table[t], s'.table[t];
      OldLinks(s, family, t, replaced);
      PlaceAfterIssue(s, family, user, new_, t, x, y);
      PlaceStays(issued, s', t, y, y);
    }
    PlaceStays(issued, s', n.token, n, n);
    IdsRecorded(s);
  }

  lemma IdsRecorded(s: State)
    requires Linked(s)
    ensures forall t :: t in s.table ==> s.table[t].id in s.ids
  {
    assert forall t :: t in s.table ==> InPlace(s, t, s.table[t]);
  }

  // The only unreplaced session of the family is the one being replaced.
  lemma OldLinks(s: State, family: string, t: string, replaced: Option<string>)
    requires History(s) && Linked(s) && t in s.table
    requires replaced.Some? ==> replaced.value in s.table && s.table[replaced.value].replacedBy.None?
                                && s.table[replaced.value].family == family
    requires replaced.None? ==> family !in s.chains
    ensures s.table[t].family == family && s.table[t].replacedBy.None? <==> replaced == Some(t)
  {
    assert InPlace(s, t, s.table[t]);
    if replaced.Some? {
      assert InPlace(s, replaced.value, s.table[replaced.value]);
      if s.table[t].family == family && s.table[t].replacedBy.None? {
        LastIsUnique(s, t, replaced.value);
      }
    }
  }

  lemma GrownTimed(g: Config, s: State, s': State, n: Session, replaced: Option<string>)
    requires Timed(g, s) && Grown(s, s'.table, n, replaced)
    requires s.clock <= s'.clock && n.expiration <= s'.clock + g.refreshExpiry
             && s.clock + g.refreshExpiry <= n.expiration
    ensures Timed(g, s')
  {
  }

  lemma GrownKept(s: State, s': State, n: Session, replaced: Option<string>)
    requires Kept(s) && Grown(s, s'.table, n, replaced)
    requires s.clock <= s'.clock && s'.revokedEver == s.revokedEver + RevokedIn(s'.table)
    ensures Kept(s')
  {
  }

  lemma CreateKeeps(g: Config, s: State, a: Action)
    requires Sound(g, s) && Enabled(s, a) && a.Create?
    ensures Sound(g, Next(g, s, a))
  {
    hide History, Timed, Kept, RevokedIn, InPlace;
    var s', n := Next(g, s, a), NewSession(g, a.user, a.family, a.device, a.new_.token, a.new_.id, a.created);
    TokensPlaced(s);
    assert Grown(s, s'.table, n, None);
    IssueHistory(s, a.family, a.user, a.new_);
    HistoryStays(Issue(s, a.family, a.user, a.new_), s');
    NewInPlace(g, s, a.family, a.user, a.device, a.new_, a.created);
    NewFamily(s, a.family);
    GrownLinked(g, s, s', a.family, a.user, a.new_, n, None);
    GrownTimed(g, s, s', n, None);
    GrownKept(s, s', n, None);
  }

  lemma NewFamily(s: State, family: string)
    requires History(s) && family !in s.chains
    ensures family !in s.owners
  {
  }

  lemma TokensPlaced(s: State)
    requires Linked(s)
    ensures forall t :: t in s.table ==> t in s.places && InPlace(s, t, s.table[t])
  {
  }

  lemma ExtendKeeps(g: Config, s: State, a: Action)
    requires Sound(g, s) && Enabled(s, a) && Extends(s, a)
    ensures Sound(g, Next(g, s, a))
  {
    hide History, Timed, Kept, RevokedIn, InPlace;
    TokensPlaced(s);
    var s', x := Next(g, s, a), s.table[a.token];
    var n := NewSession(g, x.user, x.family, a.device, a.new_.token, a.new_.id, a.at.created);
    assert Grown(s, s'.table, n, Some(a.token));
    IssueHistory(s, x.family, x.user, a.new_);
    HistoryStays(Issue(s, x.family, x.user, a.new_), s');
    NewInPlace(g, s, x.family, x.user, a.device, a.new_, a.at.created);
    OwnerOf(s, a.token);
    GrownLinked(g, s, s', x.family, x.user, a.new_, n, Some(a.token));
    GrownTimed(g, s, s', n, Some(a.token));
    GrownKept(s, s', n, Some(a.token));
  }

  lemma OwnerOf(s: State, t: string)
    requires Linked(s) && t in s.table
    ensures s.table[t].family in s.owners && s.owners[s.table[t].family] == s.table[t].user
  {
    assert InPlace(s, t, s.table[t]);
  }

  /* ---------- Forgetting ---------- */

  lemma SubtableKeeps(g: Config, s: State, s': State)
    requires History(s) && Linked(s) && Timed(g, s) && SameHistory(s, s') && s.clock <= s'.clock
    requires forall t :: t in s'.table ==> t in s.table && s'.table[t] == s.table[t]
    ensures History(s') && Linked(s') && Timed(g, s')
  {
    hide InPlace, History;
    HistoryStays(s, s');
    forall t | t in s'.table
      ensures InPlace(s', t, s'.table[t])
    {
      PlaceStays(s, s', t, s.table[t], s'.table[t]);
    }
  }

  // A successor is only forgotten once revoked, or once its predecessor has expired as well.
  lemma CleanKeepsKept(g: Config, s: State, a: Action)
    requires Timed(g, s) && Kept(s) && Enabled(s, a) && a.Clean?
    ensures Kept(Next(g, s, a))
  {
    var s' := Next(g, s, a);
    assert s'.table == Cleanup(s.table, a.reading);
    forall t | t in s'.table && s'.table[t].replacedBy.Some? && s'.table[t].replacedBy.value !in s'.table
      ensures s'.table[t].replacedBy.value in s'.revokedEver || s'.clock >= s'.table[t].expiration
    {
      var u := s.table[t].replacedBy.value;
      if u in s.table {
        assert s.table[u].revoked || a.reading(u) >= s.table[u].expiration;
      }
    }
  }

  lemma CleanKeeps(g: Config, s: State, a: Action)
    requires Sound(g, s) && Enabled(s, a) && (a.Clean? || a.Close?)
    ensures Sound(g, Next(g, s, a))
  {
    hide History, Linked, Timed, RevokedIn;
    SubtableKeeps(g, s, Next(g, s, a));
    if a.Clean? {
      CleanKeepsKept(g, s, a);
    }
  }

  lemma RotateKeeps(g: Config, s: State, a: Action)
    requires g.refreshExpiry > 0 && Sound(g, s) && Enabled(s, a) && a.Rotate? && !Extends(s, a)
    ensures Sound(g, Next(g, s, a))
  {
    hide Sound, OnlyRevoked, RevokedIn, Refresh;
    RotateOnlyFlags(g, s, a);
    FlagsKeep(g, s, Next(g, s, a));
  }

  lemma RotateOnlyFlags(g: Config, s: State, a: Action)
    requires a.Rotate? && !Extends(s, a)
    ensures OnlyRevoked(s.table, TableAfter(g, s, a))
  {
    hide RevokeWhere;
    if !Unavailable(s.table, a.token, a.at.checked) {
      RevokeWhereFlags(s.table, InFamily(s.table[a.token].family));
    }
  }

  lemma StepKeepsSound(g: Config, s: State, a: Action)
    requires g.refreshExpiry > 0 && Sound(g, s) && Enabled(s, a)
    ensures Sound(g, Next(g, s, a))
  {
    hide History, Linked, Timed, Kept, RevokeWhere;
    match a
    case Create(_, _, _, _, _, _) => CreateKeeps(g, s, a);
    case Rotate(_, _, _, _) => if Extends(s, a) { ExtendKeeps(g, s, a); } else { RotateKeeps(g, s, a); }
    case RevokeSession(id) =>
      RevokeWhereFlags(s.table, WithId(id));
      FlagsKeep(g, s, Next(g, s, a));
    case RevokeWholeFamily(family) =>
      RevokeWhereFlags(s.table, InFamily(family));
      FlagsKeep(g, s, Next(g, s, a));
    case RevokeUser(user, except) =>
      RevokeWhereFlags(s.table, OfUser(user, except));
      FlagsKeep(g, s, Next(g, s, a));
    case Clean(_, _) => CleanKeeps(g, s, a);
    case Close => CleanKeeps(g, s, a);
  }

  lemma {:induction false} SoundOverRuns(g: Config, states: seq<State>, actions: seq<Action>, n: nat)
    requires Run(g, states, actions) && n < |states|
    ensures Sound(g, states[n])
  {
    hide Next, Enabled;
    if n > 0 {
      SoundOverRuns(g, states, actions, n - 1);
      StepKeepsSound(g, states[n - 1], actions[n - 1]);
    }
  }
}
