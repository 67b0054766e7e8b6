// Refresh-token rotation with replay detection: typeferry-go/auth/session.go, the pattern of
// section 4.14.2 of RFC 9700. Random identifiers and clock readings are parameters; signing is total.
module Sessions {
  import opened Results

  const ZERO_TIME := 0

  datatype Config = Config(accessExpiry: int, refreshExpiry: int, grace: int)

  datatype Session = Session(
    id: string,
    user: string,
    family: string,
    token: string,
    expiration: int,
    device: string,
    revoked: bool,
    replacedBy: Option<string>,
    usedAt: int)

  // The pair a client receives; the access token is its signed payload.
  datatype TokenPair = TokenPair(user: string, sessionId: string, refreshToken: string, issuedAt: int, expiresAt: int)

  datatype Refreshed = Refreshed(table: Table, answer: Option<TokenPair>)

  type Table = map<string, Session>

  /* ---------- The operations on the session table ---------- */

  function Pair(g: Config, s: Session, now: int): TokenPair {
    TokenPair(s.user, s.id, s.token, now, now + g.accessExpiry)
  }

  function NewSession(g: Config, user: string, family: string, device: string, token: string, id: string,
                      now: int): Session {
    Session(id, user, family, token, now + g.refreshExpiry, device, false, None, ZERO_TIME)
  }

  // Revoking every session that matches, apart from the tokens still `pending`.
  function RevokeBut(table: Table, hit: Session -> bool, pending: set<string>): Table {
    map t | t in table :: if t !in pending && hit(table[t]) then table[t].(revoked := true) else table[t]
  }

  function RevokeWhere(table: Table, hit: Session -> bool): Table {
    RevokeBut(table, hit, {})
  }

  // The live sessions a revocation catches.
  function Caught(table: Table, hit: Session -> bool, pending: set<string>): set<string> {
    set t | t in table && t !in pending && hit(table[t]) && !table[t].revoked
  }

  function InFamily(family: string): Session -> bool { (s: Session) => s.family == family }

  function OfUser(user: string, except: string): Session -> bool {
    (s: Session) => s.user == user && s.family != except
  }

  function WithId(id: string): Session -> bool { (s: Session) => s.id == id }

  function RevokeFamily(table: Table, family: string): Table { RevokeWhere(table, InFamily(family)) }

  function RevokeAll(table: Table, user: string, except: string): Table { RevokeWhere(table, OfUser(user, except)) }

  function RevokeOne(table: Table, id: string): Table { RevokeWhere(table, WithId(id)) }

  lemma RevokeNone(table: Table, hit: Session -> bool)
    ensures Caught(table, hit, table.Keys) == {} && RevokeBut(table, hit, table.Keys) == table
  {
  }

  lemma RevokeNext(table: Table, hit: Session -> bool, pending: set<string>, t: string)
    requires t in pending && t in table
    ensures RevokeBut(table, hit, pending)[t] == table[t]
    ensures RevokeBut(table, hit, pending - {t})
         == (if hit(table[t]) && !table[t].revoked then RevokeBut(table, hit, pending)[t := table[t].(revoked := true)]
             else RevokeBut(table, hit, pending))
    ensures |Caught(table, hit, pending - {t})|
         == |Caught(table, hit, pending)| + (if hit(table[t]) && !table[t].revoked then 1 else 0)
  {
    assert table[t].revoked ==> table[t].(revoked := true) == table[t];
    assert Caught(table, hit, pending - {t})
        == Caught(table, hit, pending) + (if hit(table[t]) && !table[t].revoked then {t} else {});
  }

  // Why a refresh fails before it looks at replacement.
  predicate Unavailable(table: Table, token: string, now: int) {
    token !in table || table[token].revoked || now > table[token].expiration
  }

  predicate PastGrace(g: Config, s: Session, now: int) {
    s.usedAt == ZERO_TIME || now - s.usedAt > g.grace
  }

  datatype Fresh = Fresh(token: string, id: string)

  // The clock readings of one refresh, in the order they are taken.
  datatype Times = Times(checked: int, created: int, paired: int, used: int)

  function Refresh(g: Config, table: Table, token: string, device: string, new_: Fresh, at: Times): Refreshed {
    if Unavailable(table, token, at.checked) then Refreshed(table, None)
    else
      var s := table[token];
      match s.replacedBy
      case Some(next) =>
        if PastGrace(g, s, at.created) then Refreshed(RevokeFamily(table, s.family), None)
        else if next !in table || table[next].revoked then Refreshed(table, None)
        else Refreshed(table, Some(Pair(g, table[next], at.paired)))
      case None =>
        var created := NewSession(g, s.user, s.family, device, new_.token, new_.id, at.created);
        Refreshed(table[new_.token := created][token := s.(replacedBy := Some(new_.token), usedAt := at.used)],
                  Some(Pair(g, created, at.paired)))
  }

  // Each session is kept or dropped by its own reading of the clock.
  function Cleanup(table: Table, reading: string -> int): Table {
    map t | t in table && !(table[t].revoked || reading(t) >= table[t].expiration) :: table[t]
  }

  predicate Listed(s: Session, user: string, now: int) {
    s.user == user && !s.revoked && s.replacedBy.None? && now < s.expiration
  }

  // The listed sessions, each once, under the tokens `tokens`; each is judged by its own reading
  // of the clock.
  ghost predicate ListsUnder(table: Table, user: string, reading: string -> int, tokens: seq<string>,
                             result: seq<Session>) {
    && |tokens| == |result|
    && (forall i, j :: 0 <= i < j < |tokens| ==> tokens[i] != tokens[j])
    && (forall t :: t in tokens <==> t in table && Listed(table[t], user, reading(t)))
    && (forall i :: 0 <= i < |tokens| ==> tokens[i] in table && result[i] == table[tokens[i]])
  }

  ghost predicate Lists(table: Table, user: string, reading: string -> int, result: seq<Session>) {
    exists tokens :: ListsUnder(table, user, reading, tokens, result)
  }

  /* ---------- The manager ---------- */

  class InMemorySessionManager {
    const config: Config
    var sessions: Table

    constructor (config: Config)
      ensures this.config == config && sessions == map[]
    {
      this.config := config;
      sessions := map[];
    }

    method CreateLocked(user: string, family: string, device: string, new_: Fresh, created: int, paired: int)
      returns (pair: TokenPair)
      modifies this
      ensures var s := NewSession(config, user, family, device, new_.token, new_.id, created);
              sessions == old(sessions)[new_.token := s] && pair == Pair(config, s, paired)
    {
      var session := Session(new_.id, user, family, new_.token,
                             created + config.refreshExpiry, device, false, None, ZERO_TIME);
      sessions := sessions[new_.token := session];
      pair := TokenPair(session.user, session.id, session.token, paired, paired + config.accessExpiry);
    }

    method CreateSession(user: string, family: string, device: string, new_: Fresh, created: int, paired: int)
      returns (pair: Option<TokenPair>)
      modifies this
      ensures user == "" ==> pair == None && sessions == old(sessions)
      ensures user != "" ==>
                var s := NewSession(config, user, family, device, new_.token, new_.id, created);
                sessions == old(sessions)[new_.token := s] && pair == Some(Pair(config, s, paired))
    {
      if user == "" {
        return None;
      }
      var p := CreateLocked(user, family, device, new_, created, paired);
      pair := Some(p);
    }

    method RefreshSession(token: string, device: string, new_: Fresh, at: Times) returns (pair: Option<TokenPair>)
      requires new_.token !in sessions
      modifies this
      ensures Refreshed(sessions, pair) == Refresh(config, old(sessions), token, device, new_, at)
    {
      if token !in sessions || sessions[token].revoked || at.checked > sessions[token].expiration {
        return None;
      }
      var session := sessions[token];
      if session.replacedBy.Some? {
        if session.usedAt == ZERO_TIME || at.created - session.usedAt > config.grace {
          var _ := RevokeFamilyLocked(session.family);
          return None;
        }
        var next := session.replacedBy.value;
        if next !in sessions || sessions[next].revoked {
          return None;
        }
        return Some(Pair(config, sessions[next], at.paired));
      }
      var created := CreateLocked(session.user, session.family, device, new_, at.created, at.paired);
      session := session.(replacedBy := Some(created.refreshToken));
      session := session.(usedAt := at.used);
      sessions := sessions[token := session];
      pair := Some(created);
    }

    method RevokeFamilyLocked(family: string) returns (count: nat)
      modifies this
      ensures sessions == RevokeFamily(old(sessions), family)
      ensures count == |set t | t in old(sessions) && old(sessions)[t].family == family && !old(sessions)[t].revoked|
    {
      count := RevokeMatching(InFamily(family));
      assert Caught(old(sessions), InFamily(family), {})
          == set t | t in old(sessions) && old(sessions)[t].family == family && !old(sessions)[t].revoked;
    }

    method RevokeAllUserSessions(user: string, except: string) returns (count: nat)
      modifies this
      ensures sessions == RevokeAll(old(sessions), user, except)
      ensures count == |set t | t in old(sessions) && old(sessions)[t].user == user
                                && old(sessions)[t].family != except && !old(sessions)[t].revoked|
    {
      count := RevokeMatching(OfUser(user, except));
      assert Caught(old(sessions), OfUser(user, except), {})
          == set t | t in old(sessions) && old(sessions)[t].user == user
                     && old(sessions)[t].family != except && !old(sessions)[t].revoked;
    }

    // The loop shared by the revocations: every matching live session, counted once.
    method RevokeMatching(hit: Session -> bool) returns (count: nat)
      modifies this
      ensures sessions == RevokeWhere(old(sessions), hit)
      ensures count == |Caught(old(sessions), hit, {})|
    {
      count := 0;
      var tokens := sessions.Keys;
      RevokeNone(sessions, hit);
      hide RevokeBut, Caught;
      while tokens != {}
        invariant tokens <= old(sessions).Keys
        invariant sessions == RevokeBut(old(sessions), hit, tokens)
        invariant count == |Caught(old(sessions), hit, tokens)|
        decreases |tokens|
      {
        var t :| t in tokens;
        RevokeNext(old(sessions), hit, tokens, t);
        var session := sessions[t];
        if hit(session) && !session.revoked {
          sessions := sessions[t := session.(revoked := true)];
          count := count + 1;
        }
        tokens := tokens - {t};
      }
    }

    method RevokeSession(id: string) returns (found: bool)
      requires forall t, u :: t in sessions && u in sessions && sessions[t].id == sessions[u].id ==> t == u
      modifies this
      ensures sessions == RevokeOne(old(sessions), id)
      ensures found <==> exists t :: t in old(sessions) && old(sessions)[t].id == id
    {
      var tokens := sessions.Keys;
      while tokens != {}
        invariant tokens <= sessions.Keys && sessions == old(sessions)
        invariant forall t :: t in sessions && t !in tokens ==> sessions[t].id != id
        decreases |tokens|
      {
        var t :| t in tokens;
        if sessions[t].id == id {
          sessions := sessions[t := sessions[t].(revoked := true)];
          assert sessions == RevokeOne(old(sessions), id);
          return true;
        }
        tokens := tokens - {t};
      }
      assert sessions == RevokeOne(old(sessions), id);
      return false;
    }

    method UserSessions(user: string, reading: string -> int) returns (result: seq<Session>)
      ensures Lists(sessions, user, reading, result)
    {
      result := [];
      ghost var listed: seq<string> := [];
      var tokens := sessions.Keys;
      while tokens != {}
        invariant tokens <= sessions.Keys && |listed| == |result|
        invariant forall i, j :: 0 <= i < j < |listed| ==> listed[i] != listed[j]
        invariant forall t :: t in listed <==> t in sessions && t !in tokens && Listed(sessions[t], user, reading(t))
        invariant forall i :: 0 <= i < |listed| ==> listed[i] in sessions && result[i] == sessions[listed[i]]
        decreases |tokens|
      {
        var t :| t in tokens;
        var s := sessions[t];
        if s.user == user && !s.revoked && s.replacedBy.None? && reading(t) < s.expiration {
          assert t !in listed;
          result := result + [s];
          listed := listed + [t];
        }
        tokens := tokens - {t};
      }
      assert ListsUnder(sessions, user, reading, listed, result);
    }

    method CleanupExpired(reading: string -> int) returns (count: nat)
      modifies this
      ensures sessions == Cleanup(old(sessions), reading)
      ensures count == |old(sessions)| - |sessions|
    {
      count := 0;
      var tokens := sessions.Keys;
      while tokens != {}
        invariant tokens <= sessions.Keys <= old(sessions).Keys
        invariant forall t :: t in sessions ==> sessions[t] == old(sessions)[t]
        invariant forall t :: t in old(sessions) && t !in tokens
                              ==> (t in sessions <==> t in Cleanup(old(sessions), reading))
        invariant count == |old(sessions)| - |sessions|
        decreases |tokens|
      {
        var t :| t in tokens;
        if sessions[t].revoked || reading(t) >= sessions[t].expiration {
          ghost var before := sessions;
          sessions := sessions - {t};
          assert before.Keys == sessions.Keys + {t};
          count := count + 1;
        }
        tokens := tokens - {t};
      }
    }
  }
}
