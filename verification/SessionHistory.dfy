// What each call does to each session, and the whole session table told from the calls of a run.
module SessionHistory {
  import opened Results
  import opened Sessions
  import opened SessionRuns

  /* ---------- One refresh ---------- */

  predicate Live(table: Table, token: string, now: int) {
    token in table && !table[token].revoked && now <= table[token].expiration
  }

  // Every session of the family is revoked, and nothing else changes.
  ghost predicate FamilyRevoked(before: Table, after: Table, family: string) {
    && after.Keys == before.Keys
    && forall t :: t in before ==>
         after[t] == if before[t].family == family then before[t].(revoked := true) else before[t]
  }

  // The old session is linked to a new one of the same family, and nothing else changes.
  ghost predicate Rotated(g: Config, before: Table, after: Table, token: string, device: string, new_: Fresh, at: Times)
    requires token in before
  {
    && after.Keys == before.Keys + {new_.token}
    && (forall t :: t in before && t != token ==> after[t] == before[t])
    && after[token] == before[token].(replacedBy := Some(new_.token), usedAt := at.used)
    && after[new_.token] == Session(new_.id, before[token].user, before[token].family, new_.token,
                                    at.created + g.refreshExpiry, device, false, None, 0)
  }

  // A token that is not live is refused; a live unreplaced one is rotated and gets a pair of the
  // new session; a replaced one is answered within the grace period with a pair of its successor,
  // as long as that is there and unrevoked, and revokes its family after it.
  lemma RefreshExactly(g: Config, table: Table, token: string, device: string, new_: Fresh, at: Times)
    requires new_.token !in table
    ensures var r := Refresh(g, table, token, device, new_, at);
            && (!Live(table, token, at.checked) ==> r == Refreshed(table, None))
            && (Live(table, token, at.checked) ==>
                  var s := table[token];
                  && (s.replacedBy.None? ==>
                        && Rotated(g, table, r.table, token, device, new_, at)
                        && r.answer
                           == Some(TokenPair(s.user, new_.id, new_.token, at.paired, at.paired + g.accessExpiry)))
                  && (s.replacedBy.Some? ==>
                        var next := s.replacedBy.value;
                        var early := s.usedAt != 0 && at.created - s.usedAt <= g.grace;
                        && (if early then r.table == table else FamilyRevoked(table, r.table, s.family))
                        && (r.answer.Some? <==> early && next in table && !table[next].revoked)
                        && (r.answer.Some? ==>
                              var n := table[next];
                              r.answer.value
                              == TokenPair(n.user, n.id, n.token, at.paired, at.paired + g.accessExpiry))))
  {
    if Live(table, token, at.checked) && table[token].replacedBy.None? {
      var r := Refresh(g, table, token, device, new_, at);
      assert r.table.Keys == table.Keys + {new_.token};
    }
  }

  /* ---------- One step, session by session ---------- */

  // The step revokes the session: by its ID, with its family, with its user, or because a replaced
  // token of its family was used after the grace period.
  predicate Revokes(g: Config, s: State, a: Action, x: Session) {
    match a
    case RevokeSession(id) => x.id == id
    case RevokeWholeFamily(family) => x.family == family
    case RevokeUser(user, except) => x.user == user && x.family != except
    case Rotate(token, _, _, at) =>
      && Live(s.table, token, at.checked)
      && s.table[token].family == x.family && s.table[token].replacedBy.Some?
      && (s.table[token].usedAt == 0 || at.created - s.table[token].usedAt > g.grace)
    case _ => false
  }

  // The step drops the session under the token.
  predicate Drops(a: Action, t: string, x: Session) {
    a.Close? || (a.Clean? && (x.revoked || a.reading(t) >= x.expiration))
  }

  // The step rotates the session under the token.
  predicate Rotates(s: State, a: Action, t: string) {
    a.Rotate? && a.token == t && Live(s.table, t, a.at.checked) && s.table[t].replacedBy.None?
  }

  // The session a step files under the token, if it issues it.
  predicate Issues(g: Config, s: State, a: Action, t: string, x: Session) {
    match a
    case Create(user, family, device, new_, created, _) =>
      new_.token == t && x == Session(new_.id, user, family, t, created + g.refreshExpiry, device, false, None, 0)
    case Rotate(token, device, new_, at) =>
      && new_.token == t && Rotates(s, a, token)
      && x == Session(new_.id, s.table[token].user, s.table[token].family, t, at.created + g.refreshExpiry, device,
                      false, None, 0)
    case _ => false
  }

  function Touched(g: Config, s: State, a: Action, t: string, x: Session): Session {
    var y := if Rotates(s, a, t) then x.(replacedBy := Some(a.new_.token), usedAt := a.at.used) else x;
    if Revokes(g, s, a, x) then y.(revoked := true) else y
  }

  // A session in the table stays unless the step drops it, and changes only as the step revokes
  // or rotates it.
  lemma StepTouches(g: Config, s: State, a: Action, t: string)
    requires Sound(g, s) && Enabled(s, a) && t in s.table
    ensures var s' := Next(g, s, a);
            && (t in s'.table <==> !Drops(a, t, s.table[t]))
            && (t in s'.table ==> s'.table[t] == Touched(g, s, a, t, s.table[t]))
  {
    hide Refresh, Sound, Live;
    PlacedTokens(g, s);
    if a.Rotate? {
      RefreshTouches(g, s, a, t);
    }
  }

  lemma RefreshTouches(g: Config, s: State, a: Action, t: string)
    requires Sound(g, s) && Enabled(s, a) && a.Rotate? && t in s.table
    ensures var after := Refresh(g, s.table, a.token, a.device, a.new_, a.at).table;
            t in after && after[t] == Touched(g, s, a, t, s.table[t])
  {
    PlacedTokens(g, s);
    RefreshExactly(g, s.table, a.token, a.device, a.new_, a.at);
    hide Refresh, Sound;
  }

  // Any other token is in the table afterwards only if the step issues it.
  lemma StepIssues(g: Config, s: State, a: Action, t: string, x: Session)
    requires Sound(g, s) && Enabled(s, a) && t !in s.table
    ensures var s' := Next(g, s, a); t in s'.table && s'.table[t] == x <==> Issues(g, s, a, t, x)
  {
    hide History, Timed, Kept, Linked;
    if a.Rotate? {
      assert a.new_.token !in s.table by { PlacedTokens(g, s); }
      RefreshExactly(g, s.table, a.token, a.device, a.new_, a.at);
    }
  }

  lemma PlacedTokens(g: Config, s: State)
    requires Sound(g, s)
    ensures forall t :: t in s.table ==> t in s.places
  {
    hide History, Timed, Kept;
  }

  /* ---------- The table told from the run ---------- */

  ghost predicate IssuedAt(g: Config, states: seq<State>, actions: seq<Action>, k: nat, t: string)
    requires |states| == |actions| + 1 && k < |actions|
  {
    exists x :: Issues(g, states[k], actions[k], t, x)
  }

  // Issued at step k and not dropped before step n.
  ghost predicate PresentSince(g: Config, states: seq<State>, actions: seq<Action>, k: nat, n: nat, t: string)
    requires |states| == |actions| + 1
  {
    && k < n <= |actions| && IssuedAt(g, states, actions, k, t)
    && forall m :: k < m < n ==> t in states[m].table && !Drops(actions[m], t, states[m].table[t])
  }

  // A token has a session exactly if a step issued it and no cleanup has since found it revoked
  // or expired.
  lemma {:induction false} PresentExactly(g: Config, states: seq<State>, actions: seq<Action>, n: nat, t: string)
    requires Run(g, states, actions) && n < |states|
    ensures t in states[n].table <==> exists k: nat :: PresentSince(g, states, actions, k, n, t)
  {
    hide Next, Enabled, Sound, IssuedAt, Drops;
    if n > 0 {
      var m := n - 1;
      PresentExactly(g, states, actions, m, t);
      SoundOverRuns(g, states, actions, m);
      if t in states[m].table {
        StepTouches(g, states[m], actions[m], t);
        var k: nat :| PresentSince(g, states, actions, k, m, t);
        if t in states[n].table {
          assert PresentSince(g, states, actions, k, n, t);
        } else if l: nat :| PresentSince(g, states, actions, l, n, t) {
          IssuedFresh(g, states, actions, m, t);
        }
      } else {
        IssuedHere(g, states, actions, m, t);
        if l: nat :| PresentSince(g, states, actions, l, n, t) {
          assert l == m;
        }
        if t in states[n].table {
          assert PresentSince(g, states, actions, m, n, t);
        }
      }
    }
  }

  lemma IssuedFresh(g: Config, states: seq<State>, actions: seq<Action>, m: nat, t: string)
    requires Run(g, states, actions) && m < |actions| && t in states[m].table
    ensures !IssuedAt(g, states, actions, m, t)
  {
    hide Next;
    SoundOverRuns(g, states, actions, m);
    PlacedTokens(g, states[m]);
    assert Enabled(states[m], actions[m]);
  }

  lemma IssuedHere(g: Config, states: seq<State>, actions: seq<Action>, m: nat, t: string)
    requires Run(g, states, actions) && m < |actions| && t !in states[m].table
    ensures t in states[m + 1].table <==> IssuedAt(g, states, actions, m, t)
  {
    hide Next, Enabled, Sound, Issues;
    SoundOverRuns(g, states, actions, m);
    assert states[m + 1] == Next(g, states[m], actions[m]);
    if t in states[m + 1].table {
      StepIssues(g, states[m], actions[m], t, states[m + 1].table[t]);
    }
    if x :| Issues(g, states[m], actions[m], t, x) {
      StepIssues(g, states[m], actions[m], t, x);
    }
  }

  ghost predicate RevokedAt(g: Config, states: seq<State>, actions: seq<Action>, m: nat, t: string)
    requires |states| == |actions| + 1 && m < |actions|
  {
    t in states[m].table && Revokes(g, states[m], actions[m], states[m].table[t])
  }

  // A session in the table is revoked exactly if some step revoked it.
  lemma {:induction false} RevokedExactly(g: Config, states: seq<State>, actions: seq<Action>, n: nat, t: string)
    requires Run(g, states, actions) && n < |states| && t in states[n].table
    ensures states[n].table[t].revoked <==> exists m: nat :: m < n && RevokedAt(g, states, actions, m, t)
  {
    hide Next, Enabled, Sound, Issues, Drops, Revokes;
    if n > 0 {
      var m := n - 1;
      SoundOverRuns(g, states, actions, m);
      assert Enabled(states[m], actions[m]) && states[n] == Next(g, states[m], actions[m]);
      if t in states[m].table {
        RevokedExactly(g, states, actions, m, t);
        StepTouches(g, states[m], actions[m], t);
        assert RevokedAt(g, states, actions, m, t) <==> Revokes(g, states[m], actions[m], states[m].table[t]);
      } else {
        StepIssues(g, states[m], actions[m], t, states[n].table[t]);
        FreshSession(g, states[m], actions[m], t, states[n].table[t]);
        forall l: nat | l < n
          ensures !RevokedAt(g, states, actions, l, t)
        {
          if l < m && t in states[l].table {
            NeverBack(g, states, actions, l, m, t);
          }
        }
      }
    }
  }

  lemma FreshSession(g: Config, s: State, a: Action, t: string, x: Session)
    requires Issues(g, s, a, t, x)
    ensures !x.revoked && (a.Create? || a.Rotate?) && a.new_.token == t
  {
  }

  // A token that has left the table is never issued again.
  lemma {:induction false} NeverBack(g: Config, states: seq<State>, actions: seq<Action>, l: nat, m: nat, t: string)
    requires Run(g, states, actions) && l <= m < |actions| && t in states[l].table
    ensures t in states[m].places && !IssuedAt(g, states, actions, m, t)
    decreases m
  {
    SoundOverRuns(g, states, actions, l);
    PlacedTokens(g, states[l]);
    hide Sound;
    PlacesStay(g, states, actions, l, m, t);
    assert Enabled(states[m], actions[m]);
  }

  lemma {:induction false} PlacesStay(g: Config, states: seq<State>, actions: seq<Action>, l: nat, m: nat, t: string)
    requires Run(g, states, actions) && l <= m < |states| && t in states[l].places
    ensures t in states[m].places
    decreases m
  {
    hide Enabled, TableAfter;
    if l < m {
      PlacesStay(g, states, actions, l, m - 1, t);
      assert states[m] == Next(g, states[m - 1], actions[m - 1]);
    }
  }

  /* ---------- Who gets a pair, over whole runs ---------- */

  // A pair names the user its family was created for and an unrevoked session of that family,
  // under whose token it is filed, and is timed from its own clock reading.
  lemma PairsAreTrue(g: Config, states: seq<State>, actions: seq<Action>, n: nat)
    requires Run(g, states, actions) && n < |actions| && Answer(g, states[n], actions[n]).Some?
    ensures var s, s', a, pair := states[n], states[n + 1], actions[n], Answer(g, states[n], actions[n]).value;
            && a.token in s.table && pair.refreshToken in s'.table
            && var x := s'.table[pair.refreshToken];
               && x.family == s.table[a.token].family && x.family in s'.owners
               && pair.user == x.user == s'.owners[x.family] && pair.sessionId == x.id && !x.revoked
               && pair.issuedAt == a.at.paired && pair.expiresAt == a.at.paired + g.accessExpiry
  {
    var s, a := states[n], actions[n];
    SoundOverRuns(g, states, actions, n);
    SoundOverRuns(g, states, actions, n + 1);
    PlacedTokens(g, s);
    assert Enabled(s, a) && states[n + 1] == Next(g, s, a);
    RefreshExactly(g, s.table, a.token, a.device, a.new_, a.at);
    AnsweredInFamily(g, s, a);
  }

  lemma AnsweredInFamily(g: Config, s: State, a: Action)
    requires Sound(g, s) && Enabled(s, a) && Answer(g, s, a).Some?
    ensures a.token in s.table && (s.table[a.token].replacedBy.Some? ==>
              var next := s.table[a.token].replacedBy.value;
              next in s.table && s.table[next].family == s.table[a.token].family && s.table[next].token == next)
  {
    hide Timed, Kept;
  }

  /* ---------- Listing and cleaning up ---------- */

  // The listing shows exactly the user's sessions that are unrevoked, unreplaced and, by their
  // own reading of the clock, unexpired.
  lemma ListsExactly(table: Table, user: string, reading: string -> int, result: seq<Session>, x: Session)
    requires Lists(table, user, reading, result)
    ensures x in result <==>
              exists t :: t in table && table[t] == x
                          && x.user == user && !x.revoked && x.replacedBy.None? && reading(t) < x.expiration
  {
    var tokens :| ListsUnder(table, user, reading, tokens, result);
    if x in result {
      var i :| 0 <= i < |result| && result[i] == x;
      assert tokens[i] in tokens;
    }
    if t :| t in table && table[t] == x
            && x.user == user && !x.revoked && x.replacedBy.None? && reading(t) < x.expiration {
      assert t in tokens;
      var i :| 0 <= i < |tokens| && tokens[i] == t;
      assert result[i] == x;
    }
  }
}
