// What holds of every run of the session manager.
module SessionTheorems {
  import opened Results
  import opened Sessions
  import opened SessionRuns

  /* ---------- Each family is one rotation chain ---------- */

  // At most one session of a family is unreplaced.
  lemma OneHeadPerFamily(g: Config, states: seq<State>, actions: seq<Action>, n: nat, t: string, u: string)
    requires Run(g, states, actions) && n < |states| && t in states[n].table && u in states[n].table
    requires states[n].table[t].family == states[n].table[u].family
    requires states[n].table[t].replacedBy.None? && states[n].table[u].replacedBy.None?
    ensures t == u
  {
    hide Run;
    SoundOverRuns(g, states, actions, n);
    TokensPlaced(states[n]);
    LastIsUnique(states[n], t, u);
  }

  // So a user's listing shows at most one session per family.
  lemma ListingShowsFamiliesOnce(g: Config, states: seq<State>, actions: seq<Action>, n: nat,
                                 user: string, reading: string -> int, result: seq<Session>)
    requires Run(g, states, actions) && n < |states| && Lists(states[n].table, user, reading, result)
    ensures forall i, j :: 0 <= i < j < |result| ==> result[i].family != result[j].family
    ensures forall i :: 0 <= i < |result| ==> result[i].user == user
  {
    hide Run;
    var table := states[n].table;
    var tokens :| ListsUnder(table, user, reading, tokens, result);
    forall i | 0 <= i < |result|
      ensures Listed(result[i], user, reading(tokens[i]))
    {
      assert tokens[i] in tokens;
    }
    forall i, j | 0 <= i < j < |result|
      ensures result[i].family != result[j].family
    {
      if result[i].family == result[j].family {
        OneHeadPerFamily(g, states, actions, n, tokens[i], tokens[j]);
      }
    }
  }

  // A link leads to the next token of the same family, issued for the same user.
  lemma LinksStayHome(g: Config, states: seq<State>, actions: seq<Action>, n: nat, t: string)
    requires Run(g, states, actions) && n < |states| && t in states[n].table && states[n].table[t].replacedBy.Some?
    ensures var s, x := states[n], states[n].table[t];
            var u := x.replacedBy.value;
            && t in s.places && u in s.places && s.places[u] == Place(x.family, s.places[t].index + 1)
            && (u in s.table ==> s.table[u].family == x.family && s.table[u].user == x.user
                                 && s.table[u].expiration >= x.expiration)
  {
    hide Run;
    SoundOverRuns(g, states, actions, n);
    TokensPlaced(states[n]);
  }

  lemma LinksAreInjective(g: Config, states: seq<State>, actions: seq<Action>, n: nat, t: string, u: string)
    requires Run(g, states, actions) && n < |states| && t in states[n].table && u in states[n].table
    requires states[n].table[t].replacedBy.Some? && states[n].table[t].replacedBy == states[n].table[u].replacedBy
    ensures t == u
  {
    hide Run;
    LinksStayHome(g, states, actions, n, t);
    LinksStayHome(g, states, actions, n, u);
    SoundOverRuns(g, states, actions, n);
    TokensPlaced(states[n]);
  }

  ghost predicate Path(table: Table, path: seq<string>) {
    forall i :: 0 <= i < |path| - 1 ==> path[i] in table && table[path[i]].replacedBy == Some(path[i + 1])
  }

  // Following links never comes back.
  lemma {:induction false} LinksAreAcyclic(g: Config, states: seq<State>, actions: seq<Action>, n: nat,
                                           path: seq<string>)
    requires Run(g, states, actions) && n < |states| && |path| >= 2 && Path(states[n].table, path)
    ensures var s := states[n];
            && path[0] in s.places && path[|path| - 1] in s.places
            && s.places[path[|path| - 1]].index == s.places[path[0]].index + |path| - 1
            && path[|path| - 1] != path[0]
    decreases |path|
  {
    hide Run;
    var last := |path| - 2;
    assert path[last] in states[n].table && states[n].table[path[last]].replacedBy == Some(path[last + 1]);
    LinksStayHome(g, states, actions, n, path[last]);
    SoundOverRuns(g, states, actions, n);
    TokensPlaced(states[n]);
    if |path| > 2 {
      var shorter := path[..|path| - 1];
      assert Path(states[n].table, shorter);
      LinksAreAcyclic(g, states, actions, n, shorter);
      assert shorter[0] == path[0] && shorter[|shorter| - 1] == path[last];
    }
  }

  /* ---------- Revocation is permanent ---------- */

  ghost predicate Dead(s: State, family: string) {
    family in s.chains && forall t :: t in s.table && s.table[t].family == family ==> s.table[t].revoked
  }

  lemma StepKeepsDead(g: Config, s: State, a: Action, family: string)
    requires Enabled(s, a) && Dead(s, family)
    ensures Dead(Next(g, s, a), family)
  {
    var s' := Next(g, s, a);
    assert family in s'.chains;
    match a
    case RevokeSession(id) => RevokeWhereFlags(s.table, WithId(id));
    case RevokeWholeFamily(f) => RevokeWhereFlags(s.table, InFamily(f));
    case RevokeUser(user, except) => RevokeWhereFlags(s.table, OfUser(user, except));
    case Rotate(token, _, _, at) =>
      if !Unavailable(s.table, token, at.checked) {
        RevokeWhereFlags(s.table, InFamily(s.table[token].family));
      }
    case _ =>
  }

  // Explicit revocation, and reuse of a replaced token after the grace period, kill a family.
  lemma RevocationKills(g: Config, s: State, a: Action, family: string)
    requires family in s.chains
    requires || a == RevokeWholeFamily(family)
             || (a.Rotate? && a.token in s.table && s.table[a.token].family == family
                 && !s.table[a.token].revoked && a.at.checked <= s.table[a.token].expiration
                 && s.table[a.token].replacedBy.Some?
                 && (s.table[a.token].usedAt == 0 || a.at.created - s.table[a.token].usedAt > g.grace))
    ensures Dead(Next(g, s, a), family) && Answer(g, s, a).None?
  {
  }

  lemma UserRevocationKills(g: Config, states: seq<State>, actions: seq<Action>, n: nat, family: string)
    requires Run(g, states, actions) && n < |actions| && actions[n].RevokeUser?
    requires family in states[n].chains && family in states[n].owners
    requires states[n].owners[family] == actions[n].user && family != actions[n].except
    ensures Dead(states[n + 1], family)
  {
    SoundOverRuns(g, states, actions, n);
    TokensPlaced(states[n]);
  }

  lemma {:induction false} DeadForever(g: Config, states: seq<State>, actions: seq<Action>, i: nat, j: nat,
                                       family: string)
    requires Run(g, states, actions) && i <= j < |states| && Dead(states[i], family)
    ensures Dead(states[j], family)
    decreases j
  {
    hide Next, Enabled, Dead;
    if i < j {
      DeadForever(g, states, actions, i, j - 1, family);
      StepKeepsDead(g, states[j - 1], actions[j - 1], family);
    }
  }

  // No refresh with any token the family was ever issued succeeds again, before or after cleanup.
  lemma RevocationIsPermanent(g: Config, states: seq<State>, actions: seq<Action>, i: nat, j: nat, family: string)
    requires Run(g, states, actions) && i <= j < |actions| && Dead(states[i], family)
    requires actions[j].Rotate? && family in states[j].chains && actions[j].token in states[j].chains[family]
    ensures Answer(g, states[j], actions[j]).None?
  {
    hide Next, Enabled;
    DeadForever(g, states, actions, i, j, family);
    SoundOverRuns(g, states, actions, j);
    TokensPlaced(states[j]);
  }

  /* ---------- Revoking the newest session stops rotation ---------- */

  ghost predicate Frozen(s: State, family: string) {
    && family in s.chains && s.chains[family] != []
    && var last := s.chains[family][|s.chains[family]| - 1];
       last !in s.table || s.table[last].revoked
  }

  // Only the newest session of a family can be rotated.
  lemma FrozenDoesNotExtend(g: Config, s: State, a: Action, family: string)
    requires Sound(g, s) && Frozen(s, family) && Extends(s, a)
    ensures s.table[a.token].family != family
  {
    hide Timed, Kept;
    TokensPlaced(s);
    if s.table[a.token].family == family {
      LastIsUnique(s, a.token, s.chains[family][|s.chains[family]| - 1]);
    }
  }

  lemma FlagsStayFrozen(s: State, s': State, family: string)
    requires Frozen(s, family) && s'.chains == s.chains && OnlyRevoked(s.table, s'.table)
    ensures Frozen(s', family)
  {
  }

  lemma TableOnlyFlagged(g: Config, s: State, a: Action)
    requires !a.Create? && !a.Clean? && !a.Close? && !Extends(s, a)
    ensures OnlyRevoked(s.table, TableAfter(g, s, a))
  {
    hide RevokeWhere;
    match a
    case RevokeSession(id) => RevokeWhereFlags(s.table, WithId(id));
    case RevokeWholeFamily(f) => RevokeWhereFlags(s.table, InFamily(f));
    case RevokeUser(user, except) => RevokeWhereFlags(s.table, OfUser(user, except));
    case Rotate(token, _, _, at) =>
      if !Unavailable(s.table, token, at.checked) {
        RevokeWhereFlags(s.table, InFamily(s.table[token].family));
      }
  }

  lemma StepKeepsFrozen(g: Config, s: State, a: Action, family: string)
    requires Sound(g, s) && Enabled(s, a) && Frozen(s, family)
    ensures var s' := Next(g, s, a); Frozen(s', family) && s'.chains[family] == s.chains[family]
  {
    hide Timed, Kept, Linked, OnlyRevoked, RevokedIn, RevokeWhere;
    if Extends(s, a) {
      FrozenDoesNotExtend(g, s, a, family);
      assert s.chains[family][|s.chains[family]| - 1] in s.places;
    } else if a.Create? {
      assert s.chains[family][|s.chains[family]| - 1] in s.places;
    } else if !a.Clean? && !a.Close? {
      TableOnlyFlagged(g, s, a);
      hide TableAfter;
      FlagsStayFrozen(s, Next(g, s, a), family);
    }
  }

  lemma {:induction false} FrozenForever(g: Config, states: seq<State>, actions: seq<Action>, i: nat, j: nat,
                                         family: string)
    requires Run(g, states, actions) && i <= j < |states| && Frozen(states[i], family)
    ensures Frozen(states[j], family) && states[j].chains[family] == states[i].chains[family]
    decreases j
  {
    hide Next, Enabled;
    if i < j {
      FrozenForever(g, states, actions, i, j - 1, family);
      SoundOverRuns(g, states, actions, j - 1);
      hide Sound;
      StepKeepsFrozen(g, states[j - 1], actions[j - 1], family);
    }
  }

  /* ---------- Refreshing is a function of the token ---------- */

  lemma AnswerIsSuccessor(g: Config, s: State, a: Action)
    requires Sound(g, s) && Enabled(s, a) && a.Rotate? && Answer(g, s, a).Some?
    ensures Successor(Next(g, s, a), a.token) == Some(Answer(g, s, a).value.refreshToken)
  {
    hide Timed, Kept;
    TokensPlaced(s);
    if Extends(s, a) {
      IssueSuccessors(s, s.table[a.token].family, s.table[a.token].user, a.new_, a.token);
    }
  }

  lemma SuccessorStays(g: Config, s: State, a: Action, t: string)
    requires Sound(g, s) && Enabled(s, a) && Successor(s, t).Some?
    ensures Successor(Next(g, s, a), t) == Successor(s, t)
  {
    hide Linked, Timed, Kept, RevokeWhere;
    if a.Create? {
      IssueSuccessors(s, a.family, a.user, a.new_, t);
    } else if Extends(s, a) {
      IssueSuccessors(s, s.table[a.token].family, s.table[a.token].user, a.new_, t);
    }
  }

  lemma {:induction false} SuccessorForever(g: Config, states: seq<State>, actions: seq<Action>, i: nat, j: nat,
                                            t: string)
    requires Run(g, states, actions) && i <= j < |states| && Successor(states[i], t).Some?
    ensures Successor(states[j], t) == Successor(states[i], t)
    decreases j
  {
    hide Next, Enabled, Successor;
    if i < j {
      SuccessorForever(g, states, actions, i, j - 1, t);
      SoundOverRuns(g, states, actions, j - 1);
      hide Sound;
      SuccessorStays(g, states[j - 1], actions[j - 1], t);
    }
  }

  // All successful refreshes of one token, anywhere in a run, hand out the same successor.
  lemma RefreshIsAFunction(g: Config, states: seq<State>, actions: seq<Action>, i: nat, j: nat)
    requires Run(g, states, actions) && i <= j < |actions|
    requires actions[i].Rotate? && actions[j].Rotate? && actions[i].token == actions[j].token
    requires Answer(g, states[i], actions[i]).Some? && Answer(g, states[j], actions[j]).Some?
    ensures Answer(g, states[i], actions[i]).value.refreshToken == Answer(g, states[j], actions[j]).value.refreshToken
  {
    hide Next, Enabled, Successor, Answer;
    SoundOverRuns(g, states, actions, i);
    SoundOverRuns(g, states, actions, j);
    hide Sound;
    AnswerIsSuccessor(g, states[i], actions[i]);
    AnswerIsSuccessor(g, states[j], actions[j]);
    SuccessorForever(g, states, actions, i + 1, j + 1, actions[i].token);
  }

  // Replaying a live token within the grace period finds its successor unless it was revoked.
  lemma SuccessorIsKept(g: Config, states: seq<State>, actions: seq<Action>, n: nat, t: string)
    requires Run(g, states, actions) && n < |states| && t in states[n].table
    requires states[n].table[t].replacedBy.Some? && states[n].clock < states[n].table[t].expiration
    ensures states[n].table[t].replacedBy.value in states[n].table
            || states[n].table[t].replacedBy.value in states[n].revokedEver
  {
    hide Run;
    SoundOverRuns(g, states, actions, n);
  }
}
