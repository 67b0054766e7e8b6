// The sliding-window limiter of typeferry-go/httptransport/http.go.  Times and the
// window are whole nanoseconds.
module SlidingWindow {
  datatype Verdict = Admitted(remaining: int, wait: int) | Refused(wait: int)

  datatype Request = Request(key: string, at: int)

  type Table = map<string, seq<int>>

  datatype Rule = Rule(max: int, window: int)

  ghost predicate Valid(rule: Rule) { rule.max >= 1 && rule.window > 0 }

  // The times of `log` less than a window before `now`.
  function Recent(rule: Rule, log: seq<int>, now: int): seq<int> {
    if log == [] then []
    else Recent(rule, log[..|log| - 1], now)
         + if now - log[|log| - 1] < rule.window then [log[|log| - 1]] else []
  }

  predicate Admits(rule: Rule, log: seq<int>, now: int) {
    |Recent(rule, log, now)| < rule.max
  }

  function Next(rule: Rule, log: seq<int>, now: int): seq<int> {
    Recent(rule, log, now) + if Admits(rule, log, now) then [now] else []
  }

  function Answer(rule: Rule, log: seq<int>, now: int): Verdict
    requires Valid(rule)
  {
    var kept := Recent(rule, log, now);
    if Admits(rule, log, now) then Admitted(rule.max - |kept| - 1, rule.window)
    else Refused(rule.window - (now - kept[0]))
  }

  /* ---------- The limiter, pruning each stored list inside its own array ---------- */

  datatype Slice = Slice(data: array<int>, len: nat)

  class Limiter {
    const rule: Rule
    var entries: map<string, Slice>

    ghost predicate Wellformed()
      reads this
    {
      && Valid(rule)
      && (forall key :: key in entries ==> entries[key].len <= entries[key].data.Length)
      && (forall key, other :: key in entries && other in entries && key != other
                               ==> entries[key].data != entries[other].data)
    }

    ghost function Arrays(): set<object>
      reads this
    {
      set key | key in entries :: entries[key].data
    }

    ghost function Log(key: string): seq<int>
      requires Wellformed()
      reads this, Arrays()
    {
      if key in entries then entries[key].data[..entries[key].len] else []
    }

    // New: a missing or non-positive limit or window takes the default.
    constructor (max: int, window: int)
      ensures Wellformed() && entries == map[]
      ensures rule == Rule(if max <= 0 then 120 else max, if window <= 0 then 60_000_000_000 else window)
    {
      rule := Rule(if max <= 0 then 120 else max, if window <= 0 then 60_000_000_000 else window);
      entries := map[];
    }

    method Consume(key: string, now: int) returns (verdict: Verdict)
      requires Wellformed()
      modifies this, Arrays()
      ensures Wellformed()
      ensures Log(key) == Next(rule, old(Log(key)), now)
      ensures verdict == Answer(rule, old(Log(key)), now)
      ensures entries.Keys == old(entries.Keys) + {key}
      ensures forall other :: other in old(entries) && other != key ==> Log(other) == old(Log(other))
    {
      hide Next, Answer;
      var stored;
      if key in entries {
        stored := entries[key];
      } else {
        var none := new int[0];
        stored := Slice(none, 0);
      }
      var renewed;
      renewed, verdict := Renew(rule, stored, now);
      entries := entries[key := renewed];
    }
  }

  // Prunes one list and, if there is room, appends the time.
  method Renew(rule: Rule, stored: Slice, now: int) returns (renewed: Slice, verdict: Verdict)
    requires Valid(rule) && stored.len <= stored.data.Length
    modifies stored.data
    ensures renewed.data == stored.data || fresh(renewed.data)
    ensures renewed.len <= renewed.data.Length
    ensures renewed.data[..renewed.len] == Next(rule, old(stored.data[..stored.len]), now)
    ensures verdict == Answer(rule, old(stored.data[..stored.len]), now)
  {
    hide Recent;
    var kept := Prune(rule, stored, now);
    if kept >= rule.max {
      renewed, verdict := Slice(stored.data, kept), Refused(rule.window - (now - stored.data[0]));
    } else {
      var grown := Append(stored.data, kept, now);
      renewed, verdict := Slice(grown, kept + 1), Admitted(rule.max - (kept + 1), rule.window);
    }
  }

  // Keeps the recent times in a prefix of the array that also holds the times being read.
  method Prune(rule: Rule, stored: Slice, now: int) returns (kept: nat)
    requires stored.len <= stored.data.Length
    modifies stored.data
    ensures kept <= stored.len
    ensures stored.data[..kept] == Recent(rule, old(stored.data[..stored.len]), now)
  {
    var data := stored.data;
    ghost var before := data[..stored.len];
    kept := 0;
    for i := 0 to stored.len
      invariant kept <= i
      invariant data[..kept] == Recent(rule, before[..i], now)
      invariant forall j :: i <= j < stored.len ==> data[j] == before[j]
    {
      var instant := data[i];
      RecentNext(rule, before, i, now);
      hide Recent;
      if now - instant < rule.window {
        data[kept] := instant;
        kept := kept + 1;
      }
    }
    assert before[..stored.len] == before;
  }

  lemma RecentNext(rule: Rule, log: seq<int>, i: nat, now: int)
    requires i < |log|
    ensures Recent(rule, log[..i + 1], now)
         == Recent(rule, log[..i], now) + if now - log[i] < rule.window then [log[i]] else []
  {
    assert log[..i + 1][..i] == log[..i];
  }

  // append: in place while there is room, otherwise in a larger array.
  method Append(data: array<int>, len: nat, value: int) returns (grown: array<int>)
    requires len <= data.Length
    modifies data
    ensures grown == data || fresh(grown)
    ensures len < grown.Length && grown[..len + 1] == old(data[..len]) + [value]
  {
    grown := data;
    if len == data.Length {
      grown := new int[2 * len + 1];
      for i := 0 to len
        invariant grown[..i] == data[..i]
        invariant data[..] == old(data[..])
      {
        grown[i] := data[i];
      }
    }
    grown[len] := value;
  }

  /* ---------- Runs ---------- */

  function Stored(entries: Table, key: string): seq<int> {
    if key in entries then entries[key] else []
  }

  // The table after the requests, in order.
  function Final(rule: Rule, requests: seq<Request>): Table {
    if requests == [] then map[]
    else
      var last := requests[|requests| - 1];
      var before := Final(rule, requests[..|requests| - 1]);
      before[last.key := Next(rule, Stored(before, last.key), last.at)]
  }

  // Every time at which a request for the key was admitted, nothing forgotten.
  function Admissions(rule: Rule, requests: seq<Request>, key: string): seq<int> {
    if requests == [] then []
    else
      var last, before := requests[|requests| - 1], requests[..|requests| - 1];
      Admissions(rule, before, key)
      + if last.key == key && Admits(rule, Stored(Final(rule, before), key), last.at) then [last.at] else []
  }

  ghost predicate Ordered(requests: seq<Request>) {
    forall i, j :: 0 <= i < j < |requests| ==> requests[i].at <= requests[j].at
  }

  ghost predicate Reached(requests: seq<Request>, now: int) {
    Ordered(requests) && forall i :: 0 <= i < |requests| ==> requests[i].at <= now
  }

  function Within(log: seq<int>, from: int, to: int): seq<int> {
    if log == [] then []
    else Within(log[..|log| - 1], from, to) + if from <= log[|log| - 1] < to then [log[|log| - 1]] else []
  }

  /* ---------- Facts about Recent ---------- */

  lemma {:induction false} RecentAppends(rule: Rule, a: seq<int>, b: seq<int>, now: int)
    ensures Recent(rule, a + b, now) == Recent(rule, a, now) + Recent(rule, b, now)
  {
    if b == [] {
      assert a + b == a;
    } else {
      assert (a + b)[..|a + b| - 1] == a + b[..|b| - 1];
      RecentAppends(rule, a, b[..|b| - 1], now);
    }
  }

  // Forgetting what an earlier request no longer saw loses nothing for a later one.
  lemma {:induction false} RecentTwice(rule: Rule, log: seq<int>, now: int, later: int)
    requires now <= later
    ensures Recent(rule, Recent(rule, log, now), later) == Recent(rule, log, later)
  {
    if log != [] {
      var front, last := log[..|log| - 1], log[|log| - 1];
      RecentTwice(rule, front, now, later);
      var tail := if now - last < rule.window then [last] else [];
      RecentAppends(rule, Recent(rule, front, now), tail, later);
    }
  }

  lemma {:induction false} WithinRecent(rule: Rule, log: seq<int>, from: int, now: int)
    requires now - rule.window < from
    ensures |Within(log, from, from + rule.window)| <= |Recent(rule, log, now)|
  {
    if log != [] {
      WithinRecent(rule, log[..|log| - 1], from, now);
    }
  }

  ghost predicate Rising(log: seq<int>) {
    forall i, j :: 0 <= i < j < |log| ==> log[i] <= log[j]
  }

  ghost predicate UpTo(log: seq<int>, now: int) {
    forall i :: 0 <= i < |log| ==> log[i] <= now
  }

  ghost predicate AllRecent(rule: Rule, log: seq<int>, now: int) {
    forall i :: 0 <= i < |log| ==> now - log[i] < rule.window
  }

  lemma {:induction false} RecentMembers(rule: Rule, log: seq<int>, now: int)
    ensures AllRecent(rule, Recent(rule, log, now), now)
    ensures |Recent(rule, log, now)| <= |log|
  {
    if log != [] {
      RecentMembers(rule, log[..|log| - 1], now);
    }
  }

  lemma {:induction false} RecentOrder(rule: Rule, log: seq<int>, now: int, bound: int)
    requires Rising(log) && UpTo(log, bound)
    ensures Rising(Recent(rule, log, now)) && UpTo(Recent(rule, log, now), bound)
  {
    if log != [] {
      RecentOrder(rule, log[..|log| - 1], now, log[|log| - 1]);
    }
  }

  lemma {:induction false} RecentAll(rule: Rule, log: seq<int>, now: int)
    requires AllRecent(rule, log, now)
    ensures Recent(rule, log, now) == log
  {
    if log != [] {
      RecentAll(rule, log[..|log| - 1], now);
      assert log[..|log| - 1] + [log[|log| - 1]] == log;
    }
  }

  lemma {:induction false} RecentDrops(rule: Rule, log: seq<int>, now: int)
    requires log != [] && now - log[0] >= rule.window
    ensures |Recent(rule, log, now)| < |log|
  {
    RecentMembers(rule, log[..|log| - 1], now);
    if |log| > 1 {
      RecentDrops(rule, log[..|log| - 1], now);
    }
  }

  /* ---------- The theorems ---------- */

  lemma Split(requests: seq<Request>, now: int) returns (front: seq<Request>, last: Request)
    requires requests != [] && Reached(requests, now)
    ensures front == requests[..|requests| - 1] && last == requests[|requests| - 1]
    ensures requests == front + [last] && Reached(front, last.at) && Reached(front, now) && last.at <= now
  {
    front, last := requests[..|requests| - 1], requests[|requests| - 1];
  }

  // One more request, for the same key or for another.
  lemma OneMore(rule: Rule, front: seq<Request>, last: Request, key: string)
    ensures Stored(Final(rule, front + [last]), key)
         == if last.key == key then Next(rule, Stored(Final(rule, front), key), last.at)
            else Stored(Final(rule, front), key)
    ensures Admissions(rule, front + [last], key)
         == Admissions(rule, front, key)
            + if last.key == key && Admits(rule, Stored(Final(rule, front), key), last.at) then [last.at] else []
  {
    assert (front + [last])[..|front + [last]| - 1] == front;
    hide Next, Admits;
  }

  // The pruned list answers every later request as the full history would.
  lemma {:induction false} PruningIsInvisible(rule: Rule, requests: seq<Request>, key: string, now: int)
    requires Reached(requests, now) && Valid(rule)
    ensures Recent(rule, Stored(Final(rule, requests), key), now) == Recent(rule, Admissions(rule, requests, key), now)
  {
    if requests != [] {
      var front, last := Split(requests, now);
      PruningIsInvisible(rule, front, key, now);
      OneMore(rule, front, last, key);
      hide Recent, Final, Admissions, Admits;
      if last.key != key {
        assert Admissions(rule, requests, key) == Admissions(rule, front, key);
      } else {
        var log := Stored(Final(rule, front), key);
        var tail := if Admits(rule, log, last.at) then [last.at] else [];
        RecentAppends(rule, Recent(rule, log, last.at), tail, now);
        RecentTwice(rule, log, last.at, now);
        RecentAppends(rule, Admissions(rule, front, key), tail, now);
      }
    }
  }

  // No window of the configured length, wherever it starts, holds more than `max` admissions.
  lemma {:induction false} EveryWindowIsBounded(rule: Rule, requests: seq<Request>, key: string, from: int, now: int)
    requires Reached(requests, now) && Valid(rule)
    ensures |Within(Admissions(rule, requests, key), from, from + rule.window)| <= rule.max
  {
    if requests != [] {
      var front, last := Split(requests, now);
      EveryWindowIsBounded(rule, front, key, from, now);
      OneMore(rule, front, last, key);
      var past := Admissions(rule, front, key);
      if Admissions(rule, requests, key) != past {
        PruningIsInvisible(rule, front, key, last.at);
        assert |Recent(rule, past, last.at)| < rule.max;
        hide Recent, Final, Admissions;
        assert Admissions(rule, requests, key)[..|past|] == past;
        if from <= last.at < from + rule.window {
          WithinRecent(rule, past, from, last.at);
        }
      }
    }
  }

  // A request is refused exactly when the window ending with it already holds `max` admissions.
  lemma RefusedExactly(rule: Rule, requests: seq<Request>, key: string, now: int)
    requires Reached(requests, now) && Valid(rule)
    ensures !Admits(rule, Stored(Final(rule, requests), key), now)
       <==> |Within(Admissions(rule, requests, key), now - rule.window + 1, now + 1)| == rule.max
  {
    hide Recent, Final, Admissions, Within, Stored;
    PruningIsInvisible(rule, requests, key, now);
    AdmissionsRise(rule, requests, key, now);
    RecentIsWithin(rule, Admissions(rule, requests, key), now);
    EveryWindowIsBounded(rule, requests, key, now - rule.window + 1, now);
  }

  lemma {:induction false} RecentIsWithin(rule: Rule, log: seq<int>, now: int)
    requires UpTo(log, now)
    ensures Recent(rule, log, now) == Within(log, now - rule.window + 1, now + 1)
  {
    if log != [] {
      RecentIsWithin(rule, log[..|log| - 1], now);
    }
  }

  lemma RisesOn(log: seq<int>, at: int, now: int, admitted: bool)
    requires Rising(log) && UpTo(log, at) && at <= now
    ensures var log' := log + if admitted then [at] else [];
            Rising(log') && UpTo(log', now)
  {
  }

  lemma {:induction false} AdmissionsRise(rule: Rule, requests: seq<Request>, key: string, now: int)
    requires Reached(requests, now)
    ensures Rising(Admissions(rule, requests, key)) && UpTo(Admissions(rule, requests, key), now)
  {
    if requests != [] {
      hide Final, Stored, Admissions, Admits, Reached, Rising, UpTo;
      var front, last := Split(requests, now);
      AdmissionsRise(rule, front, key, last.at);
      OneMore(rule, front, last, key);
      RisesOn(Admissions(rule, front, key), last.at, now,
              last.key == key && Admits(rule, Stored(Final(rule, front), key), last.at));
    }
  }

  // The list kept for a key rises and never outgrows the limit.
  lemma {:induction false} StoredShape(rule: Rule, requests: seq<Request>, key: string, now: int)
    requires Reached(requests, now) && Valid(rule)
    ensures var log := Stored(Final(rule, requests), key);
            Rising(log) && UpTo(log, now) && |log| <= rule.max
  {
    if requests != [] {
      var front, last := Split(requests, now);
      StoredShape(rule, front, key, last.at);
      OneMore(rule, front, last, key);
      hide Final, Recent, Stored;
      RecentMembers(rule, Stored(Final(rule, front), key), last.at);
      RecentOrder(rule, Stored(Final(rule, front), key), last.at, last.at);
    }
  }

  // What a refusal leaves behind: a full list, whose oldest time decides when it has room again.
  lemma RefusalLeaves(rule: Rule, requests: seq<Request>, key: string, now: int, later: int)
    requires Valid(rule) && Reached(requests, now) && now <= later
    requires !Admits(rule, Stored(Final(rule, requests), key), now)
    ensures var log := Stored(Final(rule, requests), key);
            var kept := Recent(rule, log, now);
            && Next(rule, log, now) == kept
            && (later < now + Answer(rule, log, now).wait ==> Recent(rule, kept, later) == kept)
            && (Admits(rule, kept, later) <==> later >= now + Answer(rule, log, now).wait)
  {
    hide Recent, Final, Stored;
    var log := Stored(Final(rule, requests), key);
    var kept := Recent(rule, log, now);
    StoredShape(rule, requests, key, now);
    RecentMembers(rule, log, now);
    RecentOrder(rule, log, now, now);
    if later < now + Answer(rule, log, now).wait {
      assert AllRecent(rule, kept, later);
      RecentAll(rule, kept, later);
    } else {
      RecentDrops(rule, kept, later);
    }
  }

  // The wait announced with a refusal is exact: whatever is requested in the meantime, a
  // request for the key is refused before the wait is over and admitted once it is.
  lemma {:induction false} WaitIsExact(rule: Rule, requests: seq<Request>, key: string, now: int, more: seq<Request>,
                                       later: int)
    requires Valid(rule) && Reached(requests, now) && Reached(more, later) && now <= later
    requires !Admits(rule, Stored(Final(rule, requests), key), now)
    requires var wait := Answer(rule, Stored(Final(rule, requests), key), now).wait;
             forall i :: 0 <= i < |more| ==> now <= more[i].at < now + wait
    ensures var log := Stored(Final(rule, requests), key);
            var reached := Final(rule, requests + [Request(key, now)] + more);
            && Stored(reached, key) == Recent(rule, log, now)
            && (Admits(rule, Stored(reached, key), later) <==> later >= now + Answer(rule, log, now).wait)
  {
    hide Recent, Final, Stored, Answer, Admits;
    RefusalLeaves(rule, requests, key, now, later);
    var asked := requests + [Request(key, now)];
    OneMore(rule, requests, Request(key, now), key);
    if more == [] {
      assert asked + more == asked;
    } else {
      var front, last := Split(more, later);
      assert asked + more == asked + front + [last];
      WaitIsExact(rule, requests, key, now, front, last.at);
      OneMore(rule, asked + front, last, key);
      RefusalLeaves(rule, requests, key, now, last.at);
    }
  }

  // So many requests for one key at one moment.
  function Burst(key: string, now: int, m: nat): seq<Request> {
    if m == 0 then [] else Burst(key, now, m - 1) + [Request(key, now)]
  }

  lemma {:induction false} BurstReached(requests: seq<Request>, key: string, now: int, m: nat)
    requires Reached(requests, now)
    ensures Reached(requests + Burst(key, now, m), now)
  {
    if m == 0 {
      assert requests + Burst(key, now, 0) == requests;
    } else {
      BurstReached(requests, key, now, m - 1);
      assert requests + Burst(key, now, m) == (requests + Burst(key, now, m - 1)) + [Request(key, now)];
    }
  }

  lemma OnePress(rule: Rule, log: seq<int>, now: int)
    requires Valid(rule)
    ensures var kept := |Recent(rule, log, now)|;
            |Recent(rule, Next(rule, log, now), now)| == if kept < rule.max then kept + 1 else kept
  {
    var tail := if Admits(rule, log, now) then [now] else [];
    assert Recent(rule, tail, now) == tail;
    RecentAppends(rule, Recent(rule, log, now), tail, now);
    RecentTwice(rule, log, now, now);
  }

  // The list after a burst: as long as before and the burst together, up to the limit.
  lemma {:induction false} BurstStored(rule: Rule, requests: seq<Request>, key: string, now: int, m: nat)
    requires Valid(rule) && |Recent(rule, Stored(Final(rule, requests), key), now)| <= rule.max
    ensures var kept := |Recent(rule, Stored(Final(rule, requests), key), now)|;
            var log := Stored(Final(rule, requests + Burst(key, now, m)), key);
            |Recent(rule, log, now)| == if kept + m <= rule.max then kept + m else rule.max
  {
    hide Final, Stored, Recent, Next;
    if m == 0 {
      assert requests + Burst(key, now, 0) == requests;
    } else {
      BurstStored(rule, requests, key, now, m - 1);
      var asked := requests + Burst(key, now, m - 1);
      assert requests + Burst(key, now, m) == asked + [Request(key, now)];
      OneMore(rule, asked, Request(key, now), key);
      OnePress(rule, Stored(Final(rule, asked), key), now);
    }
  }

  // The allowance announced with an admission is exact: of any number of requests for the key at
  // that moment, this one and as many more as announced are admitted and no other; and once the
  // announced wait is over nothing admitted so far counts any longer.
  lemma AllowanceIsExact(rule: Rule, requests: seq<Request>, key: string, now: int, m: nat)
    requires Valid(rule) && Reached(requests, now) && Admits(rule, Stored(Final(rule, requests), key), now)
    ensures var answer := Answer(rule, Stored(Final(rule, requests), key), now);
            var log := Stored(Final(rule, requests + Burst(key, now, m)), key);
            && answer.Admitted? && answer.remaining >= 0
            && (Admits(rule, log, now) <==> m <= answer.remaining)
            && (forall later :: later >= now + answer.wait ==> Recent(rule, log, later) == [])
            && (m > 0 ==> forall later :: now <= later < now + answer.wait ==> Recent(rule, log, later) != [])
  {
    hide Final, Stored, Recent;
    BurstStored(rule, requests, key, now, m);
    BurstReached(requests, key, now, m);
    var all := requests + Burst(key, now, m);
    var log := Stored(Final(rule, all), key);
    StoredShape(rule, all, key, now);
    forall later | later >= now + rule.window
      ensures Recent(rule, log, later) == []
    {
      NoneRecent(rule, log, now, later);
    }
    if m > 0 {
      BurstLast(rule, requests, key, now, m);
      forall later | now <= later < now + rule.window
        ensures Recent(rule, log, later) != []
      {
        RecentKeeps(rule, log, now, later);
      }
    }
  }

  lemma {:induction false} NoneRecent(rule: Rule, log: seq<int>, now: int, later: int)
    requires UpTo(log, now) && later >= now + rule.window
    ensures Recent(rule, log, later) == []
  {
    if log != [] {
      NoneRecent(rule, log[..|log| - 1], now, later);
    }
  }

  // A burst that begins with an admission leaves its moment in the list.
  lemma {:induction false} BurstLast(rule: Rule, requests: seq<Request>, key: string, now: int, m: nat)
    requires Valid(rule) && Reached(requests, now) && Admits(rule, Stored(Final(rule, requests), key), now) && m > 0
    ensures now in Stored(Final(rule, requests + Burst(key, now, m)), key)
  {
    hide Final, Stored, Recent;
    var asked := requests + Burst(key, now, m - 1);
    assert requests + Burst(key, now, m) == asked + [Request(key, now)];
    OneMore(rule, asked, Request(key, now), key);
    if m == 1 {
      assert asked == requests;
    } else {
      BurstLast(rule, requests, key, now, m - 1);
      RecentKeeps(rule, Stored(Final(rule, asked), key), now, now);
    }
  }

  lemma {:induction false} RecentKeeps(rule: Rule, log: seq<int>, at: int, now: int)
    requires at in log && now - at < rule.window
    ensures at in Recent(rule, log, now)
  {
    if log[|log| - 1] != at {
      RecentKeeps(rule, log[..|log| - 1], at, now);
    }
  }

  // A key's list depends only on the requests for that key.
  lemma {:induction false} KeysAreIndependent(rule: Rule, requests: seq<Request>, key: string)
    ensures Stored(Final(rule, requests), key) == Stored(Final(rule, For(requests, key)), key)
    ensures Admissions(rule, requests, key) == Admissions(rule, For(requests, key), key)
  {
    hide Final, Admissions, Stored, Admits, Next;
    if requests != [] {
      var front, last := requests[..|requests| - 1], requests[|requests| - 1];
      assert requests == front + [last];
      KeysAreIndependent(rule, front, key);
      OneMore(rule, front, last, key);
      OneMore(rule, For(front, key), last, key);
      if last.key == key {
        assert For(requests, key) == For(front, key) + [last];
      } else {
        assert For(requests, key) == For(front, key);
      }
    }
  }

  function For(requests: seq<Request>, key: string): seq<Request> {
    if requests == [] then []
    else
      var last := requests[|requests| - 1];
      For(requests[..|requests| - 1], key) + if last.key == key then [last] else []
  }
}
