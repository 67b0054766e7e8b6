// The token bucket of typeferry-go/websocket/dispatcher.go, over real-valued time.
module TokenBucket {
  datatype Bucket = Bucket(capacity: real, interval: real, tokens: real, last: real)

  ghost predicate Valid(b: Bucket) {
    b.capacity >= 1.0 && b.interval > 0.0 && 0.0 <= b.tokens <= b.capacity
  }

  // Tokens earned over a span of time.
  function Gain(b: Bucket, span: real): real
    requires b.interval > 0.0
  {
    span / b.interval * b.capacity
  }

  // The level once the bucket has been refilled at `now`.
  function Level(b: Bucket, now: real): real
    requires b.interval > 0.0
  {
    var filled := b.tokens + Gain(b, now - b.last);
    if filled > b.capacity then b.capacity else filled
  }

  predicate Admits(b: Bucket, now: real)
    requires b.interval > 0.0
  {
    Level(b, now) >= 1.0
  }

  function After(b: Bucket, now: real): Bucket
    requires b.interval > 0.0
  {
    b.(tokens := if Admits(b, now) then Level(b, now) - 1.0 else Level(b, now), last := now)
  }

  class RateLimiter {
    var bucket: Bucket

    // SetRateLimit: the bucket starts full.
    constructor (max: nat, interval: real, now: real)
      requires max > 0 && interval > 0.0
      ensures bucket == Bucket(max as real, interval, max as real, now) && Valid(bucket)
    {
      bucket := Bucket(max as real, interval, max as real, now);
    }

    method Take(now: real) returns (admitted: bool)
      requires Valid(bucket) && bucket.last <= now
      modifies this
      ensures bucket == After(old(bucket), now) && admitted == Admits(old(bucket), now)
      ensures Valid(bucket)
    {
      GainPositive(bucket, now - bucket.last);
      var tokens := bucket.tokens + (now - bucket.last) / bucket.interval * bucket.capacity;
      if tokens > bucket.capacity {
        tokens := bucket.capacity;
      }
      if tokens < 1.0 {
        bucket := bucket.(tokens := tokens, last := now);
        return false;
      }
      bucket := bucket.(tokens := tokens - 1.0, last := now);
      return true;
    }
  }

  /* ---------- Runs of takes ---------- */

  // A run: the bucket before each take, the bucket at the end, and the times of the takes.
  ghost predicate Run(bs: seq<Bucket>, ts: seq<real>) {
    && |bs| == |ts| + 1
    && Valid(bs[0]) && bs[0].tokens == bs[0].capacity
    && (forall i :: 0 <= i < |ts| ==> bs[i].interval > 0.0 && bs[i].last <= ts[i] && bs[i + 1] == After(bs[i], ts[i]))
  }

  // How many of the takes i, ..., j - 1 were admitted.
  function Count(bs: seq<Bucket>, ts: seq<real>, i: nat, j: nat): nat
    requires i <= j <= |ts| <= |bs| && forall k :: 0 <= k < |ts| ==> bs[k].interval > 0.0
    decreases j
  {
    if i == j then 0 else Count(bs, ts, i, j - 1) + if Admits(bs[j - 1], ts[j - 1]) then 1 else 0
  }

  lemma GainPositive(b: Bucket, span: real)
    requires b.interval > 0.0 && b.capacity >= 0.0 && span >= 0.0
    ensures Gain(b, span) >= 0.0
  {
    assert span / b.interval >= 0.0;
  }

  lemma GainAdds(b: Bucket, x: real, y: real)
    requires b.interval > 0.0
    ensures Gain(b, x) + Gain(b, y) == Gain(b, x + y)
  {
    assert x / b.interval + y / b.interval == (x + y) / b.interval;
  }

  lemma {:induction false} RunValid(bs: seq<Bucket>, ts: seq<real>, n: nat)
    requires Run(bs, ts) && n < |bs|
    ensures Valid(bs[n]) && bs[n].capacity == bs[0].capacity && bs[n].interval == bs[0].interval
    ensures n > 0 ==> bs[n].last == ts[n - 1]
  {
    if n > 0 {
      RunValid(bs, ts, n - 1);
      GainPositive(bs[n - 1], ts[n - 1] - bs[n - 1].last);
    }
  }

  // What is left after takes i, ..., j - 1, at most and for some i exactly.
  function Budget(bs: seq<Bucket>, ts: seq<real>, i: nat, j: nat): real
    requires i <= j < |ts| < |bs| && forall k :: 0 <= k < |ts| ==> bs[k].interval > 0.0
  {
    bs[0].capacity + Gain(bs[0], ts[j] - ts[i]) - Count(bs, ts, i, j) as real
  }

  lemma BudgetStep(bs: seq<Bucket>, ts: seq<real>, i: nat, j: nat)
    requires Run(bs, ts) && i < j < |ts|
    ensures Budget(bs, ts, i, j)
         == Budget(bs, ts, i, j - 1) - (if Admits(bs[j - 1], ts[j - 1]) then 1.0 else 0.0)
            + Gain(bs[0], ts[j] - ts[j - 1])
  {
    hide Gain, Admits;
    GainAdds(bs[0], ts[j - 1] - ts[i], ts[j] - ts[j - 1]);
    assert ts[j - 1] - ts[i] + (ts[j] - ts[j - 1]) == ts[j] - ts[i];
  }

  lemma LevelStep(bs: seq<Bucket>, ts: seq<real>, j: nat)
    requires Run(bs, ts) && 0 < j < |ts|
    ensures var carried := Level(bs[j - 1], ts[j - 1]) - (if Admits(bs[j - 1], ts[j - 1]) then 1.0 else 0.0)
                           + Gain(bs[0], ts[j] - ts[j - 1]);
            Level(bs[j], ts[j]) == if carried > bs[0].capacity then bs[0].capacity else carried
  {
    RunValid(bs, ts, j);
    RunValid(bs, ts, j - 1);
    assert Gain(bs[j], ts[j] - bs[j].last) == Gain(bs[0], ts[j] - ts[j - 1]);
    hide Gain;
  }

  lemma {:induction false} LevelAtMost(bs: seq<Bucket>, ts: seq<real>, i: nat, j: nat)
    requires Run(bs, ts) && i <= j < |ts|
    ensures Level(bs[j], ts[j]) <= Budget(bs, ts, i, j)
    decreases j
  {
    RunValid(bs, ts, j);
    if i == j {
      assert Gain(bs[0], 0.0) == 0.0;
    } else {
      LevelAtMost(bs, ts, i, j - 1);
      BudgetStep(bs, ts, i, j);
      LevelStep(bs, ts, j);
      hide Budget, Level, Admits, Gain;
    }
  }

  // Between any two takes at s and t at most capacity * (1 + (t - s) / interval) are admitted.
  lemma AdmissionsAreBounded(bs: seq<Bucket>, ts: seq<real>, i: nat, j: nat)
    requires Run(bs, ts) && i <= j < |ts|
    ensures Count(bs, ts, i, j + 1) as real <= bs[0].capacity * (1.0 + (ts[j] - ts[i]) / bs[0].interval)
  {
    LevelAtMost(bs, ts, i, j);
    RunValid(bs, ts, j);
    GainPositive(bs[j], ts[j] - bs[j].last);
    BoundForm(bs[0].capacity, (ts[j] - ts[i]) / bs[0].interval);
    hide Level;
    assert Level(bs[j], ts[j]) >= 0.0 by {
      LevelPositive(bs[j], ts[j]);
    }
  }

  lemma LevelPositive(b: Bucket, now: real)
    requires Valid(b) && b.last <= now
    ensures Level(b, now) >= 0.0
  {
    GainPositive(b, now - b.last);
  }

  lemma BoundForm(capacity: real, x: real)
    ensures capacity * (1.0 + x) == capacity + x * capacity
  {
  }

  // Since some earlier take the level has followed the budget exactly.
  lemma {:induction false} LevelExact(bs: seq<Bucket>, ts: seq<real>, j: nat) returns (i: nat)
    requires Run(bs, ts) && j < |ts|
    ensures i <= j && Level(bs[j], ts[j]) == Budget(bs, ts, i, j)
    decreases j
  {
    RunValid(bs, ts, j);
    if Level(bs[j], ts[j]) == bs[0].capacity {
      i := j;
      assert Gain(bs[0], 0.0) == 0.0;
    } else if j == 0 {
      GainPositive(bs[0], ts[0] - bs[0].last);
      assert false;
    } else {
      i := LevelExact(bs, ts, j - 1);
      BudgetStep(bs, ts, i, j);
      LevelStep(bs, ts, j);
    }
  }

  // Admitting one more than were admitted since take i would break the bound.
  ghost predicate OverBound(bs: seq<Bucket>, ts: seq<real>, i: nat, j: nat)
    requires Run(bs, ts) && i <= j < |ts|
  {
    Count(bs, ts, i, j) as real + 1.0 > bs[0].capacity * (1.0 + (ts[j] - ts[i]) / bs[0].interval)
  }

  lemma OverBoundExactly(bs: seq<Bucket>, ts: seq<real>, i: nat, j: nat)
    requires Run(bs, ts) && i <= j < |ts|
    ensures OverBound(bs, ts, i, j) <==> Budget(bs, ts, i, j) < 1.0
  {
    BoundForm(bs[0].capacity, (ts[j] - ts[i]) / bs[0].interval);
  }

  // A take is refused exactly when admitting it would break the bound for some earlier take.
  lemma RefusedExactly(bs: seq<Bucket>, ts: seq<real>, j: nat)
    requires Run(bs, ts) && j < |ts|
    ensures !Admits(bs[j], ts[j]) <==> exists i: nat :: i <= j && OverBound(bs, ts, i, j)
  {
    hide Gain, OverBound, Budget;
    if Admits(bs[j], ts[j]) {
      forall i: nat | i <= j
        ensures !OverBound(bs, ts, i, j)
      {
        LevelAtMost(bs, ts, i, j);
        OverBoundExactly(bs, ts, i, j);
      }
    } else {
      var i := LevelExact(bs, ts, j);
      OverBoundExactly(bs, ts, i, j);
    }
  }
}
