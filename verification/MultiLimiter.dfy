/** A list of rate limiters asked in order. Each limiter is an exact token bucket: `credit` is
    time saved up, one token costs `period` of it, and at most `burst` tokens can be saved. */
module MultiLimiter {

  datatype Bucket = Bucket(period: nat, burst: nat, credit: nat, last: nat)

  function Capacity(b: Bucket): nat {
    b.burst * b.period
  }

  predicate BucketOk(b: Bucket) {
    b.period > 0 && b.credit <= Capacity(b)
  }

  /** The credit at a later time, without asking for anything. */
  function Advance(b: Bucket, now: nat): nat
    requires b.last <= now
  {
    if b.credit + (now - b.last) <= Capacity(b) then b.credit + (now - b.last) else Capacity(b)
  }

  /** Allow of one limiter: a token is taken if there is a whole one. */
  function Take(b: Bucket, now: nat): (r: (bool, Bucket))
    requires BucketOk(b) && b.last <= now
    ensures BucketOk(r.1)
  {
    var credit := Advance(b, now);
    if credit >= b.period then (true, b.(credit := credit - b.period, last := now)) else (false, b)
  }

  /** Full for anybody who asks from `now` on. */
  predicate Full(b: Bucket, now: nat)
    requires b.last <= now
  {
    Advance(b, now) == Capacity(b)
  }

  ghost predicate AllOk(bs: seq<Bucket>, now: nat) {
    forall i | 0 <= i < |bs| :: BucketOk(bs[i]) && bs[i].last <= now
  }

  /** The buckets that a call charges: all up to the first that refuses, which is not charged. */
  function Reached(bs: seq<Bucket>, now: nat): (n: nat)
    requires AllOk(bs, now)
    ensures n <= |bs|
    ensures forall i | 0 <= i < n :: Take(bs[i], now).0
    ensures n < |bs| ==> !Take(bs[n], now).0
  {
    if bs == [] || !Take(bs[0], now).0 then 0 else 1 + Reached(bs[1..], now)
  }

  /** A bucket that can pay for a call, in plain arithmetic: it can save up a token at all, and what it
      has saved, with the time since it was last used, makes a whole one. */
  predicate HasToken(b: Bucket, now: nat)
    requires b.last <= now
  {
    b.burst >= 1 && b.credit + (now - b.last) >= b.period
  }

  /** A bucket before and after it paid for a call: exactly one period less than what it had saved up,
      which is never more than burst periods. */
  predicate Charged(before: Bucket, after: Bucket, now: nat)
    requires before.last <= now
  {
    && after.period == before.period && after.burst == before.burst && after.last == now
    && var saved := before.credit + (now - before.last);
       after.credit + before.period == if saved <= before.burst * before.period then saved
                                       else before.burst * before.period
  }

  /** Allow of one limiter takes a token if and only if there is one. */
  lemma TakesAToken(b: Bucket, now: nat)
    requires BucketOk(b) && b.last <= now
    ensures Take(b, now).0 <==> HasToken(b, now)
    ensures if HasToken(b, now) then Charged(b, Take(b, now).1, now) else Take(b, now).1 == b
  {
    if b.burst >= 1 {
      assert b.burst * b.period >= b.period;
    }
  }

  /** The effect of one call on all buckets. */
  function AllowAll(bs: seq<Bucket>, now: nat): (r: (bool, seq<Bucket>))
    requires AllOk(bs, now)
    ensures |r.1| == |bs| && AllOk(r.1, now)
  {
    var n := Reached(bs, now);
    (n == |bs|, seq(|bs|, i requires 0 <= i < |bs| => if i < n then Take(bs[i], now).1 else bs[i]))
  }

  ghost predicate TokensUpTo(bs: seq<Bucket>, i: nat, now: nat)
    requires i < |bs| && AllOk(bs, now)
  {
    forall k | 0 <= k <= i :: HasToken(bs[k], now)
  }

  lemma AllowEffect(bs: seq<Bucket>, now: nat)
    requires AllOk(bs, now)
    ensures var r := AllowAll(bs, now);
      && (r.0 <==> forall i | 0 <= i < |bs| :: HasToken(bs[i], now))
      && forall i | 0 <= i < |bs| ::
           if TokensUpTo(bs, i, now) then Charged(bs[i], r.1[i], now) else r.1[i] == bs[i]
  {
    var n := Reached(bs, now);
    forall i | 0 <= i < |bs|
      ensures Take(bs[i], now).0 <==> HasToken(bs[i], now)
      ensures HasToken(bs[i], now) ==> Charged(bs[i], Take(bs[i], now).1, now)
    {
      TakesAToken(bs[i], now);
    }
    hide Take, HasToken, Charged;
    forall i | 0 <= i < |bs| ensures TokensUpTo(bs, i, now) <==> i < n {
      if n <= i {
        assert !HasToken(bs[n], now);
      }
    }
  }

  class MultiLimiter {
    var limiters: seq<Bucket>

    constructor (limiters: seq<Bucket>)
      ensures this.limiters == limiters
    {
      this.limiters := limiters;
    }

    /** Allow: the call is granted iff every bucket has a token, and then each pays one period. If some
        bucket has none, those before it pay all the same, and it and those behind it do not. */
    method Allow(now: nat) returns (ok: bool)
      requires AllOk(limiters, now)
      modifies this
      ensures AllOk(limiters, now) && |limiters| == |old(limiters)|
      ensures (ok, limiters) == AllowAll(old(limiters), now)
      ensures ok <==> forall i | 0 <= i < |limiters| :: HasToken(old(limiters)[i], now)
      ensures forall i | 0 <= i < |limiters| ::
                if TokensUpTo(old(limiters), i, now)
                then Charged(old(limiters)[i], limiters[i], now)
                else limiters[i] == old(limiters)[i]
    {
      ghost var was := limiters;
      ghost var n := Reached(was, now);
      AllowEffect(was, now);
      var idx := 0;
      while idx < |limiters|
        invariant idx <= n && |limiters| == |was|
        invariant forall i | 0 <= i < |was| :: limiters[i] == if i < idx then Take(was[i], now).1 else was[i]
      {
        var (granted, b) := Take(limiters[idx], now);
        if !granted {
          assert limiters == AllowAll(was, now).1;
          return false;
        }
        limiters := limiters[idx := b];
        idx := idx + 1;
      }
      assert limiters == AllowAll(was, now).1;
      return true;
    }
  }

  // ---------------------------------------------------------------- runs of calls

  predicate Ordered(times: seq<nat>) {
    forall i, j | 0 <= i < j < |times| :: times[i] <= times[j]
  }

  /** A run: calls at the given non-decreasing times on buckets last used before. */
  ghost predicate Calls(bs: seq<Bucket>, times: seq<nat>) {
    Ordered(times) && (times != [] ==> AllOk(bs, times[0]))
  }

  /** The buckets after the first k calls. */
  ghost function After(bs: seq<Bucket>, times: seq<nat>, k: nat): (r: seq<Bucket>)
    requires Calls(bs, times) && k <= |times|
    ensures |r| == |bs|
    ensures k > 0 ==> AllOk(r, times[k - 1])
    ensures k < |times| ==> AllOk(r, times[k])
  {
    if k == 0 then bs else AllowAll(After(bs, times, k - 1), times[k - 1]).1
  }

  /** Grants among calls lo..hi-1. */
  ghost function Grants(bs: seq<Bucket>, times: seq<nat>, lo: nat, hi: nat): nat
    requires Calls(bs, times) && lo <= hi <= |times|
    decreases hi
  {
    if lo == hi then 0
    else Grants(bs, times, lo, hi - 1) + if AllowAll(After(bs, times, hi - 1), times[hi - 1]).0 then 1 else 0
  }

  lemma {:induction false} ShapeKept(bs: seq<Bucket>, times: seq<nat>, k: nat, i: nat)
    requires Calls(bs, times) && k <= |times| && i < |bs|
    ensures var b := After(bs, times, k)[i]; b.period == bs[i].period && Capacity(b) == Capacity(bs[i])
  {
    if k > 0 {
      hide Capacity;
      ShapeKept(bs, times, k - 1, i);
    }
  }

  /** The credit that n tokens cost. */
  function Cost(n: nat, period: nat): nat {
    n * period
  }

  /** One call: a grant costs every bucket one period, and nothing else adds credit. */
  lemma GrantIsPaid(bs: seq<Bucket>, now: nat, i: nat)
    requires AllOk(bs, now) && i < |bs|
    ensures var r := AllowAll(bs, now);
      r.1[i].last <= now
      && Advance(r.1[i], now) + (if r.0 then bs[i].period else 0) <= Advance(bs[i], now)
      && r.1[i].period == bs[i].period
  {
  }

  lemma CreditGrows(b: Bucket, t1: nat, t2: nat)
    requires b.last <= t1 <= t2 && BucketOk(b)
    ensures Advance(b, t2) <= Advance(b, t1) + (t2 - t1)
    ensures Advance(b, t2) <= Capacity(b)
  {
  }

  /** The balance of bucket i: grants paid for, plus what it has left, is covered by a full
      bucket and the time that has passed. */
  lemma {:induction false} Balance(bs: seq<Bucket>, times: seq<nat>, lo: nat, hi: nat, i: nat)
    requires Calls(bs, times) && lo < hi <= |times| && i < |bs|
    ensures var b := After(bs, times, hi)[i];
      b.last <= times[hi - 1]
      && Cost(Grants(bs, times, lo, hi), bs[i].period) + Advance(b, times[hi - 1])
         <= Capacity(bs[i]) + (times[hi - 1] - times[lo])
    decreases hi
  {
    hide AllowAll, Advance, After, Capacity, Cost, Grants, Ordered, AllOk, BucketOk;
    var k, p := hi - 1, bs[i].period;
    var before := After(bs, times, k);
    ShapeKept(bs, times, k, i);
    RunStep(bs, times, lo, k);
    BeforeOk(bs, times, k, i);
    GrantIsPaid(before, times[k], i);
    CostAdds(Grants(bs, times, lo, k), p);
    if k > lo {
      Balance(bs, times, lo, k, i);
      CreditGrows(before[i], times[k - 1], times[k]);
    } else {
      CreditGrows(before[i], times[k], times[k]);
    }
  }

  lemma RunStep(bs: seq<Bucket>, times: seq<nat>, lo: nat, k: nat)
    requires Calls(bs, times) && lo <= k < |times|
    ensures var r := AllowAll(After(bs, times, k), times[k]);
      && After(bs, times, k + 1) == r.1
      && Grants(bs, times, lo, k + 1) == Grants(bs, times, lo, k) + if r.0 then 1 else 0
    ensures Grants(bs, times, lo, lo) == 0
  {
    hide AllowAll, AllOk, Ordered;
  }

  lemma BeforeOk(bs: seq<Bucket>, times: seq<nat>, k: nat, i: nat)
    requires Calls(bs, times) && k < |times| && i < |bs|
    ensures AllOk(bs, times[0]) && AllOk(After(bs, times, k), times[k])
    ensures BucketOk(After(bs, times, k)[i])
    ensures k > 0 ==> After(bs, times, k)[i].last <= times[k - 1] <= times[k]
    ensures After(bs, times, k)[i].last <= times[k]
  {
  }

  lemma CostAdds(n: nat, p: nat)
    ensures Cost(0, p) == 0 && Cost(n + 1, p) == Cost(n, p) + p
  {
  }

  lemma BoundFromCost(g: nat, p: nat, burst: nat, window: nat)
    requires p > 0 && Cost(g, p) <= burst * p + window
    ensures g <= burst + window / p
  {
    var whole := window / p;
    assert window < (whole + 1) * p;
    assert burst * p + (whole + 1) * p == (burst + whole + 1) * p;
    assert g * p < (burst + whole + 1) * p;
  }

  /** The bound of every limiter on every window: no more grants than its burst plus one for
      each whole period in the window. */
  lemma WindowBound(bs: seq<Bucket>, times: seq<nat>, lo: nat, hi: nat, window: nat, i: nat)
    requires Calls(bs, times) && lo < hi <= |times| && i < |bs|
    requires times[hi - 1] - times[lo] <= window
    ensures Grants(bs, times, lo, hi) <= bs[i].burst + window / bs[i].period
  {
    hide Grants, After, Advance;
    Balance(bs, times, lo, hi, i);
    BoundFromCost(Grants(bs, times, lo, hi), bs[i].period, bs[i].burst, window);
  }

  // ---------------------------------------------------------------- the token manager's limiter

  const MINUTE: nat := 60_000_000_000   // in nanoseconds

  /** The three limiters of the token manager, in whatever state. */
  ghost predicate TokenLimiter(bs: seq<Bucket>) {
    |bs| == 3
    && bs[0].period == MINUTE && bs[0].burst == 1
    && bs[1].period == 15 * MINUTE && bs[1].burst == 3
    && bs[2].period == 60 * MINUTE && bs[2].burst == 6
  }

  /** After six idle hours everything is back in the initial state, and not always before: an
      empty hourly limiter is full again exactly then. */
  lemma SixIdleHoursRefill(bs: seq<Bucket>, now: nat, later: nat)
    requires TokenLimiter(bs) && AllOk(bs, now)
    ensures later >= now + 360 * MINUTE ==> forall i | 0 <= i < 3 :: Full(bs[i], later)
    ensures bs[2].credit == 0 && later >= bs[2].last ==>
              (Full(bs[2], later) <==> later >= bs[2].last + 360 * MINUTE)
  {
  }

  // ---------------------------------------------------------------- what is sure to be granted

  /** Every bucket can pay for k calls from a time on. */
  ghost predicate Saved(bs: seq<Bucket>, now: nat, k: nat) {
    forall i | 0 <= i < |bs| :: BucketOk(bs[i]) && bs[i].last <= now && Cost(k, bs[i].period) <= Advance(bs[i], now)
  }

  lemma SavedLasts(bs: seq<Bucket>, now: nat, later: nat, k: nat)
    requires Saved(bs, now, k) && now <= later
    ensures Saved(bs, later, k)
  {
    hide Cost;
    forall i | 0 <= i < |bs| ensures Advance(bs[i], now) <= Advance(bs[i], later) {
      assert Advance(bs[i], now) <= Capacity(bs[i]);
    }
  }

  /** A call that finds k tokens in every bucket is granted and leaves k - 1. */
  lemma SavedPays(bs: seq<Bucket>, now: nat, k: nat)
    requires Saved(bs, now, k) && k > 0
    ensures AllOk(bs, now) && AllowAll(bs, now).0 && Saved(AllowAll(bs, now).1, now, k - 1)
  {
    forall i | 0 <= i < |bs|
      ensures Cost(k, bs[i].period) == Cost(k - 1, bs[i].period) + bs[i].period
    {
      CostAdds(k - 1, bs[i].period);
    }
    hide Cost;
    forall i | 0 <= i < |bs| ensures Take(bs[i], now).0 {
    }
    assert Reached(bs, now) == |bs|;
  }

  /** The other side of the bounds: if every bucket has k tokens saved up, the next k calls are granted,
      whenever they are made. */
  lemma {:induction false} SavedTokensAreGranted(bs: seq<Bucket>, times: seq<nat>, k: nat, j: nat)
    requires Calls(bs, times) && j <= k <= |times| && (times != [] ==> Saved(bs, times[0], k))
    ensures Grants(bs, times, 0, j) == j
    ensures j < |times| ==> Saved(After(bs, times, j), times[j], k - j)
    decreases j
  {
    hide Calls, AllowAll, Saved, After, Grants, Ordered, AllOk, Capacity, Advance, Cost;
    if j == 0 {
      NoCallsYet(bs, times);
    } else {
      SavedTokensAreGranted(bs, times, k, j - 1);
      RunStep(bs, times, 0, j - 1);
      SavedStep(bs, times, k, j);
    }
  }

  lemma NoCallsYet(bs: seq<Bucket>, times: seq<nat>)
    requires Calls(bs, times)
    ensures Grants(bs, times, 0, 0) == 0 && After(bs, times, 0) == bs
  {
  }

  lemma SavedStep(bs: seq<Bucket>, times: seq<nat>, k: nat, j: nat)
    requires Calls(bs, times) && 0 < j <= k <= |times|
    requires Saved(After(bs, times, j - 1), times[j - 1], k - (j - 1))
    ensures AllowAll(After(bs, times, j - 1), times[j - 1]).0
    ensures j < |times| ==> Saved(After(bs, times, j), times[j], k - j)
  {
    SavedPays(After(bs, times, j - 1), times[j - 1], k - (j - 1));
    if j < |times| {
      assert times[j - 1] <= times[j];
      RunStep(bs, times, 0, j - 1);
      hide AllowAll, Saved, After, Ordered, AllOk;
      SavedLasts(After(bs, times, j), times[j - 1], times[j], k - j);
    }
  }

  /** Calls at one moment on full buckets: as many are granted as the smallest burst says, no more. */
  lemma BurstIsGranted(bs: seq<Bucket>, times: seq<nat>, i: nat)
    requires Calls(bs, times) && i < |bs| && times != []
    requires forall k | 0 <= k < |bs| :: bs[k].credit == bs[k].burst * bs[k].period && bs[i].burst <= bs[k].burst
    requires forall k | 0 <= k < |times| :: times[k] == times[0]
    ensures Grants(bs, times, 0, |times|) == if |times| <= bs[i].burst then |times| else bs[i].burst
  {
    var k := if |times| <= bs[i].burst then |times| else bs[i].burst;
    FullIsSaved(bs, times[0], k);
    SavedTokensAreGranted(bs, times, k, k);
    GrantsGrow(bs, times, k, |times|);
    WindowBound(bs, times, 0, |times|, 0, i);
  }

  lemma FullIsSaved(bs: seq<Bucket>, now: nat, k: nat)
    requires AllOk(bs, now)
    requires forall i | 0 <= i < |bs| :: bs[i].credit == bs[i].burst * bs[i].period && k <= bs[i].burst
    ensures Saved(bs, now, k)
  {
    forall i | 0 <= i < |bs| ensures Cost(k, bs[i].period) <= Advance(bs[i], now) {
      assert k * bs[i].period <= bs[i].burst * bs[i].period;
    }
  }

  lemma {:induction false} GrantsGrow(bs: seq<Bucket>, times: seq<nat>, k: nat, n: nat)
    requires Calls(bs, times) && k <= n <= |times|
    ensures Grants(bs, times, 0, k) <= Grants(bs, times, 0, n) <= n
    ensures Grants(bs, times, 0, k) <= k
    decreases n
  {
    if k < n {
      GrantsGrow(bs, times, k, n - 1);
    } else if n > 0 {
      GrantsGrow(bs, times, n - 1, n - 1);
    }
  }

  // ---------------------------------------------------------------- the token manager's schedule

  /** Calls at these times are possible and all granted. */
  ghost predicate AllGranted(bs: seq<Bucket>, times: seq<nat>)
    decreases |times|
  {
    times == [] || (AllOk(bs, times[0]) && AllowAll(bs, times[0]).0 && AllGranted(AllowAll(bs, times[0]).1, times[1..]))
  }

  /** The three buckets with what they had saved at time `now`. */
  ghost predicate TokensAt(bs: seq<Bucket>, now: nat, minute: nat, quarter: nat, hour: nat) {
    TokenLimiter(bs) && AllOk(bs, now)
    && bs[0].last == now && bs[1].last == now && bs[2].last == now
    && bs[0].credit == minute && bs[1].credit == quarter && bs[2].credit == hour
  }

  function Least(a: nat, b: nat): nat {
    if a <= b then a else b
  }

  /** A call after d more nanoseconds: when it is granted, and what it leaves. */
  lemma TokenCallGranted(bs: seq<Bucket>, now: nat, minute: nat, quarter: nat, hour: nat, d: nat)
    requires TokensAt(bs, now, minute, quarter, hour)
    ensures AllOk(bs, now + d)
    ensures AllowAll(bs, now + d).0 <==> minute + d >= MINUTE && quarter + d >= 15 * MINUTE && hour + d >= 60 * MINUTE
  {
    AllowEffect(bs, now + d);
    hide AllowAll, Charged, TokensUpTo, BucketOk, Capacity, MINUTE;
    assert AllowAll(bs, now + d).0 <==>
             HasToken(bs[0], now + d) && HasToken(bs[1], now + d) && HasToken(bs[2], now + d);
  }

  lemma TokenCall(bs: seq<Bucket>, now: nat, minute: nat, quarter: nat, hour: nat, d: nat)
    requires TokensAt(bs, now, minute, quarter, hour)
    requires minute + d >= MINUTE && quarter + d >= 15 * MINUTE && hour + d >= 60 * MINUTE
    ensures AllOk(bs, now + d) && AllowAll(bs, now + d).0
    ensures TokensAt(AllowAll(bs, now + d).1, now + d, Least(minute + d, MINUTE) - MINUTE,
                     Least(quarter + d, 45 * MINUTE) - 15 * MINUTE, Least(hour + d, 360 * MINUTE) - 60 * MINUTE)
  {
    TokenCallGranted(bs, now, minute, quarter, hour, d);
    Capacities(bs);
    hide AllowAll, Charged, TokensUpTo, Least, BucketOk, Capacity, MINUTE, AllOk;
    var r := AllowAll(bs, now + d).1;
    EachPays(bs, now + d);
    Paid(bs[0], r[0], now, d, MINUTE);
    Paid(bs[1], r[1], now, d, 45 * MINUTE);
    Paid(bs[2], r[2], now, d, 360 * MINUTE);
  }

  lemma Capacities(bs: seq<Bucket>)
    requires TokenLimiter(bs)
    ensures bs[0].burst * bs[0].period == MINUTE && bs[1].burst * bs[1].period == 45 * MINUTE
    ensures bs[2].burst * bs[2].period == 360 * MINUTE
  {
  }

  lemma EachPays(bs: seq<Bucket>, now: nat)
    requires AllOk(bs, now) && |bs| == 3 && AllowAll(bs, now).0
    ensures var r := AllowAll(bs, now).1;
      Charged(bs[0], r[0], now) && Charged(bs[1], r[1], now) && Charged(bs[2], r[2], now)
  {
    AllowEffect(bs, now);
    hide AllowAll, Charged, HasToken;
    assert TokensUpTo(bs, 0, now) && TokensUpTo(bs, 1, now) && TokensUpTo(bs, 2, now);
  }

  lemma Paid(before: Bucket, after: Bucket, now: nat, d: nat, full: nat)
    requires before.last == now && Charged(before, after, now + d) && full == before.burst * before.period
    ensures after.period == before.period && after.burst == before.burst && after.last == now + d
    ensures after.credit + before.period == Least(before.credit + d, full)
  {
  }

  /** One call that is granted, and the calls after it. */
  lemma GrantedThen(bs: seq<Bucket>, now: nat, minute: nat, quarter: nat, hour: nat, d: nat, rest: seq<nat>)
    returns (next: seq<Bucket>)
    requires TokensAt(bs, now, minute, quarter, hour)
    requires minute + d >= MINUTE && quarter + d >= 15 * MINUTE && hour + d >= 60 * MINUTE
    ensures TokensAt(next, now + d, Least(minute + d, MINUTE) - MINUTE,
                     Least(quarter + d, 45 * MINUTE) - 15 * MINUTE, Least(hour + d, 360 * MINUTE) - 60 * MINUTE)
    ensures AllGranted(bs, [now + d] + rest) <==> AllGranted(next, rest)
  {
    hide AllowAll, TokensAt, AllOk;
    TokenCall(bs, now, minute, quarter, hour, d);
    next := AllowAll(bs, now + d).1;
    assert ([now + d] + rest)[1..] == rest;
  }

  lemma LastGranted(bs: seq<Bucket>, now: nat, minute: nat, quarter: nat, hour: nat, d: nat)
    requires TokensAt(bs, now, minute, quarter, hour)
    ensures AllGranted(bs, [now + d])
       <==> minute + d >= MINUTE && quarter + d >= 15 * MINUTE && hour + d >= 60 * MINUTE
  {
    hide AllowAll, TokensAt, AllOk;
    TokenCallGranted(bs, now, minute, quarter, hour, d);
    assert [now + d][1..] == [];
  }

  /** The first three updates, from full buckets. */
  lemma FirstThree(bs: seq<Bucket>, t: nat, rest: seq<nat>) returns (next: seq<Bucket>)
    requires TokensAt(bs, t, MINUTE, 45 * MINUTE, 360 * MINUTE)
    ensures TokensAt(next, t + 2 * MINUTE, 0, 2 * MINUTE, 182 * MINUTE)
    ensures AllGranted(bs, [t, t + MINUTE, t + 2 * MINUTE] + rest) <==> AllGranted(next, rest)
  {
    hide TokensAt, AllGranted;
    var one := GrantedThen(bs, t, MINUTE, 45 * MINUTE, 360 * MINUTE, 0, [t + MINUTE, t + 2 * MINUTE] + rest);
    var two := GrantedThen(one, t, 0, 30 * MINUTE, 300 * MINUTE, MINUTE, [t + 2 * MINUTE] + rest);
    next := GrantedThen(two, t + MINUTE, 0, 16 * MINUTE, 241 * MINUTE, MINUTE, rest);
    assert [t, t + MINUTE, t + 2 * MINUTE] + rest == [t] + ([t + MINUTE, t + 2 * MINUTE] + rest);
    assert [t + MINUTE, t + 2 * MINUTE] + rest == [t + MINUTE] + ([t + 2 * MINUTE] + rest);
  }

  /** And three more, each as early as it can be. */
  lemma NextThree(bs: seq<Bucket>, t: nat, rest: seq<nat>) returns (next: seq<Bucket>)
    requires TokensAt(bs, t + 2 * MINUTE, 0, 2 * MINUTE, 182 * MINUTE)
    ensures TokensAt(next, t + 45 * MINUTE, 0, 0, 45 * MINUTE)
    ensures AllGranted(bs, [t + 15 * MINUTE, t + 30 * MINUTE, t + 45 * MINUTE] + rest) <==> AllGranted(next, rest)
  {
    hide TokensAt, AllGranted;
    var a, b, c := t + 15 * MINUTE, t + 30 * MINUTE, t + 45 * MINUTE;
    var one := GrantedThen(bs, t + 2 * MINUTE, 0, 2 * MINUTE, 182 * MINUTE, 13 * MINUTE, [b, c] + rest);
    var two := GrantedThen(one, a, 0, 0, 135 * MINUTE, 15 * MINUTE, [c] + rest);
    next := GrantedThen(two, b, 0, 0, 90 * MINUTE, 15 * MINUTE, rest);
    assert [a, b, c] + rest == [a] + ([b, c] + rest);
    assert [b, c] + rest == [b] + ([c] + rest);
  }

  /** The schedule that the limiter is there for, from three full buckets: an update is granted at once
      and each minute for the first three, the fourth if and only if a quarter of an hour has passed
      since the first; with one each quarter after that, the seventh if and only if an hour has passed
      since the first. */
  lemma TokenSchedule(bs: seq<Bucket>, t: nat, later: nat)
    requires TokensAt(bs, t, MINUTE, 45 * MINUTE, 360 * MINUTE)
    ensures var three := [t, t + MINUTE, t + 2 * MINUTE];
      var six := three + [t + 15 * MINUTE, t + 30 * MINUTE, t + 45 * MINUTE];
      && AllGranted(bs, three) && AllGranted(bs, six)
      && (later >= t + 2 * MINUTE ==> (AllGranted(bs, three + [later]) <==> later >= t + 15 * MINUTE))
      && (later >= t + 45 * MINUTE ==> (AllGranted(bs, six + [later]) <==> later >= t + 60 * MINUTE))
  {
    hide TokensAt, AllGranted;
    SixGranted(bs, t);
    if later >= t + 2 * MINUTE {
      FourthGranted(bs, t, later);
    }
    if later >= t + 45 * MINUTE {
      SeventhGranted(bs, t, later);
    }
  }

  lemma SixGranted(bs: seq<Bucket>, t: nat)
    requires TokensAt(bs, t, MINUTE, 45 * MINUTE, 360 * MINUTE)
    ensures var three := [t, t + MINUTE, t + 2 * MINUTE];
      AllGranted(bs, three) && AllGranted(bs, three + [t + 15 * MINUTE, t + 30 * MINUTE, t + 45 * MINUTE])
  {
    hide TokensAt, AllGranted;
    var three := [t, t + MINUTE, t + 2 * MINUTE];
    var more := [t + 15 * MINUTE, t + 30 * MINUTE, t + 45 * MINUTE];
    var s := FirstThree(bs, t, []);
    NothingAsked(s);
    assert three + [] == three;
    s := FirstThree(bs, t, more + []);
    var u := NextThree(s, t, []);
    NothingAsked(u);
    assert more + [] == more;
  }

  lemma NothingAsked(bs: seq<Bucket>)
    ensures AllGranted(bs, [])
  {
  }

  lemma FourthGranted(bs: seq<Bucket>, t: nat, later: nat)
    requires TokensAt(bs, t, MINUTE, 45 * MINUTE, 360 * MINUTE) && later >= t + 2 * MINUTE
    ensures AllGranted(bs, [t, t + MINUTE, t + 2 * MINUTE] + [later]) <==> later >= t + 15 * MINUTE
  {
    hide TokensAt, AllGranted;
    var s := FirstThree(bs, t, [later]);
    LastGranted(s, t + 2 * MINUTE, 0, 2 * MINUTE, 182 * MINUTE, later - (t + 2 * MINUTE));
  }

  lemma SeventhGranted(bs: seq<Bucket>, t: nat, later: nat)
    requires TokensAt(bs, t, MINUTE, 45 * MINUTE, 360 * MINUTE) && later >= t + 45 * MINUTE
    ensures AllGranted(bs, [t, t + MINUTE, t + 2 * MINUTE] + [t + 15 * MINUTE, t + 30 * MINUTE, t + 45 * MINUTE]
                           + [later])
       <==> later >= t + 60 * MINUTE
  {
    hide TokensAt, AllGranted;
    var three := [t, t + MINUTE, t + 2 * MINUTE];
    var more := [t + 15 * MINUTE, t + 30 * MINUTE, t + 45 * MINUTE];
    var s := FirstThree(bs, t, more + [later]);
    var u := NextThree(s, t, [later]);
    LastGranted(u, t + 45 * MINUTE, 0, 0, 45 * MINUTE, later - (t + 45 * MINUTE));
    assert three + (more + [later]) == three + more + [later];
  }
}
