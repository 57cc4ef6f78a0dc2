/**
 Fixed-window rate limits: the per-connection limiter of game sockets, and the persistent limiter
 that decides over several buckets at once and counts denied requests too.
 */
module RateLimits {
  import opened Wrappers
  import Ordering

  datatype Window = Window(start: Time, count: nat)

  /** `countsDenied` tells the persistent buckets from the connection limiter. */
  datatype Policy = Policy(seconds: nat, limit: nat, countsDenied: bool)

  /** The window a request at `now` falls into; an elapsed or missing window starts afresh. */
  function Roll(p: Policy, w: Option<Window>, now: Time): Window {
    if w.None? || now >= w.value.start + p.seconds then Window(now, 0) else w.value
  }

  predicate Admits(p: Policy, w: Option<Window>, now: Time) {
    Roll(p, w, now).count < p.limit
  }

  function Take(p: Policy, w: Option<Window>, now: Time): Window {
    var r := Roll(p, w, now);
    if Admits(p, w, now) || p.countsDenied then r.(count := r.count + 1) else r
  }

  function TakeAll(p: Policy, w: Option<Window>, ts: seq<Time>): Option<Window>
    decreases |ts|
  {
    if ts == [] then w else TakeAll(p, Some(Take(p, w, ts[0])), ts[1..])
  }

  /** How many of the requests at `ts` are admitted at a time between lo and hi. */
  function Admitted(p: Policy, w: Option<Window>, ts: seq<Time>, lo: Time, hi: Time): nat
    decreases |ts|
  {
    if ts == [] then 0
    else
      var first := if Admits(p, w, ts[0]) && lo <= ts[0] <= hi then 1 else 0;
      first + Admitted(p, Some(Take(p, w, ts[0])), ts[1..], lo, hi)
  }

  predicate NonDecreasing(ts: seq<Time>) {
    forall i, j :: 0 <= i < j < |ts| ==> ts[i] <= ts[j]
  }

  function Left(p: Policy, w: Window): nat {
    if w.count < p.limit then p.limit - w.count else 0
  }

  /** While the window does not elapse, only its remaining capacity is admitted. */
  lemma {:induction false} WithinWindow(p: Policy, w: Window, ts: seq<Time>, lo: Time, hi: Time)
    requires NonDecreasing(ts) && hi < w.start + p.seconds
    ensures Admitted(p, Some(w), ts, lo, hi) <= Left(p, w)
    decreases |ts|
  {
    if ts == [] {
    } else if ts[0] <= hi {
      WithinWindow(p, Take(p, Some(w), ts[0]), ts[1..], lo, hi);
    } else {
      TooLate(p, Some(w), ts, lo, hi);
    }
  }

  lemma {:induction false} TooLate(p: Policy, w: Option<Window>, ts: seq<Time>, lo: Time, hi: Time)
    requires NonDecreasing(ts) && (ts != [] ==> hi < ts[0])
    ensures Admitted(p, w, ts, lo, hi) == 0
    decreases |ts|
  {
    if ts == [] {
    } else {
      TooLate(p, Some(Take(p, w, ts[0])), ts[1..], lo, hi);
    }
  }

  /** At most one window boundary lies ahead: the rest of this window and one more. */
  lemma {:induction false} AcrossOneBoundary(p: Policy, w: Window, ts: seq<Time>, lo: Time, hi: Time)
    requires NonDecreasing(ts) && hi < w.start + 2 * p.seconds
    ensures Admitted(p, Some(w), ts, lo, hi) <= Left(p, w) + p.limit
    decreases |ts|
  {
    if ts == [] {
    } else if ts[0] < w.start + p.seconds {
      AcrossOneBoundary(p, Take(p, Some(w), ts[0]), ts[1..], lo, hi);
    } else if hi < ts[0] {
      TooLate(p, Some(w), ts, lo, hi);
    } else {
      WithinWindow(p, Take(p, Some(w), ts[0]), ts[1..], lo, hi);
    }
  }

  /** With a clock that never goes back, any closed interval of one window length admits at most
      twice the limit, whatever the window was before. */
  lemma {:induction false} TwiceTheLimit(p: Policy, w: Option<Window>, ts: seq<Time>, lo: Time)
    requires NonDecreasing(ts) && p.seconds >= 1
    ensures Admitted(p, w, ts, lo, lo + p.seconds) <= 2 * p.limit
    decreases |ts|
  {
    if ts == [] {
    } else if ts[0] < lo {
      TwiceTheLimit(p, Some(Take(p, w, ts[0])), ts[1..], lo);
    } else {
      AcrossOneBoundary(p, Take(p, w, ts[0]), ts[1..], lo, lo + p.seconds);
    }
  }

  lemma {:induction false} AdmittedConcat(p: Policy, w: Option<Window>, xs: seq<Time>, ys: seq<Time>, lo: Time,
                                          hi: Time)
    ensures Admitted(p, w, xs + ys, lo, hi) == Admitted(p, w, xs, lo, hi) + Admitted(p, TakeAll(p, w, xs), ys, lo, hi)
    ensures TakeAll(p, w, xs + ys) == TakeAll(p, TakeAll(p, w, xs), ys)
    decreases |xs|
  {
    if xs == [] {
      assert xs + ys == ys;
    } else {
      assert (xs + ys)[1..] == xs[1..] + ys;
      AdmittedConcat(p, Some(Take(p, w, xs[0])), xs[1..], ys, lo, hi);
    }
  }

  function Repeat(t: Time, n: nat): (ts: seq<Time>)
    ensures |ts| == n && forall i :: 0 <= i < n ==> ts[i] == t
  {
    seq(n, _ => t)
  }

  /** Requests at one moment are admitted up to the capacity left. */
  lemma {:induction false} Fill(p: Policy, w: Option<Window>, n: nat, t: Time, lo: Time, hi: Time)
    requires lo <= t <= hi && p.seconds >= 1 && Roll(p, w, t).count + n <= p.limit
    ensures Admitted(p, w, Repeat(t, n), lo, hi) == n
    ensures n > 0 ==> TakeAll(p, w, Repeat(t, n)) == Some(Window(Roll(p, w, t).start, Roll(p, w, t).count + n))
    decreases n
  {
    if n == 0 {
    } else {
      assert Repeat(t, n)[1..] == Repeat(t, n - 1);
      Fill(p, Some(Take(p, w, t)), n - 1, t, lo, hi);
    }
  }

  /** Twice the limit is reached, under every policy: the bound cannot be lowered. */
  lemma BoundIsTight(p: Policy)
    requires p.seconds >= 1
    ensures var ts := Repeat(0, p.limit) + Repeat(p.seconds, p.limit);
            NonDecreasing(ts) && Admitted(p, None, ts, 0, p.seconds) == 2 * p.limit
  {
    Fill(p, None, p.limit, 0, 0, p.seconds);
    Fill(p, TakeAll(p, None, Repeat(0, p.limit)), p.limit, p.seconds, 0, p.seconds);
    AdmittedConcat(p, None, Repeat(0, p.limit), Repeat(p.seconds, p.limit), 0, p.seconds);
  }

  // ---- the persistent limiter ----

  datatype BucketKey = BucketKey(namespace: string, scope: string, subject: string, seconds: nat)

  datatype Limit = Limit(key: BucketKey, limit: nat)
  {
    function AsPolicy(): Policy {
      Policy(key.seconds, limit, true)
    }
  }

  type Buckets = map<BucketKey, Window>

  datatype Decision = Decision(allowed: bool, retryAfter: nat)

  function Lookup(buckets: Buckets, key: BucketKey): Option<Window> {
    if key in buckets then Some(buckets[key]) else None
  }

  function ChargeOne(buckets: Buckets, l: Limit, now: Time): Buckets {
    buckets[l.key := Take(l.AsPolicy(), Lookup(buckets, l.key), now)]
  }

  /** The buckets after one request was counted against every limit. */
  function Charge(buckets: Buckets, limits: seq<Limit>, now: Time): Buckets
    decreases |limits|
  {
    if limits == [] then buckets else Charge(ChargeOne(buckets, limits[0], now), limits[1..], now)
  }

  /** The seconds until a window that refuses the request ends. */
  function Wait(buckets: Buckets, l: Limit, now: Time): seq<nat> {
    var end := Roll(l.AsPolicy(), Lookup(buckets, l.key), now).start + l.key.seconds;
    if Admits(l.AsPolicy(), Lookup(buckets, l.key), now) then [] else [if end - now < 1 then 1 else end - now]
  }

  function Waits(buckets: Buckets, limits: seq<Limit>, now: Time): seq<nat>
    decreases |limits|
  {
    if limits == [] then []
      else Wait(buckets, limits[0], now) + Waits(ChargeOne(buckets, limits[0], now), limits[1..], now)
  }

  predicate AllAdmit(buckets: Buckets, limits: seq<Limit>, now: Time) {
    Waits(buckets, limits, now) == []
  }

  function LimitRank(l: Limit): Ordering.Rank {
    ([l.key.scope, l.key.subject], l.key.seconds)
  }

  /** The order in which the buckets of one request are locked and counted. */
  function InOrder(limits: seq<Limit>): seq<Limit> {
    Ordering.Sort(Ordering.By(LimitRank, Ordering.RankLeq()), limits)
  }

  function Hits(limits: seq<Limit>, key: BucketKey): nat {
    if limits == [] then 0 else (if limits[0].key == key then 1 else 0) + Hits(limits[1..], key)
  }

  // ---- what a decision does, bucket by bucket ----

  /** A bucket counts one for every limit that names it, in the window that is still running or in
      one that starts now; other buckets stay. */
  ghost predicate CountedAt(before: Buckets, after: Buckets, key: BucketKey, hits: nat, now: Time) {
    if hits == 0 then (key in after <==> key in before) && (key in before ==> after[key] == before[key])
    else
      && key in after
      && after[key] == if key in before && now < before[key].start + key.seconds
                       then Window(before[key].start, before[key].count + hits) else Window(now, hits)
  }

  /** Windows last, and a bucket has one limit. */
  ghost predicate Proper(limits: seq<Limit>) {
    && (forall i :: 0 <= i < |limits| ==> limits[i].key.seconds >= 1)
    && (forall i, j :: 0 <= i < |limits| && 0 <= j < |limits| && limits[i].key == limits[j].key ==>
       limits[i].limit == limits[j].limit)
  }

  /** The limit is exceeded in these buckets, for so many more seconds, at least one. */
  predicate Over(after: Buckets, l: Limit) {
    l.key in after && after[l.key].count > l.limit
  }

  function Remaining(after: Buckets, l: Limit, now: Time): int
    requires l.key in after
  {
    var left := after[l.key].start + l.key.seconds - now;
    if left < 1 then 1 else left
  }

  lemma {:induction false} ChargeRows(buckets: Buckets, limits: seq<Limit>, now: Time, key: BucketKey)
    requires key.seconds >= 1
    ensures CountedAt(buckets, Charge(buckets, limits, now), key, Hits(limits, key), now)
    decreases |limits|
  {
    if limits != [] {
      ChargeRows(ChargeOne(buckets, limits[0], now), limits[1..], now, key);
    }
  }

  lemma {:induction false} HitsWhere(limits: seq<Limit>, key: BucketKey)
    ensures Hits(limits, key) > 0 <==> exists i :: 0 <= i < |limits| && limits[i].key == key
    decreases |limits|
  {
    if limits != [] {
      HitsWhere(limits[1..], key);
      if i :| 0 <= i < |limits| && limits[i].key == key {
        if i > 0 { assert limits[1..][i - 1].key == key; }
      }
      if i :| 0 <= i < |limits[1..]| && limits[1..][i].key == key {
        assert limits[i + 1].key == key;
      }
    }
  }

  /** The waits are those of the limits exceeded in the end. */
  lemma {:induction false} WaitRows(buckets: Buckets, limits: seq<Limit>, now: Time)
    requires Proper(limits)
    ensures var after := Charge(buckets, limits, now);
            && (forall i :: 0 <= i < |limits| ==> limits[i].key in after)
            && (forall i :: 0 <= i < |limits| && Over(after, limits[i]) ==>
                  Remaining(after, limits[i], now) in Waits(buckets, limits, now))
            && (forall wait :: wait in Waits(buckets, limits, now) ==>
                  exists i :: 0 <= i < |limits| && Over(after, limits[i]) && wait == Remaining(after, limits[i], now))
    decreases |limits|
  {
    if limits != [] {
      var l, rest, next := limits[0], limits[1..], ChargeOne(buckets, limits[0], now);
      var after := Charge(buckets, limits, now);
      assert Proper(rest) by {
        assert forall i :: 0 <= i < |rest| ==> rest[i] == limits[i + 1];
      }
      WaitRows(next, rest, now);
      ChargeRows(next, rest, now, l.key);
      HitsWhere(rest, l.key);
      assert limits == [l] + rest;
      assert after == Charge(next, rest, now);
      FirstWait(buckets, limits, now);
      forall wait | wait in Waits(buckets, limits, now)
        ensures exists i :: 0 <= i < |limits| && Over(after, limits[i]) && wait == Remaining(after, limits[i], now)
      {
        if wait in Waits(next, rest, now) {
          var i :| 0 <= i < |rest| && Over(after, rest[i]) && wait == Remaining(after, rest[i], now);
          assert limits[i + 1] == rest[i];
        } else {
          assert limits[0] == l && Over(after, l) && wait == Remaining(after, l, now);
        }
      }
      forall i | 0 <= i < |limits| && Over(after, limits[i])
        ensures Remaining(after, limits[i], now) in Waits(buckets, limits, now)
      {
        if i > 0 {
          assert limits[i] == rest[i - 1];
        } else if Hits(rest, l.key) > 0 {
          var j :| 0 <= j < |rest| && rest[j].key == l.key;
          assert limits[j + 1] == rest[j] && rest[j] == l;
        }
      }
    }
  }

  /** A limit that refuses stays exceeded; one that is met last and exceeded refuses. */
  lemma FirstWait(buckets: Buckets, limits: seq<Limit>, now: Time)
    requires limits != [] && limits[0].key.seconds >= 1
    ensures var l, after := limits[0], Charge(buckets, limits, now);
            && l.key in after
            && (Wait(buckets, l, now) != [] ==>
                  Over(after, l) && Wait(buckets, l, now) == [Remaining(after, l, now) as nat])
            && (Wait(buckets, l, now) == [] && Hits(limits[1..], l.key) == 0 ==> !Over(after, l))
  {
    var l := limits[0];
    ChargeRows(buckets, limits, now, l.key);
  }

  lemma InOrderKeepsProper(limits: seq<Limit>)
    requires Proper(limits)
    ensures Proper(InOrder(limits))
    ensures forall l :: l in InOrder(limits) <==> l in limits
  {
    hide Ordering.Sort;
    var leq := Ordering.By(LimitRank, Ordering.RankLeq());
    Ordering.RankOrder();
    Ordering.ByIsPreorder(LimitRank, Ordering.RankLeq());
    Ordering.SortSorts(leq, limits);
    var ordered := InOrder(limits);
    forall l ensures l in ordered <==> l in limits {
      assert l in multiset(ordered) <==> l in multiset(limits);
    }
    forall i | 0 <= i < |ordered| ensures ordered[i] in limits { assert ordered[i] in ordered; }
  }

  /** One decision, bucket by bucket: allowed exactly when no limit is exceeded in the end. */
  lemma DecisionRows(buckets: Buckets, limits: seq<Limit>, now: Time, key: BucketKey)
    requires Proper(limits) && key.seconds >= 1
    ensures var after, waits := Charge(buckets, InOrder(limits), now), Waits(buckets, InOrder(limits), now);
            && CountedAt(buckets, after, key, Hits(limits, key), now)
            && (AllAdmit(buckets, InOrder(limits), now) <==> forall i :: 0 <= i < |limits| ==> !Over(after, limits[i]))
            && (forall i :: 0 <= i < |limits| ==> limits[i].key in after)
            && (forall i :: 0 <= i < |limits| && Over(after, limits[i]) ==> Remaining(after, limits[i], now) in waits)
            && (forall wait :: wait in waits ==>
                  exists i :: 0 <= i < |limits| && Over(after, limits[i]) && wait == Remaining(after, limits[i], now))
  {
    hide Charge, Waits, InOrder, Over, Remaining, Proper, CountedAt;
    var ordered := InOrder(limits);
    var after, waits := Charge(buckets, ordered, now), Waits(buckets, ordered, now);
    InOrderKeepsProper(limits);
    OrderKeepsHits(limits, key, 0);
    ChargeRows(buckets, ordered, now, key);
    WaitRows(buckets, ordered, now);
    forall i | 0 <= i < |limits|
      ensures limits[i].key in after && (Over(after, limits[i]) ==> Remaining(after, limits[i], now) in waits)
    {
      assert limits[i] in ordered;
      var j :| 0 <= j < |ordered| && ordered[j] == limits[i];
    }
    forall wait | wait in waits
      ensures exists i :: 0 <= i < |limits| && Over(after, limits[i]) && wait == Remaining(after, limits[i], now)
    {
      var j :| 0 <= j < |ordered| && Over(after, ordered[j]) && wait == Remaining(after, ordered[j], now);
      assert ordered[j] in limits;
      var i :| 0 <= i < |limits| && limits[i] == ordered[j];
    }
    if waits != [] {
      assert waits[0] in waits;
    }
  }

  class PersistentLimiter {
    var buckets: Buckets

    constructor ()
      ensures buckets == map[]
    {
      buckets := map[];
    }

    /** Counts one request against one bucket; a refusing bucket tells how long it stays full. */
    method Count(l: Limit, now: Time) returns (denied: seq<nat>)
      modifies this
      ensures buckets == ChargeOne(old(buckets), l, now)
      ensures denied == Wait(old(buckets), l, now)
      // the same, read off the row
      ensures var running := l.key in old(buckets) && now < old(buckets)[l.key].start + l.key.seconds;
              var start := if running then old(buckets)[l.key].start else now;
              var count := if running then old(buckets)[l.key].count + 1 else 1;
              && buckets == old(buckets)[l.key := Window(start, count)]
              && denied == if count <= l.limit then []
                           else [if start + l.key.seconds - now < 1 then 1 else start + l.key.seconds - now]
    {
      var bucket := if l.key in buckets then buckets[l.key] else Window(now, 0);
      var windowEnd := bucket.start + l.key.seconds;
      if now >= windowEnd {
        bucket := Window(now, 0);
        windowEnd := now + l.key.seconds;
      }
      bucket := bucket.(count := bucket.count + 1);
      buckets := buckets[l.key := bucket];
      denied := if bucket.count <= l.limit then [] else [if windowEnd - now < 1 then 1 else windowEnd - now];
    }

    static method Longest(waits: seq<nat>) returns (longest: nat)
      ensures if waits == [] then longest == 0 else longest in waits
      ensures forall wait :: wait in waits ==> wait <= longest
    {
      longest := 0;
      for i := 0 to |waits|
        invariant forall k :: 0 <= k < i ==> waits[k] <= longest
        invariant if i == 0 then longest == 0 else longest in waits
      {
        if longest < waits[i] || i == 0 { longest := waits[i]; }
      }
    }

    /** Counts one request against every limit, in bucket order; it is allowed when each of them had
        room, and otherwise told to wait for the last of the refusing windows to end. */
    method Consume(limits: seq<Limit>, now: Time) returns (decision: Decision)
      modifies this
      ensures buckets == Charge(old(buckets), InOrder(limits), now)
      ensures decision.allowed <==> AllAdmit(old(buckets), InOrder(limits), now)
      ensures decision.allowed ==> decision.retryAfter == 0
      ensures !decision.allowed ==> decision.retryAfter in Waits(old(buckets), InOrder(limits), now)
      ensures forall wait :: wait in Waits(old(buckets), InOrder(limits), now) ==> wait <= decision.retryAfter
      // the same, read off the rows
      ensures Proper(limits) ==>
        && (forall key: BucketKey :: key.seconds >= 1 ==>
              CountedAt(old(buckets), buckets, key, Hits(limits, key), now))
        && (decision.allowed <==> forall i :: 0 <= i < |limits| ==> !Over(buckets, limits[i]))
        && (forall i :: 0 <= i < |limits| ==>
              limits[i].key in buckets
              && (Over(buckets, limits[i]) ==> Remaining(buckets, limits[i], now) <= decision.retryAfter))
        && (!decision.allowed ==>
              exists i :: 0 <= i < |limits| && limits[i].key in buckets && Over(buckets, limits[i])
                          && decision.retryAfter == Remaining(buckets, limits[i], now))
    {
      hide ChargeOne, Wait, InOrder, Proper, CountedAt, Over, Remaining;
      var ordered := InOrder(limits);
      var denied: seq<nat> := [];
      var rest := ordered;
      while rest != []
        invariant Charge(buckets, rest, now) == Charge(old(buckets), ordered, now)
        invariant denied + Waits(buckets, rest, now) == Waits(old(buckets), ordered, now)
        decreases |rest|
      {
        var more := Count(rest[0], now);
        assert (denied + more) + Waits(buckets, rest[1..], now) == denied + (more + Waits(buckets, rest[1..], now));
        denied := denied + more;
        rest := rest[1..];
      }
      assert denied == Waits(old(buckets), ordered, now);
      var retryAfter := Longest(denied);
      decision := Decision(denied == [], retryAfter);
      if Proper(limits) {
        forall key: BucketKey | key.seconds >= 1
          ensures CountedAt(old(buckets), buckets, key, Hits(limits, key), now)
        {
          DecisionRows(old(buckets), limits, now, key);
        }
        DecisionRows(old(buckets), limits, now, BucketKey("", "", "", 1));
      }
    }
  }

  // ---- every bucket of a multi-bucket decision obeys the bound ----

  datatype Call = Call(limits: seq<Limit>, now: Time)

  /** The order of the buckets changes neither how often one is counted nor its limit. */
  lemma OrderKeepsHits(limits: seq<Limit>, key: BucketKey, limit: nat)
    ensures Hits(InOrder(limits), key) == Hits(limits, key)
    ensures SameLimit(limits, key, limit) ==> SameLimit(InOrder(limits), key, limit)
  {
    hide Ordering.Sort;
    var leq := Ordering.By(LimitRank, Ordering.RankLeq());
    SortKeepsHits(leq, limits, key);
    Ordering.RankOrder();
    Ordering.ByIsPreorder(LimitRank, Ordering.RankLeq());
    Ordering.SortSorts(leq, limits);
    forall i | 0 <= i < |InOrder(limits)| ensures InOrder(limits)[i] in limits {
      assert InOrder(limits)[i] in multiset(limits);
    }
  }

  lemma {:induction false} SortKeepsHits(leq: (Limit, Limit) -> bool, limits: seq<Limit>, key: BucketKey)
    ensures Hits(Ordering.Sort(leq, limits), key) == Hits(limits, key)
    decreases |limits|
  {
    if limits == [] {
    } else {
      SortKeepsHits(leq, limits[1..], key);
      InsertCounts(leq, limits[0], Ordering.Sort(leq, limits[1..]), key);
    }
  }

  lemma {:induction false} InsertCounts(leq: (Limit, Limit) -> bool, x: Limit, limits: seq<Limit>, key: BucketKey)
    ensures Hits(Ordering.Insert(leq, x, limits), key) == (if x.key == key then 1 else 0) + Hits(limits, key)
    decreases |limits|
  {
    if limits == [] || leq(x, limits[0]) {
      assert ([x] + limits)[1..] == limits;
    } else {
      InsertCounts(leq, x, limits[1..], key);
      assert ([limits[0]] + Ordering.Insert(leq, x, limits[1..]))[1..] == Ordering.Insert(leq, x, limits[1..]);
    }
  }

  /** The times at which the calls count against one bucket. */
  function Times(calls: seq<Call>, key: BucketKey): seq<Time> {
    if calls == [] then [] else Repeat(calls[0].now, Hits(calls[0].limits, key)) + Times(calls[1..], key)
  }

  /** The calls that count against the bucket and are allowed between lo and hi. */
  function Allowed(buckets: Buckets, calls: seq<Call>, key: BucketKey, lo: Time, hi: Time): nat
    decreases |calls|
  {
    if calls == [] then 0 else
      var c := calls[0];
      (if Hits(c.limits, key) > 0 && AllAdmit(buckets, c.limits, c.now) && lo <= c.now <= hi then 1 else 0)
      + Allowed(Charge(buckets, c.limits, c.now), calls[1..], key, lo, hi)
  }

  ghost predicate SameLimit(limits: seq<Limit>, key: BucketKey, limit: nat) {
    forall i :: 0 <= i < |limits| && limits[i].key == key ==> limits[i].limit == limit
  }

  /** One call, seen by one bucket. */
  lemma {:induction false} ChargeSeenBy(buckets: Buckets, limits: seq<Limit>, now: Time, key: BucketKey, p: Policy,
                                        lo: Time, hi: Time)
    requires SameLimit(limits, key, p.limit) && p == Policy(key.seconds, p.limit, true)
    ensures Hits(limits, key) > 0 ==>
              Lookup(Charge(buckets, limits, now), key)
                == TakeAll(p, Lookup(buckets, key), Repeat(now, Hits(limits, key)))
    ensures Hits(limits, key) == 0 ==> Lookup(Charge(buckets, limits, now), key) == Lookup(buckets, key)
    ensures Hits(limits, key) > 0 && AllAdmit(buckets, limits, now) && lo <= now <= hi ==>
              Admitted(p, Lookup(buckets, key), Repeat(now, Hits(limits, key)), lo, hi) >= 1
    decreases |limits|
  {
    if limits != [] {
      var l, next := limits[0], ChargeOne(buckets, limits[0], now);
      ChargeSeenBy(next, limits[1..], now, key, p, lo, hi);
      if l.key == key {
        assert Repeat(now, Hits(limits, key))[1..] == Repeat(now, Hits(limits[1..], key));
      }
    }
  }

  lemma {:induction false} AllowedSeenBy(buckets: Buckets, calls: seq<Call>, key: BucketKey, p: Policy, lo: Time,
                                         hi: Time)
    requires p == Policy(key.seconds, p.limit, true)
      && forall i :: 0 <= i < |calls| ==> SameLimit(calls[i].limits, key, p.limit)
    ensures Allowed(buckets, calls, key, lo, hi) <= Admitted(p, Lookup(buckets, key), Times(calls, key), lo, hi)
    decreases |calls|
  {
    if calls != [] {
      var c := calls[0];
      var here := Repeat(c.now, Hits(c.limits, key));
      ChargeSeenBy(buckets, c.limits, c.now, key, p, lo, hi);
      AdmittedConcat(p, Lookup(buckets, key), here, Times(calls[1..], key), lo, hi);
      AllowedSeenBy(Charge(buckets, c.limits, c.now), calls[1..], key, p, lo, hi);
    }
  }

  lemma {:induction false} TimesNonDecreasing(calls: seq<Call>, key: BucketKey)
    requires forall i, j :: 0 <= i < j < |calls| ==> calls[i].now <= calls[j].now
    ensures NonDecreasing(Times(calls, key))
    ensures forall i :: 0 <= i < |Times(calls, key)| ==> calls != [] && calls[0].now <= Times(calls, key)[i]
    decreases |calls|
  {
    if calls != [] {
      TimesNonDecreasing(calls[1..], key);
    }
  }

  /** Whatever other buckets a decision involves, and in whatever order each call counts its limits,
      any interval of one window length allows at most twice the bucket's limit. */
  lemma EveryBucketTwice(buckets: Buckets, calls: seq<Call>, key: BucketKey, limit: nat, lo: Time)
    requires key.seconds >= 1 && forall i :: 0 <= i < |calls| ==> SameLimit(calls[i].limits, key, limit)
    requires forall i, j :: 0 <= i < j < |calls| ==> calls[i].now <= calls[j].now
    ensures Allowed(buckets, calls, key, lo, lo + key.seconds) <= 2 * limit
  {
    hide Allowed, Admitted, Times, NonDecreasing, SameLimit;
    var p := Policy(key.seconds, limit, true);
    AllowedSeenBy(buckets, calls, key, p, lo, lo + key.seconds);
    TimesNonDecreasing(calls, key);
    TwiceTheLimit(p, Lookup(buckets, key), Times(calls, key), lo);
  }
}
