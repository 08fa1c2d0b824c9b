/**
 The overshoot bound at one check of one run, whatever times its reports gave: exactly when it holds for
 every cap that lets the check through, and that a stored window not past the server's is enough.
 */
module BudgetChecks {
  import opened Wrappers
  import opened Budget
  import opened BudgetReports

  /** At this check of this run the bound holds for every cap that allows it. */
  ghost predicate NearForEveryCap(seconds: nat, calls: seq<Timed>, now: int)
    requires seconds > 0
  {
    forall cap: nat :: ChecksOut(seconds, calls, cap, now) ==> StaysNear(seconds, calls, cap, now)
  }

  /** The buckets, the check counted in, cover the impressions of the trailing window. Seen before the check. */
  predicate Covered(seconds: nat, calls: seq<Timed>, now: int)
    requires seconds > 0
  {
    var w := Run(seconds, calls);
    Trailing(w.log, seconds, now) <= Seen(w, seconds, now).count + Seen(w, seconds, now).prev
  }

  /** The estimate leaves room for one more under the cap. */
  predicate HasRoom(r: Bucket, elapsed: nat, seconds: nat, cap: nat) {
    Estimate(r, elapsed, seconds) + seconds <= cap * seconds
  }

  /** And not much more. */
  predicate Tight(r: Bucket, elapsed: nat, seconds: nat, cap: nat) {
    cap * seconds < Estimate(r, elapsed, seconds) + 2 * seconds
  }

  /** The bound, in numbers. */
  predicate Bounded(trailing: nat, elapsed: nat, seconds: nat, cap: nat, prev: nat) {
    trailing * seconds <= cap * seconds + elapsed * prev
  }

  lemma {:induction false} CheckAllowedIff(seconds: nat, calls: seq<Timed>, cap: nat, now: int)
    requires seconds > 0
    ensures ChecksOut(seconds, calls, cap, now)
            <==> HasRoom(Seen(Run(seconds, calls), seconds, now), now % seconds, seconds, cap)
  {
    assert 1 * seconds == seconds;
  }

  /** An allowed check adds itself to the trailing window. */
  lemma {:induction false} CheckedLog(seconds: nat, calls: seq<Timed>, cap: nat, now: int)
    requires seconds > 0 && ChecksOut(seconds, calls, cap, now)
    ensures var w' := Run(seconds, calls + [Timed(Check(cap), now, now)]);
            Trailing(w'.log, seconds, now) == Trailing(Run(seconds, calls).log, seconds, now) + 1
  {
    var log := Run(seconds, calls).log;
    RunSnoc(seconds, calls, Timed(Check(cap), now, now));
    assert (log + [now])[..|log + [now]| - 1] == log;
  }

  /** The least cap that leaves room for `need`. */
  lemma {:induction false} LeastCap(need: nat, seconds: nat) returns (cap: nat)
    requires seconds > 0
    ensures need <= cap * seconds < need + seconds
  {
    cap := (need + seconds - 1) / seconds;
    Divides(need + seconds - 1, seconds);
  }

  lemma {:induction false} CoveredByArithmetic(trailing: nat, r: Bucket, elapsed: nat, seconds: nat, cap: nat)
    requires seconds > 0 && Tight(r, elapsed, seconds, cap)
    requires Bounded(trailing + 1, elapsed, seconds, cap, r.prev)
    ensures trailing <= r.count + r.prev
  {
    assert r.prev * (seconds - elapsed) == r.prev * seconds - r.prev * elapsed;
    assert r.prev * elapsed == elapsed * r.prev;
    assert (r.count + r.prev) * seconds == r.count * seconds + r.prev * seconds;
    assert (trailing + 1) * seconds == trailing * seconds + seconds;
    if trailing > r.count + r.prev { Scale(r.count + r.prev + 1, trailing, seconds); }
  }

  /** Of any run, with any times: the bound holds for every cap at a check if and only if the buckets cover the trailing window. */
  lemma {:induction false} NearForEveryCapIff(seconds: nat, calls: seq<Timed>, now: int)
    requires seconds > 0
    ensures NearForEveryCap(seconds, calls, now) <==> Covered(seconds, calls, now)
  {
    if NearForEveryCap(seconds, calls, now) { NearMeansCovered(seconds, calls, now); }
    if Covered(seconds, calls, now) {
      forall cap: nat | ChecksOut(seconds, calls, cap, now) ensures StaysNear(seconds, calls, cap, now) {
        CoveredMeansNear(seconds, calls, cap, now);
      }
    }
  }

  /** The bound at an allowed check, in what is seen before it. */
  lemma {:induction false} NearAsNumbers(seconds: nat, calls: seq<Timed>, cap: nat, now: int)
    requires seconds > 0 && ChecksOut(seconds, calls, cap, now)
    ensures var w := Run(seconds, calls);
            StaysNear(seconds, calls, cap, now)
            <==> Bounded(Trailing(w.log, seconds, now) + 1, now % seconds, seconds, cap, Seen(w, seconds, now).prev)
  {
    CheckedBuckets(seconds, calls, cap, now);
    CheckedLog(seconds, calls, cap, now);
  }

  lemma {:induction false} NearMeansCovered(seconds: nat, calls: seq<Timed>, now: int)
    requires seconds > 0 && NearForEveryCap(seconds, calls, now)
    ensures Covered(seconds, calls, now)
  {
    var w := Run(seconds, calls);
    var cap := TightCap(seconds, calls, now);
    NearAsNumbers(seconds, calls, cap, now);
    CoveredByArithmetic(Trailing(w.log, seconds, now), Seen(w, seconds, now), now % seconds, seconds, cap);
  }

  /** The least cap the check passes with. */
  lemma {:induction false} TightCap(seconds: nat, calls: seq<Timed>, now: int) returns (cap: nat)
    requires seconds > 0
    ensures ChecksOut(seconds, calls, cap, now)
    ensures Tight(Seen(Run(seconds, calls), seconds, now), now % seconds, seconds, cap)
  {
    var r := Seen(Run(seconds, calls), seconds, now);
    EstimateNotNegative(r, now % seconds, seconds);
    cap := LeastCap(Estimate(r, now % seconds, seconds) + seconds, seconds);
    CheckAllowedIff(seconds, calls, cap, now);
  }

  lemma {:induction false} EstimateNotNegative(b: Bucket, elapsed: nat, seconds: nat)
    requires elapsed <= seconds
    ensures Estimate(b, elapsed, seconds) >= 0
  {
    Scale(0, b.count, seconds);
    Scale(0, b.prev, seconds - elapsed);
  }

  lemma {:induction false} CoveredMeansNear(seconds: nat, calls: seq<Timed>, cap: nat, now: int)
    requires seconds > 0 && Covered(seconds, calls, now) && ChecksOut(seconds, calls, cap, now)
    ensures StaysNear(seconds, calls, cap, now)
  {
    var w := Run(seconds, calls);
    NearAsNumbers(seconds, calls, cap, now);
    CheckAllowedIff(seconds, calls, cap, now);
    CoveredNumbers(Trailing(w.log, seconds, now), Seen(w, seconds, now), now % seconds, seconds, cap);
  }

  lemma {:induction false} CoveredNumbers(trailing: nat, r: Bucket, elapsed: nat, seconds: nat, cap: nat)
    requires trailing <= r.count + r.prev && HasRoom(r, elapsed, seconds, cap)
    ensures Bounded(trailing + 1, elapsed, seconds, cap, r.prev)
  {
    NearByArithmetic(trailing + 1, r, elapsed, seconds, cap);
  }

  // ---- The stored window ----

  /** The store's clock never goes back, and the key never expires between two calls. */
  ghost predicate Steady(seconds: nat, calls: seq<Timed>) {
    forall i :: 0 < i < |calls| ==> calls[i - 1].clock <= calls[i].clock < calls[i - 1].clock + 2 * seconds
  }

  /** A steady run whose key is there at `now`, if it ever was. */
  ghost predicate Lives(seconds: nat, calls: seq<Timed>, now: int) {
    Steady(seconds, calls) && (calls != [] ==> now < calls[|calls| - 1].clock + 2 * seconds)
  }

  /** The buckets are the bookings of their two windows, and none is later. */
  ghost predicate Books(b: Bucket, booked: seq<int>) {
    && (forall i :: 0 <= i < |booked| ==> booked[i] <= b.window)
    && b.count == BookedIn(booked, b.window) && b.prev == BookedIn(booked, b.window - 1)
  }

  /** Besides, no booking is before its impression's window. */
  ghost predicate HoldsBookings(w: World, booked: seq<int>, seconds: nat)
    requires seconds > 0
  {
    && |booked| == |w.log|
    && (forall i :: 0 <= i < |booked| ==> w.log[i] / seconds <= booked[i])
    && match w.entry
       case None => booked == []
       case Some(Entry(b, expiresAt)) => expiresAt == w.last + 2 * seconds && Books(b, booked)
  }

  lemma {:induction false} RolledBooks(b: Option<Bucket>, booked: seq<int>, at: int)
    requires if b.Some? then Books(b.value, booked) else booked == []
    ensures var r := Rolled(b, at); at <= r.window && Books(r, booked)
  {
    if b.Some? && b.value.window < at { NotBooked(booked, at); }
    if b.Some? && b.value.window < at - 1 { NotBooked(booked, at - 1); }
  }

  lemma {:induction false} OneMoreBooked(b: Bucket, booked: seq<int>)
    requires Books(b, booked)
    ensures Books(b.(count := b.count + 1), booked + [b.window])
  {
    BookedMore(booked, b.window, b.window);
    BookedMore(booked, b.window, b.window - 1);
  }

  lemma {:induction false} StepHoldsBookings(w: World, booked: seq<int>, seconds: nat, c: Call, at: int, clock: int)
    requires seconds > 0 && HoldsBookings(w, booked, seconds) && (w.entry.Some? ==> clock < w.last + 2 * seconds)
    ensures var w' := StepAt(w, seconds, c, at, clock);
            HoldsBookings(w', booked + if Records(w, seconds, c, at, clock) then [w'.entry.value.bucket.window] else [], seconds)
  {
    var r := Rolled(Present(w.entry, clock), at / seconds);
    RolledBooks(Present(w.entry, clock), booked, at / seconds);
    OneMoreBooked(r, booked);
    StepBuckets(w, seconds, c, at, clock);
    assert booked + [] == booked && w.log + [] == w.log;
  }

  lemma {:induction false} StepBuckets(w: World, seconds: nat, c: Call, at: int, clock: int)
    requires seconds > 0
    ensures var w', r, recorded := StepAt(w, seconds, c, at, clock), Rolled(Present(w.entry, clock), at / seconds), Records(w, seconds, c, at, clock);
            && w'.entry == Some(Entry(if recorded then r.(count := r.count + 1) else r, clock + 2 * seconds))
            && w'.log == w.log + (if recorded then [at] else []) && w'.last == clock
  {
  }

  lemma {:induction false} SteadyRunHoldsBookings(seconds: nat, calls: seq<Timed>)
    requires seconds > 0 && Steady(seconds, calls)
    ensures HoldsBookings(Run(seconds, calls), Booked(seconds, calls), seconds)
    ensures calls != [] ==> Run(seconds, calls).entry.Some? && Run(seconds, calls).last == calls[|calls| - 1].clock
  {
    if calls != [] {
      var front, last := calls[..|calls| - 1], calls[|calls| - 1];
      SteadyRunHoldsBookings(seconds, front);
      StepHoldsBookings(Run(seconds, front), Booked(seconds, front), seconds, last.call, last.at, last.clock);
    }
  }

  /** However early its reports once were: a check that finds the stored window not past the server's is covered. */
  lemma {:induction false} CurrentWindowIsCovered(seconds: nat, calls: seq<Timed>, now: int)
    requires seconds > 0 && Lives(seconds, calls, now)
    requires Seen(Run(seconds, calls), seconds, now).window == now / seconds
    ensures Covered(seconds, calls, now) && NearForEveryCap(seconds, calls, now)
  {
    var w, booked := Run(seconds, calls), Booked(seconds, calls);
    SteadyRunHoldsBookings(seconds, calls);
    RolledBooks(Present(w.entry, now), booked, now / seconds);
    TrailingIsBooked(w.log, booked, seconds, now);
    NearForEveryCapIff(seconds, calls, now);
  }

  // ---- A stored window past the server's ----

  /** Impressions of the trailing window counted before both stored windows. */
  function Forgotten(log: seq<int>, booked: seq<int>, seconds: nat, now: int, w: int): nat
    requires |log| == |booked|
  {
    if log == [] then 0
    else
      var n := |log| - 1;
      Forgotten(log[..n], booked[..n], seconds, now, w) + if log[n] >= now - seconds && booked[n] < w - 1 then 1 else 0
  }

  /** Impressions before the trailing window counted in the stored windows. */
  function Overcounted(log: seq<int>, booked: seq<int>, seconds: nat, now: int, w: int): nat
    requires |log| == |booked|
  {
    if log == [] then 0
    else
      var n := |log| - 1;
      Overcounted(log[..n], booked[..n], seconds, now, w) + if log[n] < now - seconds && booked[n] >= w - 1 then 1 else 0
  }

  lemma {:induction false} TrailingSplits(log: seq<int>, booked: seq<int>, seconds: nat, now: int, w: int)
    requires |log| == |booked| && forall i :: 0 <= i < |booked| ==> booked[i] <= w
    ensures Trailing(log, seconds, now) + Overcounted(log, booked, seconds, now, w)
            == BookedIn(booked, w) + BookedIn(booked, w - 1) + Forgotten(log, booked, seconds, now, w)
  {
    if log != [] {
      TrailingSplits(log[..|log| - 1], booked[..|booked| - 1], seconds, now, w);
    }
  }

  /** Of one run: the buckets cover the trailing window if and only if they overcount late reports by as many as they forgot. */
  lemma {:induction false} CoveredIffNotForgotten(seconds: nat, calls: seq<Timed>, now: int)
    requires seconds > 0 && Lives(seconds, calls, now)
    ensures |Run(seconds, calls).log| == |Booked(seconds, calls)|
    ensures var w, booked := Run(seconds, calls), Booked(seconds, calls);
            var stored := Seen(w, seconds, now).window;
            Covered(seconds, calls, now) <==> Forgotten(w.log, booked, seconds, now, stored) <= Overcounted(w.log, booked, seconds, now, stored)
  {
    var w, booked := Run(seconds, calls), Booked(seconds, calls);
    SteadyRunHoldsBookings(seconds, calls);
    RolledBooks(Present(w.entry, now), booked, now / seconds);
    TrailingSplits(w.log, booked, seconds, now, Seen(w, seconds, now).window);
  }

  /** Whatever led to these buckets, they cover the trailing window. */
  ghost predicate AlwaysCovers(seconds: nat, b: Bucket, now: int)
    requires seconds > 0
  {
    forall calls: seq<Timed> :: Lives(seconds, calls, now) && Seen(Run(seconds, calls), seconds, now) == b ==> Covered(seconds, calls, now)
  }

  function Repeated(t: int, clock: int, n: nat): (calls: seq<Timed>)
    ensures |calls| == n && forall i :: 0 <= i < n ==> calls[i] == Timed(Record, t, clock)
  {
    seq(n, i => Timed(Record, t, clock))
  }

  /** The world after recording `n` times over at one time. */
  function Recorded(w: World, seconds: nat, t: int, clock: int, n: nat): World
    requires seconds > 0
  {
    if n == 0 then w else StepAt(Recorded(w, seconds, t, clock, n - 1), seconds, Record, t, clock)
  }

  lemma {:induction false} RunRepeated(seconds: nat, calls: seq<Timed>, t: int, clock: int, n: nat)
    requires seconds > 0
    ensures Run(seconds, calls + Repeated(t, clock, n)) == Recorded(Run(seconds, calls), seconds, t, clock, n)
  {
    if n == 0 {
      assert calls + Repeated(t, clock, n) == calls;
    } else {
      var front := calls + Repeated(t, clock, n - 1);
      assert calls + Repeated(t, clock, n) == front + [Timed(Record, t, clock)];
      RunRepeated(seconds, calls, t, clock, n - 1);
      RunSnoc(seconds, front, Timed(Record, t, clock));
    }
  }

  lemma {:induction false} TrailingSnoc(log: seq<int>, t: int, seconds: nat, now: int)
    ensures Trailing(log + [t], seconds, now) == Trailing(log, seconds, now) + if t >= now - seconds then 1 else 0
  {
    assert (log + [t])[..|log + [t]| - 1] == log;
  }

  lemma {:induction false} RecordLogs(w: World, seconds: nat, t: int, clock: int)
    requires seconds > 0
    ensures StepAt(w, seconds, Record, t, clock).log == w.log + [t]
  {
  }

  function Times(t: int, n: nat): (ts: seq<int>)
    ensures |ts| == n && forall i :: 0 <= i < n ==> ts[i] == t
  {
    seq(n, i => t)
  }

  lemma {:induction false} RecordedLogs(w: World, seconds: nat, t: int, clock: int, n: nat)
    requires seconds > 0
    ensures Recorded(w, seconds, t, clock, n).log == w.log + Times(t, n)
  {
    if n == 0 {
      assert w.log + Times(t, n) == w.log;
    } else {
      RecordedLogs(w, seconds, t, clock, n - 1);
      RecordLogs(Recorded(w, seconds, t, clock, n - 1), seconds, t, clock);
      assert w.log + Times(t, n) == w.log + Times(t, n - 1) + [t];
    }
  }

  lemma {:induction false} TimesTrail(log: seq<int>, t: int, n: nat, seconds: nat, now: int)
    ensures Trailing(log + Times(t, n), seconds, now) == Trailing(log, seconds, now) + if t >= now - seconds then n else 0
  {
    if n == 0 {
      assert log + Times(t, n) == log;
    } else {
      TimesTrail(log, t, n - 1, seconds, now);
      assert log + Times(t, n) == log + Times(t, n - 1) + [t];
      TrailingSnoc(log + Times(t, n - 1), t, seconds, now);
    }
  }

  lemma {:induction false} RecordedTrails(w: World, seconds: nat, t: int, clock: int, n: nat, now: int)
    requires seconds > 0
    ensures Trailing(Recorded(w, seconds, t, clock, n).log, seconds, now) == Trailing(w.log, seconds, now) + if t >= now - seconds then n else 0
  {
    RecordedLogs(w, seconds, t, clock, n);
    TimesTrail(w.log, t, n, seconds, now);
  }

  lemma {:induction false} RolledStays(r: Bucket, n: nat, at: int)
    requires r.window >= at
    ensures Rolled(Some(r.(count := r.count + n)), at) == r.(count := r.count + n)
  {
  }

  lemma {:induction false} RecordedIs(w: World, seconds: nat, t: int, clock: int, n: nat)
    requires seconds > 0 && n > 0
    ensures var r := Rolled(Present(w.entry, clock), t / seconds);
            Recorded(w, seconds, t, clock, n).entry == Some(Entry(r.(count := r.count + n), clock + 2 * seconds))
  {
    if n > 1 {
      RecordedIs(w, seconds, t, clock, n - 1);
      RolledStays(Rolled(Present(w.entry, clock), t / seconds), n - 1, t / seconds);
    }
  }

  lemma {:induction false} WindowOfStart(w: int, seconds: nat)
    requires seconds > 0
    ensures (w * seconds) / seconds == w
  {
    Divides(w * seconds, seconds);
    var q := (w * seconds) / seconds;
    if q > w { Scale(w + 1, q, seconds); }
    if q < w { Scale(q + 1, w, seconds); }
  }

  /** The start of window `w`. */
  function StartOf(w: int, seconds: nat): (t: int)
    requires seconds > 0
    ensures t / seconds == w
  {
    WindowOfStart(w, seconds);
    w * seconds
  }

  /** `n` impressions at the start of the trailing window, then `k` in the window before `w`. */
  function Earlier(seconds: nat, w: int, now: int, n: nat, k: nat): seq<Timed>
    requires seconds > 0
  {
    Repeated(now - seconds, now, n) + Repeated(StartOf(w - 1, seconds), now, k)
  }

  /** A key stored at `now` with `b`, at least `n` impressions trailing. */
  ghost predicate Stores(w: World, seconds: nat, b: Bucket, now: int, n: nat)
    requires seconds > 0
  {
    w.entry == Some(Entry(b, now + 2 * seconds)) && Trailing(w.log, seconds, now) >= n
  }

  lemma {:induction false} StoresMore(w: World, seconds: nat, b: Bucket, t: int, now: int, k: nat, n: nat)
    requires seconds > 0 && Stores(w, seconds, b, now, n) && k > 0
    ensures var r := Rolled(Some(b), t / seconds); Stores(Recorded(w, seconds, t, now, k), seconds, r.(count := r.count + k), now, n)
  {
    RecordedIs(w, seconds, t, now, k);
    RecordedTrails(w, seconds, t, now, k, now);
  }

  lemma {:induction false} FirstStores(seconds: nat, now: int, n: nat)
    requires seconds > 0 && n > 0
    ensures Stores(Recorded(START, seconds, now - seconds, now, n), seconds, Bucket(now / seconds - 1, n, 0), now, n)
  {
    RecordedIs(START, seconds, now - seconds, now, n);
    RecordedTrails(START, seconds, now - seconds, now, n, now);
    OneWindowBack(now, seconds);
  }

  lemma {:induction false} FirstRuns(seconds: nat, now: int, n: nat)
    requires seconds > 0 && n > 0
    ensures Stores(Run(seconds, Repeated(now - seconds, now, n)), seconds, Bucket(now / seconds - 1, n, 0), now, n)
  {
    assert [] + Repeated(now - seconds, now, n) == Repeated(now - seconds, now, n);
    RunRepeated(seconds, [], now - seconds, now, n);
    FirstStores(seconds, now, n);
  }

  /** Recording in window `w`, after a run that stored an earlier one: what rolling into the next window gives. */
  lemma {:induction false} FollowedBy(seconds: nat, calls: seq<Timed>, b: Bucket, w: int, now: int, k: nat, n: nat)
    requires seconds > 0 && Stores(Run(seconds, calls), seconds, b, now, n) && b.window < w
    ensures var w' := Run(seconds, calls + Repeated(StartOf(w, seconds), now, k));
            exists b' :: Stores(w', seconds, b', now, n) && Rolled(Some(b'), w + 1) == Bucket(w + 1, 0, k)
  {
    if k == 0 {
      assert calls + Repeated(StartOf(w, seconds), now, k) == calls;
      assert Rolled(Some(b), w + 1) == Bucket(w + 1, 0, k);
    } else {
      var r := Rolled(Some(b), w);
      RunRepeated(seconds, calls, StartOf(w, seconds), now, k);
      StoresMore(Run(seconds, calls), seconds, b, StartOf(w, seconds), now, k, n);
      assert Rolled(Some(r.(count := r.count + k)), w + 1) == Bucket(w + 1, 0, k);
    }
  }

  lemma {:induction false} ReadStores(seconds: nat, calls: seq<Timed>, b: Bucket, w: int, now: int, n: nat)
    requires seconds > 0 && Stores(Run(seconds, calls), seconds, b, now, n)
    ensures Stores(Run(seconds, calls + [Timed(Remaining, StartOf(w, seconds), now)]), seconds, Rolled(Some(b), w), now, n)
  {
    RunSnoc(seconds, calls, Timed(Remaining, StartOf(w, seconds), now));
    ReadRolls(Run(seconds, calls), seconds, StartOf(w, seconds), now);
  }

  lemma {:induction false} ReadRolls(w: World, seconds: nat, at: int, now: int)
    requires seconds > 0 && w.entry.Some? && w.entry.value.expiresAt == now + 2 * seconds
    ensures StepAt(w, seconds, Remaining, at, now)
            == World(Some(Entry(Rolled(Some(w.entry.value.bucket), at / seconds), now + 2 * seconds)), now, w.log)
  {
    assert w.log + [] == w.log;
  }

  lemma {:induction false} SameWindowStores(seconds: nat, calls: seq<Timed>, b: Bucket, now: int, n: nat)
    requires seconds > 0 && Stores(Run(seconds, calls), seconds, b.(count := 0), now, n)
    ensures Stores(Run(seconds, calls + Repeated(StartOf(b.window, seconds), now, b.count)), seconds, b, now, n)
  {
    if b.count == 0 {
      assert calls + Repeated(StartOf(b.window, seconds), now, b.count) == calls;
    } else {
      RunRepeated(seconds, calls, StartOf(b.window, seconds), now, b.count);
      StoresMore(Run(seconds, calls), seconds, b.(count := 0), StartOf(b.window, seconds), now, b.count, n);
    }
  }

  /** The run leaves `b`, with at least `n` impressions trailing. */
  ghost predicate Leaves(seconds: nat, calls: seq<Timed>, b: Bucket, now: int, n: nat)
    requires seconds > 0
  {
    Stores(Run(seconds, calls), seconds, b, now, n)
  }

  /** Rolled into window `w`, the bucket is a new one with `k` before it. */
  predicate RollsInto(b: Bucket, w: int, k: nat) {
    Rolled(Some(b), w) == Bucket(w, 0, k)
  }

  lemma {:induction false} EarlierLeaves(seconds: nat, w: int, now: int, n: nat, k: nat) returns (b: Bucket)
    requires seconds > 0 && w > now / seconds && n > 0
    ensures Leaves(seconds, Earlier(seconds, w, now, n, k), b, now, n) && RollsInto(b, w, k)
  {
    FirstRuns(seconds, now, n);
    FollowedBy(seconds, Repeated(now - seconds, now, n), Bucket(now / seconds - 1, n, 0), w - 1, now, k, n);
    b :| Stores(Run(seconds, Earlier(seconds, w, now, n, k)), seconds, b, now, n) && Rolled(Some(b), w) == Bucket(w, 0, k);
  }

  /** Then a read opens window `b.window`, and its impressions follow. */
  function Later(seconds: nat, b: Bucket, now: int): seq<Timed>
    requires seconds > 0
  {
    [Timed(Remaining, StartOf(b.window, seconds), now)] + Repeated(StartOf(b.window, seconds), now, b.count)
  }

  lemma {:induction false} LaterLeaves(seconds: nat, calls: seq<Timed>, b': Bucket, b: Bucket, now: int, n: nat)
    requires seconds > 0 && Leaves(seconds, calls, b', now, n) && RollsInto(b', b.window, b.prev)
    ensures Leaves(seconds, calls + Later(seconds, b, now), b, now, n)
  {
    var t := StartOf(b.window, seconds);
    ReadStores(seconds, calls, b', b.window, now, n);
    SameWindowStores(seconds, calls + [Timed(Remaining, t, now)], b, now, n);
    assert calls + Later(seconds, b, now) == calls + [Timed(Remaining, t, now)] + Repeated(t, now, b.count);
  }

  /** More impressions than `b` counts, its `prev`, and then its own window. */
  function Forgetting(seconds: nat, b: Bucket, now: int): seq<Timed>
    requires seconds > 0
  {
    Earlier(seconds, b.window, now, b.count + b.prev + 1, b.prev) + Later(seconds, b, now)
  }

  lemma {:induction false} ForgettingLeaves(seconds: nat, b: Bucket, now: int)
    requires seconds > 0 && b.window > now / seconds
    ensures Leaves(seconds, Forgetting(seconds, b, now), b, now, b.count + b.prev + 1)
  {
    var n := b.count + b.prev + 1;
    var b' := EarlierLeaves(seconds, b.window, now, n, b.prev);
    LaterLeaves(seconds, Earlier(seconds, b.window, now, n, b.prev), b', b, now, n);
  }

  /** From the stored buckets alone: they are sure to cover the trailing window if and only if their window is the server's. */
  lemma {:induction false} AlwaysCoversIff(seconds: nat, b: Bucket, now: int)
    requires seconds > 0 && b.window >= now / seconds
    ensures AlwaysCovers(seconds, b, now) <==> b.window == now / seconds
  {
    if b.window == now / seconds {
      forall calls: seq<Timed> | Lives(seconds, calls, now) && Seen(Run(seconds, calls), seconds, now) == b
        ensures Covered(seconds, calls, now)
      {
        CurrentWindowIsCovered(seconds, calls, now);
      }
    } else {
      ForgettingLives(seconds, b, now);
      ForgettingLeaves(seconds, b, now);
      NotCovered(seconds, Forgetting(seconds, b, now), b, now);
    }
  }

  lemma {:induction false} ForgettingLives(seconds: nat, b: Bucket, now: int)
    requires seconds > 0
    ensures Lives(seconds, Forgetting(seconds, b, now), now)
  {
    var calls := Forgetting(seconds, b, now);
    forall i | 0 <= i < |calls| ensures calls[i].clock == now {}
  }

  lemma {:induction false} NotCovered(seconds: nat, calls: seq<Timed>, b: Bucket, now: int)
    requires seconds > 0 && b.window > now / seconds
    requires Leaves(seconds, calls, b, now, b.count + b.prev + 1)
    ensures Seen(Run(seconds, calls), seconds, now) == b && !Covered(seconds, calls, now)
  {
  }
}
