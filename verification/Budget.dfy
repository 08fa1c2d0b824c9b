/**
 The project budget (internal/governance/budget): one atomic script over two fixed buckets, the estimate
 weighing the previous bucket by what the sliding window still covers of it.
 Times are whole seconds. Estimates are multiplied by the window's length, which makes them integers.
 A call has a time of its own, which for a reported impression is the device's, and happens at a time of
 the store's clock, by which the key expires.
 */
module Budget {
  import opened Wrappers

  // ---- The script ----

  datatype Bucket = Bucket(window: int, count: nat, prev: nat)

  /** The buckets as of window `at`; a key that is not there counts nothing, and windows never go back. */
  function Rolled(b: Option<Bucket>, at: int): Bucket {
    match b
    case None => Bucket(at, 0, 0)
    case Some(Bucket(window, count, _)) =>
      if window == at - 1 then Bucket(at, 0, count)
      else if window < at then Bucket(at, 0, 0)
      else b.value
  }

  /** `count + prev * weight`, times the window. */
  function Estimate(b: Bucket, elapsed: nat, seconds: nat): int {
    b.count * seconds + b.prev * (seconds - elapsed)
  }

  datatype Reply = Reply(bucket: Bucket, estimate: int, allowed: bool)

  /** A negative cap skips the check. */
  function Script(b: Option<Bucket>, at: int, elapsed: nat, seconds: nat, increment: nat, cap: int): Reply {
    var r := Rolled(b, at);
    var allowed := cap < 0 || Estimate(r, elapsed, seconds) + increment * seconds <= cap * seconds;
    var r' := if allowed then r.(count := r.count + increment) else r;
    Reply(r', Estimate(r', elapsed, seconds), allowed)
  }

  const NO_CAP_CHECK: int := -1

  // ---- The key in the store ----

  /** The key is there until it expires, two windows after it was last touched. */
  datatype Entry = Entry(bucket: Bucket, expiresAt: int)

  function Present(e: Option<Entry>, now: int): Option<Bucket> {
    if e.Some? && now < e.value.expiresAt then Some(e.value.bucket) else None
  }

  function Evaluated(e: Option<Entry>, at: int, clock: int, seconds: nat, increment: nat, cap: int): (Entry, Reply)
    requires seconds > 0
  {
    var reply := Script(Present(e, clock), at / seconds, at % seconds, seconds, increment, cap);
    (Entry(reply.bucket, clock + 2 * seconds), reply)
  }

  /** What is left of the cap, rounded down, never below zero. */
  function Left(cap: int, estimate: int, seconds: nat): nat
    requires seconds > 0
  {
    if cap * seconds - estimate < 0 then 0 else (cap * seconds - estimate) / seconds
  }

  /** One identity's counter among many, as the program drives it. */
  class Counter {
    const seconds: nat
    var entries: map<string, Entry>

    constructor (seconds: nat)
      requires seconds > 0
      ensures this.seconds == seconds && entries == map[]
    {
      this.seconds, entries := seconds, map[];
    }

    method Eval(identity: string, now: int, clock: int, increment: nat, cap: int) returns (reply: Reply)
      requires seconds > 0
      modifies this
      ensures var (entry, expected) := Evaluated(Get(old(entries), identity), now, clock, seconds, increment, cap);
              reply == expected && entries == old(entries)[identity := entry]
    {
      var windowIdx, elapsed := now / seconds, now % seconds;
      var stored := Present(Get(entries, identity), clock);
      var window, count, prev := windowIdx, 0 as nat, 0 as nat;
      if stored.Some? {
        window, count, prev := stored.value.window, stored.value.count, stored.value.prev;
        if window < windowIdx {
          if window == windowIdx - 1 { prev := count; } else { prev := 0; }
          count := 0;
          window := windowIdx;
        }
      }
      var before := count * seconds + prev * (seconds - elapsed);
      var allowed, inc := true, increment;
      if cap >= 0 && before + increment * seconds > cap * seconds {
        allowed, inc := false, 0;
      }
      count := count + inc;
      entries := entries[identity := Entry(Bucket(window, count, prev), clock + 2 * seconds)];
      reply := Reply(Bucket(window, count, prev), count * seconds + prev * (seconds - elapsed), allowed);
    }

    method Remaining(identity: string, cap: int, now: int, clock: int) returns (left: nat)
      requires seconds > 0
      modifies this
      ensures var (entry, reply) := Evaluated(Get(old(entries), identity), now, clock, seconds, 0, NO_CAP_CHECK);
              left == Left(cap, reply.estimate, seconds) && entries == old(entries)[identity := entry]
    {
      var reply := Eval(identity, now, clock, 0, NO_CAP_CHECK);
      var remaining := cap * seconds - reply.estimate;
      if remaining < 0 { remaining := 0; }
      left := remaining / seconds;
    }

    method RecordImpression(identity: string, now: int, clock: int)
      requires seconds > 0
      modifies this
      ensures entries == old(entries)[identity := Evaluated(Get(old(entries), identity), now, clock, seconds, 1, NO_CAP_CHECK).0]
    {
      var _ := Eval(identity, now, clock, 1, NO_CAP_CHECK);
    }

    method CheckAndIncrement(identity: string, cap: int, now: int, clock: int) returns (allowed: bool)
      requires seconds > 0
      modifies this
      ensures var (entry, reply) := Evaluated(Get(old(entries), identity), now, clock, seconds, 1, cap);
              allowed == reply.allowed && entries == old(entries)[identity := entry]
    {
      var reply := Eval(identity, now, clock, 1, cap);
      allowed := reply.allowed;
    }
  }

  // ---- The exact log ----

  /** Impressions recorded in window `w`. */
  function InWindow(log: seq<int>, seconds: nat, w: int): nat
    requires seconds > 0
  {
    if log == [] then 0
    else InWindow(log[..|log| - 1], seconds, w) + if log[|log| - 1] / seconds == w then 1 else 0
  }

  /** Impressions recorded from `now - seconds` on. */
  function Trailing(log: seq<int>, seconds: nat, now: int): nat {
    if log == [] then 0
    else Trailing(log[..|log| - 1], seconds, now) + if log[|log| - 1] >= now - seconds then 1 else 0
  }

  datatype World = World(entry: Option<Entry>, last: int, log: seq<int>)

  datatype Call = Remaining | Record | Check(cap: int)

  /** An identity's first call finds no key. */
  const START := World(None, 0, [])

  function Increment(c: Call): nat {
    if c.Remaining? then 0 else 1
  }

  function CapOf(c: Call): int {
    if c.Check? then c.cap else NO_CAP_CHECK
  }

  function ReplyOf(w: World, seconds: nat, c: Call, now: int): Reply
    requires seconds > 0
  {
    Evaluated(w.entry, now, now, seconds, Increment(c), CapOf(c)).1
  }

  /** A call; the log gains the impression, if one was recorded. `last` is when the store's clock was last read. */
  function StepAt(w: World, seconds: nat, c: Call, at: int, clock: int): World
    requires seconds > 0
  {
    var (entry, reply) := Evaluated(w.entry, at, clock, seconds, Increment(c), CapOf(c));
    World(Some(entry), clock, w.log + if Increment(c) == 1 && reply.allowed then [at] else [])
  }

  /** A call of the server's own, at the store's time. */
  function Step(w: World, seconds: nat, c: Call, now: int): World
    requires seconds > 0
  {
    StepAt(w, seconds, c, now, now)
  }

  datatype Timed = Timed(call: Call, at: int, clock: int)

  function Run(seconds: nat, calls: seq<Timed>): World
    requires seconds > 0
  {
    if calls == [] then START
    else StepAt(Run(seconds, calls[..|calls| - 1]), seconds, calls[|calls| - 1].call, calls[|calls| - 1].at, calls[|calls| - 1].clock)
  }

  /** Every call is made at the store's time, which never goes back, nor before the epoch. */
  ghost predicate Forward(calls: seq<Timed>) {
    && (forall i :: 0 <= i < |calls| ==> 0 <= calls[i].at == calls[i].clock)
    && (forall i, j :: 0 <= i < j < |calls| ==> calls[i].at <= calls[j].at)
  }

  /** The buckets a call at `now` works on. */
  function Seen(w: World, seconds: nat, now: int): Bucket
    requires seconds > 0
  {
    Rolled(Present(w.entry, now), now / seconds)
  }

  ghost predicate NotAfter(log: seq<int>, t: int) {
    forall i :: 0 <= i < |log| ==> log[i] <= t
  }

  /** The stored buckets are the true totals of the window last touched and the one before. */
  ghost predicate Refines(w: World, seconds: nat)
    requires seconds > 0
  {
    && NotAfter(w.log, w.last)
    && match w.entry
       case None => w.log == []
       case Some(Entry(b, expiresAt)) =>
         && b.window == w.last / seconds && expiresAt == w.last + 2 * seconds
         && b.count == InWindow(w.log, seconds, b.window)
         && b.prev == InWindow(w.log, seconds, b.window - 1)
  }

  lemma {:induction false} LaterIsLaterWindow(a: int, b: int, seconds: nat)
    requires seconds > 0 && a <= b
    ensures a / seconds <= b / seconds
  {
    Divides(a, seconds);
    Divides(b, seconds);
    if a / seconds > b / seconds { Scale(b / seconds + 1, a / seconds, seconds); }
  }

  lemma {:induction false} Divides(a: int, seconds: nat)
    requires seconds > 0
    ensures a == (a / seconds) * seconds + a % seconds && 0 <= a % seconds < seconds
  {
  }

  lemma {:induction false} Scale(a: int, b: int, k: int)
    requires a <= b && 0 <= k
    ensures a * k <= b * k
  {
  }

  lemma {:induction false} NoneLater(log: seq<int>, seconds: nat, w: int)
    requires seconds > 0 && forall i :: 0 <= i < |log| ==> log[i] / seconds < w
    ensures InWindow(log, seconds, w) == 0
  {
    if log != [] { NoneLater(log[..|log| - 1], seconds, w); }
  }

  lemma {:induction false} NothingRecordedLater(w: World, seconds: nat, at: int)
    requires seconds > 0 && Refines(w, seconds) && w.last / seconds < at
    ensures InWindow(w.log, seconds, at) == 0
  {
    forall i | 0 <= i < |w.log| ensures w.log[i] / seconds < at {
      LaterIsLaterWindow(w.log[i], w.last, seconds);
    }
    NoneLater(w.log, seconds, at);
  }

  lemma {:induction false} ExpiredIsTwoWindowsOn(last: int, now: int, seconds: nat)
    requires seconds > 0 && now >= last + 2 * seconds
    ensures now / seconds >= last / seconds + 2
  {
    Divides(last, seconds);
    Divides(now, seconds);
    if now / seconds <= last / seconds + 1 { Scale(now / seconds, last / seconds + 1, seconds); }
  }

  /** A key that expired had nothing left to say: rolling it over gives what its absence gives. */
  lemma {:induction false} ExpiryChangesNothing(w: World, seconds: nat, now: int)
    requires seconds > 0 && Refines(w, seconds) && w.last <= now
    ensures w.entry.Some? ==> Seen(w, seconds, now) == Rolled(Some(w.entry.value.bucket), now / seconds)
  {
    if w.entry.Some? && now >= w.entry.value.expiresAt {
      ExpiredIsTwoWindowsOn(w.last, now, seconds);
    }
  }

  /** What a call works on, at any later time, is the exact log: the totals of its window and the one before. */
  lemma {:induction false} SeenIsTheLog(w: World, seconds: nat, now: int)
    requires seconds > 0 && Refines(w, seconds) && w.last <= now
    ensures var b := Seen(w, seconds, now);
            && b.window == now / seconds
            && b.count == InWindow(w.log, seconds, now / seconds)
            && b.prev == InWindow(w.log, seconds, now / seconds - 1)
  {
    ExpiryChangesNothing(w, seconds, now);
    LaterIsLaterWindow(w.last, now, seconds);
    var at := now / seconds;
    if w.entry.Some? {
      if w.last / seconds < at { NothingRecordedLater(w, seconds, at); }
      if w.last / seconds < at - 1 { NothingRecordedLater(w, seconds, at - 1); }
    }
  }

  lemma {:induction false} StepRefines(w: World, seconds: nat, c: Call, now: int)
    requires seconds > 0 && Refines(w, seconds) && w.last <= now
    ensures Refines(Step(w, seconds, c, now), seconds)
  {
    SeenIsTheLog(w, seconds, now);
    var log' := w.log + [now];
    assert log'[..|log'| - 1] == w.log;
    assert w.log + [] == w.log;
  }

  /** Under a clock that never goes back, the two buckets refine the exact log over every run. */
  lemma {:induction false} RunsRefineTheLog(seconds: nat, calls: seq<Timed>)
    requires seconds > 0 && Forward(calls)
    ensures Refines(Run(seconds, calls), seconds)
    ensures Run(seconds, calls).last == if calls == [] then 0 else calls[|calls| - 1].at
  {
    if calls != [] {
      var front := calls[..|calls| - 1];
      RunsRefineTheLog(seconds, front);
      assert Run(seconds, front).last <= calls[|calls| - 1].at;
      StepRefines(Run(seconds, front), seconds, calls[|calls| - 1].call, calls[|calls| - 1].at);
    }
  }

  // ---- The cap ----

  lemma {:induction false} TrailingInTwoWindows(log: seq<int>, seconds: nat, now: int)
    requires seconds > 0 && NotAfter(log, now)
    ensures Trailing(log, seconds, now) <= InWindow(log, seconds, now / seconds) + InWindow(log, seconds, now / seconds - 1)
  {
    if log != [] {
      TrailingInTwoWindows(log[..|log| - 1], seconds, now);
      var t := log[|log| - 1];
      if t >= now - seconds {
        LaterIsLaterWindow(t, now, seconds);
        LaterIsLaterWindow(now - seconds, t, seconds);
        OneWindowBack(now, seconds);
      }
    }
  }

  lemma {:induction false} OneWindowBack(now: int, seconds: nat)
    requires seconds > 0
    ensures (now - seconds) / seconds == now / seconds - 1
  {
    Divides(now, seconds);
    Divides(now - seconds, seconds);
    var q, r := now / seconds, (now - seconds) / seconds;
    assert r * seconds + (now - seconds) % seconds == (q - 1) * seconds + now % seconds;
    if r > q - 1 { Scale(q, r, seconds); }
    if r < q - 1 { Scale(r + 1, q - 1, seconds); }
  }

  /**
   At each allowed check, the impressions of the trailing window, the new one included, number at most the
   cap and the elapsed fraction of the window's worth of the previous bucket. (Both sides times the window.)
   */
  lemma {:induction false} AllowedStaysNearTheCap(w: World, seconds: nat, cap: int, now: int)
    requires seconds > 0 && Refines(w, seconds) && w.last <= now && cap >= 0
    requires ReplyOf(w, seconds, Check(cap), now).allowed
    ensures var w' := Step(w, seconds, Check(cap), now);
            Trailing(w'.log, seconds, now) * seconds
            <= cap * seconds + (now % seconds) * InWindow(w'.log, seconds, now / seconds - 1)
  {
    var w' := Step(w, seconds, Check(cap), now);
    StepRefines(w, seconds, Check(cap), now);
    TrailingInTwoWindows(w'.log, seconds, now);
    AllowedEstimate(w, seconds, cap, now);
    CapArithmetic(Trailing(w'.log, seconds, now), w'.entry.value.bucket, now % seconds, seconds, cap);
  }

  lemma {:induction false} AllowedEstimate(w: World, seconds: nat, cap: int, now: int)
    requires seconds > 0 && Refines(w, seconds) && w.last <= now && cap >= 0
    requires ReplyOf(w, seconds, Check(cap), now).allowed
    ensures var w' := Step(w, seconds, Check(cap), now);
            w'.entry.value.bucket.window == now / seconds && Estimate(w'.entry.value.bucket, now % seconds, seconds) <= cap * seconds
  {
    SeenIsTheLog(w, seconds, now);
    AfterOne(Seen(w, seconds, now), now % seconds, seconds);
  }

  lemma {:induction false} CapArithmetic(trailing: nat, b: Bucket, elapsed: nat, seconds: nat, cap: int)
    requires trailing <= b.count + b.prev && Estimate(b, elapsed, seconds) <= cap * seconds
    ensures trailing * seconds <= cap * seconds + elapsed * b.prev
  {
    Scale(trailing, b.count + b.prev, seconds);
    assert b.prev * (seconds - elapsed) == b.prev * seconds - b.prev * elapsed;
    assert (b.count + b.prev) * seconds == b.count * seconds + b.prev * seconds;
    assert b.prev * elapsed == elapsed * b.prev;
  }

  /** So it is at every allowed check of every run. */
  lemma {:induction false} EveryRunStaysNearTheCap(seconds: nat, calls: seq<Timed>, cap: int, now: int)
    requires seconds > 0 && cap >= 0 && Forward(calls + [Timed(Check(cap), now, now)])
    requires ReplyOf(Run(seconds, calls), seconds, Check(cap), now).allowed
    ensures var log := Run(seconds, calls + [Timed(Check(cap), now, now)]).log;
            Trailing(log, seconds, now) * seconds <= cap * seconds + (now % seconds) * InWindow(log, seconds, now / seconds - 1)
  {
    var all := calls + [Timed(Check(cap), now, now)];
    assert all[..|all| - 1] == calls;
    assert all[|all| - 1] == Timed(Check(cap), now, now);
    assert Forward(calls) by {
      forall i, j | 0 <= i < j < |calls| ensures calls[i].at <= calls[j].at {
        assert all[i].at <= all[j].at;
      }
      forall i | 0 <= i < |calls| ensures 0 <= calls[i].at == calls[i].clock { assert 0 <= all[i].at == all[i].clock; }
    }
    RunsRefineTheLog(seconds, calls);
    if calls != [] { assert all[|calls| - 1].at <= all[|calls|].at; }
    AllowedStaysNearTheCap(Run(seconds, calls), seconds, cap, now);
  }

  lemma {:induction false} AfterOne(b: Bucket, elapsed: nat, seconds: nat)
    ensures Estimate(b.(count := b.count + 1), elapsed, seconds) == Estimate(b, elapsed, seconds) + seconds
  {
    assert (b.count + 1) * seconds == b.count * seconds + seconds;
  }

  // ---- Time alone ----

  ghost function EstimateAt(w: World, seconds: nat, now: int): int
    requires seconds > 0
  {
    Estimate(Seen(w, seconds, now), now % seconds, seconds)
  }

  lemma {:induction false} LaterInWindow(now: int, later: int, seconds: nat)
    requires seconds > 0 && now <= later && now / seconds == later / seconds
    ensures now % seconds <= later % seconds
  {
    Divides(now, seconds);
    Divides(later, seconds);
  }

  /** Inside a window, across a boundary or over a gap, the estimate never rises by itself. */
  lemma {:induction false} EstimateNeverRises(w: World, seconds: nat, now: int, later: int)
    requires seconds > 0 && Refines(w, seconds) && w.last <= now <= later
    ensures EstimateAt(w, seconds, later) <= EstimateAt(w, seconds, now)
  {
    ExpiryChangesNothing(w, seconds, now);
    ExpiryChangesNothing(w, seconds, later);
    LaterIsLaterWindow(w.last, now, seconds);
    LaterIsLaterWindow(now, later, seconds);
    var b, b' := Seen(w, seconds, now), Seen(w, seconds, later);
    var e, e' := now % seconds, later % seconds;
    assert 0 <= e < seconds && 0 <= e' < seconds;
    Product(b.prev, seconds - e);
    if now / seconds == later / seconds {
      LaterInWindow(now, later, seconds);
      Scale(seconds - e', seconds - e, b.prev);
      assert b' == b;
      Commute(b.prev, seconds - e', seconds - e);
    } else {
      Product(b.count, seconds);
      if b'.prev != 0 {
        assert b'.count == 0 && b'.prev == b.count;
        Scale(seconds - e', seconds, b.count);
        Commute(b.count, seconds - e', seconds);
      }
    }
  }

  lemma {:induction false} Product(a: nat, b: nat)
    ensures a * b >= 0
  {
  }

  lemma {:induction false} Commute(a: int, b: int, c: int)
    ensures a * b == b * a && a * c == c * a
  {
  }

  /** Asking what remains changes no later answer, though it rewrites the key and renews its expiry. */
  lemma {:induction false} ReadsChangeNothing(w: World, seconds: nat, now: int, later: int)
    requires seconds > 0 && Refines(w, seconds) && w.last <= now <= later
    ensures Seen(Step(w, seconds, Remaining, now), seconds, later) == Seen(w, seconds, later)
  {
    var w' := Step(w, seconds, Remaining, now);
    StepRefines(w, seconds, Remaining, now);
    SeenIsTheLog(w, seconds, later);
    SeenIsTheLog(w', seconds, later);
    assert w'.log == w.log;
  }

  // ---- What the remaining budget promises ----

  function Asked(w: World, seconds: nat, cap: int, now: int, n: nat): World
    requires seconds > 0
  {
    if n == 0 then w else Step(Asked(w, seconds, cap, now, n - 1), seconds, Check(cap), now)
  }

  ghost function LeftAt(w: World, seconds: nat, cap: int, now: int): nat
    requires seconds > 0
  {
    Left(cap, ReplyOf(w, seconds, Remaining, now).estimate, seconds)
  }

  /** The next `n` checks succeed and the one after is refused. */
  ghost predicate ExactlyMore(w: World, seconds: nat, cap: int, now: int, n: nat)
    requires seconds > 0
  {
    && (forall k: nat :: k < n ==> ReplyOf(Asked(w, seconds, cap, now, k), seconds, Check(cap), now).allowed)
    && !ReplyOf(Asked(w, seconds, cap, now, n), seconds, Check(cap), now).allowed
  }

  lemma {:induction false} AskedCounts(w: World, seconds: nat, cap: int, now: int, k: nat)
    requires seconds > 0 && Refines(w, seconds) && w.last <= now && cap >= 0 && k <= LeftAt(w, seconds, cap, now)
    ensures var b, w' := Seen(w, seconds, now), Asked(w, seconds, cap, now, k);
            && Refines(w', seconds) && w'.last <= now
            && Seen(w', seconds, now) == b.(count := b.count + k)
            && (ReplyOf(w', seconds, Check(cap), now).allowed <==> k < LeftAt(w, seconds, cap, now))
  {
    if k > 0 {
      AskedCounts(w, seconds, cap, now, k - 1);
      var before := Asked(w, seconds, cap, now, k - 1);
      StepRefines(before, seconds, Check(cap), now);
      AfterCheck(before, seconds, cap, now);
    }
    NextIsAllowedIff(w, Asked(w, seconds, cap, now, k), seconds, cap, now, k);
  }

  /** With `k` more counted than `w` has, another is allowed exactly while `k` is short of what `w` had left. */
  lemma {:induction false} NextIsAllowedIff(w: World, w': World, seconds: nat, cap: int, now: int, k: nat)
    requires seconds > 0 && cap >= 0
    requires var b := Seen(w, seconds, now); Seen(w', seconds, now) == b.(count := b.count + k)
    ensures ReplyOf(w', seconds, Check(cap), now).allowed <==> k < LeftAt(w, seconds, cap, now)
  {
    var b, e := Seen(w, seconds, now), now % seconds;
    AddMany(b, e, seconds, k);
    LeftIs(cap, Estimate(b, e, seconds), seconds, k);
  }

  /** After an allowed check at `now`, a call at `now` finds one more. */
  lemma {:induction false} AfterCheck(w: World, seconds: nat, cap: int, now: int)
    requires seconds > 0 && Refines(w, seconds) && w.last <= now && ReplyOf(w, seconds, Check(cap), now).allowed
    ensures var b := Seen(w, seconds, now); Seen(Step(w, seconds, Check(cap), now), seconds, now) == b.(count := b.count + 1)
  {
    SeenIsTheLog(w, seconds, now);
  }

  lemma {:induction false} AddMany(b: Bucket, elapsed: nat, seconds: nat, k: nat)
    ensures Estimate(b.(count := b.count + k), elapsed, seconds) == Estimate(b, elapsed, seconds) + k * seconds
  {
    assert (b.count + k) * seconds == b.count * seconds + k * seconds;
  }

  lemma {:induction false} LeftIs(cap: int, estimate: int, seconds: nat, k: nat)
    requires seconds > 0
    ensures estimate + k * seconds + seconds <= cap * seconds <==> k < Left(cap, estimate, seconds)
  {
    var room := cap * seconds - estimate;
    Product(k, seconds);
    if room >= 0 {
      Divides(room, seconds);
      var q := room / seconds;
      assert (k + 1) * seconds == k * seconds + seconds;
      if k + 1 <= q { Scale(k + 1, q, seconds); } else { Scale(q + 1, k + 1, seconds); }
      assert (q + 1) * seconds == q * seconds + seconds;
    }
  }

  lemma {:induction false} ExactlyWhatRemains(w: World, seconds: nat, cap: int, now: int)
    requires seconds > 0 && Refines(w, seconds) && w.last <= now && cap >= 0
    ensures ExactlyMore(w, seconds, cap, now, LeftAt(w, seconds, cap, now))
  {
    var n := LeftAt(w, seconds, cap, now);
    forall k: nat | k < n ensures ReplyOf(Asked(w, seconds, cap, now, k), seconds, Check(cap), now).allowed {
      AskedCounts(w, seconds, cap, now, k);
    }
    AskedCounts(w, seconds, cap, now, n);
  }

  /**
   Exactly what remains can still be had, and no more, if and only if the cap is not negative. A negative
   cap reports nothing left and refuses nothing.
   */
  lemma {:induction false} RemainingIsExactIff(w: World, seconds: nat, cap: int, now: int)
    requires seconds > 0 && Refines(w, seconds) && w.last <= now
    ensures ExactlyMore(w, seconds, cap, now, LeftAt(w, seconds, cap, now)) <==> cap >= 0
  {
    if cap >= 0 { ExactlyWhatRemains(w, seconds, cap, now); }
  }
}
