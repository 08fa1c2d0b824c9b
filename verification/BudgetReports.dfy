/**
 The budget when impressions are recorded at the time a device gives for them, as the rollup consumer
 does (internal/event/consumer, reconcileBudget): when the totals stay true, and when the cap holds.
 */
module BudgetReports {
  import opened Wrappers
  import opened Budget

  // ---- The totals ----

  /** The buckets hold the true totals of their window and the one before, and nothing is later. */
  ghost predicate Totals(b: Bucket, log: seq<int>, seconds: nat)
    requires seconds > 0
  {
    && b.count == InWindow(log, seconds, b.window) && b.prev == InWindow(log, seconds, b.window - 1)
    && (forall i :: 0 <= i < |log| ==> log[i] / seconds <= b.window)
  }

  /** No impression from window `w` on. */
  ghost predicate NoneFrom(log: seq<int>, seconds: nat, w: int)
    requires seconds > 0
  {
    forall i :: 0 <= i < |log| ==> log[i] / seconds < w
  }

  lemma {:induction false} OneMore(log: seq<int>, t: int, seconds: nat, w: int)
    requires seconds > 0
    ensures InWindow(log + [t], seconds, w) == InWindow(log, seconds, w) + if t / seconds == w then 1 else 0
  {
    assert (log + [t])[..|log + [t]| - 1] == log;
  }

  lemma {:induction false} SomeInWindow(log: seq<int>, seconds: nat, w: int)
    requires seconds > 0
    ensures InWindow(log, seconds, w) == 0 <==> forall i :: 0 <= i < |log| ==> log[i] / seconds != w
  {
    if log != [] {
      SomeInWindow(log[..|log| - 1], seconds, w);
      assert log == log[..|log| - 1] + [log[|log| - 1]];
    }
  }

  /** Recording an impression keeps the totals true if and only if its window is not before the stored one. */
  lemma {:induction false} RecordKeepsTotalsIff(b: Bucket, log: seq<int>, t: int, seconds: nat)
    requires seconds > 0 && Totals(b, log, seconds)
    ensures Totals(Script(Some(b), t / seconds, t % seconds, seconds, 1, NO_CAP_CHECK).bucket, log + [t], seconds) <==> b.window <= t / seconds
  {
    RolledTotals(b, log, t / seconds, seconds);
    AddedTotalsIff(Rolled(Some(b), t / seconds), log, t, seconds);
  }

  /** Rolling over keeps them true. */
  lemma {:induction false} RolledTotals(b: Bucket, log: seq<int>, at: int, seconds: nat)
    requires seconds > 0 && Totals(b, log, seconds)
    ensures Totals(Rolled(Some(b), at), log, seconds)
  {
    if b.window < at {
      NoneLater(log, seconds, at);
      if b.window < at - 1 { NoneLater(log, seconds, at - 1); }
    }
  }

  lemma {:induction false} AddedTotalsIff(b: Bucket, log: seq<int>, t: int, seconds: nat)
    requires seconds > 0 && Totals(b, log, seconds)
    ensures Totals(b.(count := b.count + 1), log + [t], seconds) <==> t / seconds == b.window
  {
    OneMore(log, t, seconds, b.window);
    OneMore(log, t, seconds, b.window - 1);
    if t / seconds == b.window {
      forall i | 0 <= i < |log + [t]| ensures (log + [t])[i] / seconds <= b.window {
        if i < |log| { assert (log + [t])[i] == log[i]; }
      }
    }
  }

  /** A fresh key is true of a log exactly when that log has nothing in the two windows it stands for, or later. */
  lemma {:induction false} FreshTotalsIff(log: seq<int>, at: int, seconds: nat)
    requires seconds > 0
    ensures Totals(Bucket(at, 0, 0), log, seconds) <==> NoneFrom(log, seconds, at - 1)
  {
    SomeInWindow(log, seconds, at);
    SomeInWindow(log, seconds, at - 1);
  }

  lemma {:induction false} FreshRecordTotalsIff(log: seq<int>, t: int, seconds: nat)
    requires seconds > 0
    ensures Totals(Bucket(t / seconds, 1, 0), log + [t], seconds) <==> NoneFrom(log, seconds, t / seconds - 1)
  {
    var at := t / seconds;
    OneMore(log, t, seconds, at);
    OneMore(log, t, seconds, at - 1);
    SomeInWindow(log, seconds, at);
    SomeInWindow(log, seconds, at - 1);
    assert forall i :: 0 <= i < |log| ==> (log + [t])[i] == log[i];
  }

  /**
   What a call must meet to keep the totals true, seen before it: while the key lives, that it records
   nothing or not before the stored window; when the key is gone, that nothing recorded is recent.
   */
  ghost predicate KeepsTotals(w: World, seconds: nat, c: Call, at: int, clock: int)
    requires seconds > 0
  {
    match Present(w.entry, clock)
    case Some(b) => Records(w, seconds, c, at, clock) ==> b.window <= at / seconds
    case None => NoneFrom(w.log, seconds, at / seconds - 1)
  }

  predicate Records(w: World, seconds: nat, c: Call, at: int, clock: int)
    requires seconds > 0
  {
    Increment(c) == 1 && Evaluated(w.entry, at, clock, seconds, Increment(c), CapOf(c)).1.allowed
  }

  ghost predicate TrueTotals(w: World, seconds: nat)
    requires seconds > 0
  {
    match w.entry
    case None => w.log == []
    case Some(entry) => Totals(entry.bucket, w.log, seconds)
  }

  lemma {:induction false} CallKeepsTotalsIff(w: World, seconds: nat, c: Call, at: int, clock: int)
    requires seconds > 0 && TrueTotals(w, seconds)
    ensures TrueTotals(StepAt(w, seconds, c, at, clock), seconds) <==> KeepsTotals(w, seconds, c, at, clock)
  {
    assert w.log + [] == w.log;
    match Present(w.entry, clock)
    case Some(b) =>
      RolledTotals(b, w.log, at / seconds, seconds);
      AddedTotalsIff(Rolled(Some(b), at / seconds), w.log, at, seconds);
    case None =>
      FreshTotalsIff(w.log, at / seconds, seconds);
      FreshRecordTotalsIff(w.log, at, seconds);
  }

  /** At every point of the run the stored totals are true. */
  ghost predicate AlwaysTrue(seconds: nat, calls: seq<Timed>)
    requires seconds > 0
  {
    TrueTotals(Run(seconds, calls), seconds) && (calls == [] || AlwaysTrue(seconds, calls[..|calls| - 1]))
  }

  ghost predicate AlwaysKept(seconds: nat, calls: seq<Timed>)
    requires seconds > 0
  {
    calls == []
    || var last := calls[|calls| - 1];
       && AlwaysKept(seconds, calls[..|calls| - 1])
       && KeepsTotals(Run(seconds, calls[..|calls| - 1]), seconds, last.call, last.at, last.clock)
  }

  /** Over runs with any times: the totals stay true if and only if every call met its condition. */
  lemma {:induction false} TotalsStayTrueIff(seconds: nat, calls: seq<Timed>)
    requires seconds > 0
    ensures AlwaysTrue(seconds, calls) <==> AlwaysKept(seconds, calls)
  {
    if calls != [] {
      var front, last := calls[..|calls| - 1], calls[|calls| - 1];
      TotalsStayTrueIff(seconds, front);
      if TrueTotals(Run(seconds, front), seconds) {
        CallKeepsTotalsIff(Run(seconds, front), seconds, last.call, last.at, last.clock);
      }
    }
  }

  /** Reported impressions only, none so late after the last that the key is gone. */
  ghost predicate Reports(seconds: nat, calls: seq<Timed>) {
    && (forall i :: 0 <= i < |calls| ==> calls[i].call.Record?)
    && (forall i :: 0 < i < |calls| ==> calls[i].clock < calls[i - 1].clock + 2 * seconds)
  }

  ghost predicate WindowsNeverGoBack(seconds: nat, calls: seq<Timed>)
    requires seconds > 0
  {
    forall i, j :: 0 <= i < j < |calls| ==> calls[i].at / seconds <= calls[j].at / seconds
  }

  lemma {:induction false} ReportedWindow(seconds: nat, calls: seq<Timed>)
    requires seconds > 0 && calls != [] && Reports(seconds, calls) && WindowsNeverGoBack(seconds, calls)
    ensures var w, last := Run(seconds, calls), calls[|calls| - 1];
            w.entry.Some? && w.entry.value.bucket.window == last.at / seconds && w.entry.value.expiresAt == last.clock + 2 * seconds
  {
    var front := calls[..|calls| - 1];
    if front != [] {
      ReportedWindow(seconds, front);
      assert calls[|front| - 1].at / seconds <= calls[|front|].at / seconds;
    }
  }

  lemma {:induction false} ReportCondition(seconds: nat, calls: seq<Timed>)
    requires seconds > 0 && calls != [] && Reports(seconds, calls) && WindowsNeverGoBack(seconds, calls[..|calls| - 1])
    ensures var last := calls[|calls| - 1];
            KeepsTotals(Run(seconds, calls[..|calls| - 1]), seconds, last.call, last.at, last.clock) <==> WindowsNeverGoBack(seconds, calls)
  {
    var front, last := calls[..|calls| - 1], calls[|calls| - 1];
    if front != [] {
      assert Reports(seconds, front);
      ReportedWindow(seconds, front);
      assert front[|front| - 1] == calls[|front| - 1];
      if front[|front| - 1].at / seconds <= last.at / seconds {
        forall i, j | 0 <= i < j < |calls| ensures calls[i].at / seconds <= calls[j].at / seconds {
          if i < |front| - 1 { assert front[i].at / seconds <= front[|front| - 1].at / seconds; }
          if j < |front| { assert front[i].at / seconds <= front[j].at / seconds; }
        }
      }
    }
  }

  /** For reported impressions alone: the totals stay true throughout if and only if their windows never go back. */
  lemma {:induction false} ReportsKeepTotalsIff(seconds: nat, calls: seq<Timed>)
    requires seconds > 0 && Reports(seconds, calls)
    ensures AlwaysTrue(seconds, calls) <==> WindowsNeverGoBack(seconds, calls)
  {
    TotalsStayTrueIff(seconds, calls);
    ReportsKeptIff(seconds, calls);
  }

  lemma {:induction false} ReportsKeptIff(seconds: nat, calls: seq<Timed>)
    requires seconds > 0 && Reports(seconds, calls)
    ensures AlwaysKept(seconds, calls) <==> WindowsNeverGoBack(seconds, calls)
  {
    if calls != [] {
      var front := calls[..|calls| - 1];
      ReportsKeptIff(seconds, front);
      if WindowsNeverGoBack(seconds, front) {
        ReportCondition(seconds, calls);
      } else {
        var i, j :| 0 <= i < j < |front| && front[i].at / seconds > front[j].at / seconds;
        assert calls[i].at / seconds > calls[j].at / seconds;
      }
    }
  }

  // ---- The cap ----

  /** How many bookings were made in window `w`. */
  function BookedIn(booked: seq<int>, w: int): nat {
    if booked == [] then 0
    else BookedIn(booked[..|booked| - 1], w) + if booked[|booked| - 1] == w then 1 else 0
  }

  /** The window each recorded impression was counted in. */
  function Booked(seconds: nat, calls: seq<Timed>): seq<int>
    requires seconds > 0
  {
    if calls == [] then []
    else
      var w, last := Run(seconds, calls[..|calls| - 1]), calls[|calls| - 1];
      Booked(seconds, calls[..|calls| - 1])
      + if Records(w, seconds, last.call, last.at, last.clock) then [Run(seconds, calls).entry.value.bucket.window] else []
  }

  /** The buckets are the bookings of the recent windows, and none was made in a window to come. */
  ghost predicate RefinesBookings(w: World, booked: seq<int>, seconds: nat)
    requires seconds > 0
  {
    && |booked| == |w.log|
    && (forall i :: 0 <= i < |booked| ==> w.log[i] / seconds <= booked[i] <= w.last / seconds)
    && match w.entry
       case None => booked == []
       case Some(Entry(b, expiresAt)) =>
         && b.window <= w.last / seconds && expiresAt == w.last + 2 * seconds
         && (forall k :: k >= w.last / seconds - 1 ==> BookedIn(booked, k) == Holding(b, k))
  }

  /** What the buckets say of window `k`. */
  function Holding(b: Bucket, k: int): nat {
    if k == b.window then b.count else if k == b.window - 1 then b.prev else 0
  }

  lemma {:induction false} NotBooked(booked: seq<int>, w: int)
    requires forall i :: 0 <= i < |booked| ==> booked[i] < w
    ensures BookedIn(booked, w) == 0
  {
    if booked != [] { NotBooked(booked[..|booked| - 1], w); }
  }

  lemma {:induction false} BookedMore(booked: seq<int>, v: int, w: int)
    ensures BookedIn(booked + [v], w) == BookedIn(booked, w) + if v == w then 1 else 0
  {
    assert (booked + [v])[..|booked + [v]| - 1] == booked;
  }

  /** Of the windows still recent at the store's time, the rolled buckets say what the stored ones said. */
  lemma {:induction false} RolledHolds(w: World, booked: seq<int>, seconds: nat, at: int, clock: int, k: int)
    requires seconds > 0 && RefinesBookings(w, booked, seconds) && w.last <= clock && at <= clock / seconds
    requires k >= clock / seconds - 1
    ensures Holding(Rolled(Present(w.entry, clock), at), k) == BookedIn(booked, k)
  {
    LaterIsLaterWindow(w.last, clock, seconds);
    if w.entry.Some? && clock >= w.entry.value.expiresAt {
      ExpiredIsTwoWindowsOn(w.last, clock, seconds);
      NotBooked(booked, k);
    }
  }

  lemma {:induction false} StepRefinesBookings(w: World, booked: seq<int>, seconds: nat, c: Call, at: int, clock: int)
    requires seconds > 0 && RefinesBookings(w, booked, seconds) && w.last <= clock && at / seconds <= clock / seconds
    ensures var w' := StepAt(w, seconds, c, at, clock);
            RefinesBookings(w', booked + if Records(w, seconds, c, at, clock) then [w'.entry.value.bucket.window] else [], seconds)
  {
    var w', r := StepAt(w, seconds, c, at, clock), Rolled(Present(w.entry, clock), at / seconds);
    var b := w'.entry.value.bucket;
    LaterIsLaterWindow(w.last, clock, seconds);
    assert at / seconds <= r.window <= clock / seconds;
    forall k | k >= clock / seconds - 1
      ensures BookedIn(booked + if Records(w, seconds, c, at, clock) then [b.window] else [], k) == Holding(b, k)
    {
      RolledHolds(w, booked, seconds, at / seconds, clock, k);
      BookedMore(booked, b.window, k);
      assert booked + [] == booked;
    }
  }

  /** No call's window is more than `ahead` past the store's; the store's clock never goes back; reads and checks are the server's own. */
  ghost predicate AtMostAhead(seconds: nat, calls: seq<Timed>, ahead: int)
    requires seconds > 0
  {
    && (forall i :: 0 <= i < |calls| ==> calls[i].at / seconds <= calls[i].clock / seconds + ahead)
    && (forall i :: 0 <= i < |calls| && !calls[i].call.Record? ==> calls[i].at == calls[i].clock)
    && (forall i, j :: 0 <= i < j < |calls| ==> calls[i].clock <= calls[j].clock)
    && (forall i :: 0 <= i < |calls| ==> 0 <= calls[i].clock)
  }

  lemma {:induction false} RunRefinesBookings(seconds: nat, calls: seq<Timed>)
    requires seconds > 0 && AtMostAhead(seconds, calls, 0)
    ensures RefinesBookings(Run(seconds, calls), Booked(seconds, calls), seconds)
    ensures Run(seconds, calls).last == if calls == [] then 0 else calls[|calls| - 1].clock
  {
    if calls != [] {
      var front, last := calls[..|calls| - 1], calls[|calls| - 1];
      RunRefinesBookings(seconds, front);
      assert front != [] ==> front[|front| - 1] == calls[|front| - 1];
      StepRefinesBookings(Run(seconds, front), Booked(seconds, front), seconds, last.call, last.at, last.clock);
    }
  }

  /** Late impressions are booked late, never earlier than they were: the two buckets still cover the trailing window. */
  lemma {:induction false} TrailingIsBooked(log: seq<int>, booked: seq<int>, seconds: nat, now: int)
    requires seconds > 0 && |log| == |booked|
    requires forall i :: 0 <= i < |log| ==> log[i] / seconds <= booked[i] <= now / seconds
    ensures Trailing(log, seconds, now) <= BookedIn(booked, now / seconds) + BookedIn(booked, now / seconds - 1)
  {
    if log != [] {
      TrailingIsBooked(log[..|log| - 1], booked[..|booked| - 1], seconds, now);
      var t := log[|log| - 1];
      if t >= now - seconds {
        LaterIsLaterWindow(now - seconds, t, seconds);
        OneWindowBack(now, seconds);
      }
    }
  }

  ghost predicate ChecksOut(seconds: nat, calls: seq<Timed>, cap: int, now: int)
    requires seconds > 0
  {
    ReplyOf(Run(seconds, calls), seconds, Check(cap), now).allowed
  }

  /** The bound of `EveryRunStaysNearTheCap`, with the previous bucket as stored. */
  ghost predicate StaysNear(seconds: nat, calls: seq<Timed>, cap: int, now: int)
    requires seconds > 0
  {
    var w := Run(seconds, calls + [Timed(Check(cap), now, now)]);
    w.entry.Some? && Trailing(w.log, seconds, now) * seconds <= cap * seconds + (now % seconds) * w.entry.value.bucket.prev
  }

  /** Late reports, however late, leave the bound standing at every allowed check. */
  lemma {:induction false} LateReportsStayNearTheCap(seconds: nat, calls: seq<Timed>, cap: int, now: int)
    requires seconds > 0 && cap >= 0 && AtMostAhead(seconds, calls + [Timed(Check(cap), now, now)], 0)
    requires ChecksOut(seconds, calls, cap, now)
    ensures StaysNear(seconds, calls, cap, now)
  {
    var all := calls + [Timed(Check(cap), now, now)];
    CheckedBuckets(seconds, calls, cap, now);
    CheckedTrailing(seconds, calls, cap, now);
    NearByArithmetic(Trailing(Run(seconds, all).log, seconds, now), Seen(Run(seconds, calls), seconds, now), now % seconds, seconds, cap);
  }

  /** An allowed check counts itself, and the estimate had room for it. */
  lemma {:induction false} CheckedBuckets(seconds: nat, calls: seq<Timed>, cap: int, now: int)
    requires seconds > 0 && cap >= 0 && ChecksOut(seconds, calls, cap, now)
    ensures var w', r := Run(seconds, calls + [Timed(Check(cap), now, now)]), Seen(Run(seconds, calls), seconds, now);
            && w'.entry.Some? && w'.entry.value.bucket == r.(count := r.count + 1)
            && Estimate(r, now % seconds, seconds) + seconds <= cap * seconds
  {
    RunSnoc(seconds, calls, Timed(Check(cap), now, now));
  }

  lemma {:induction false} CheckedTrailing(seconds: nat, calls: seq<Timed>, cap: int, now: int)
    requires seconds > 0 && cap >= 0 && AtMostAhead(seconds, calls + [Timed(Check(cap), now, now)], 0)
    requires ChecksOut(seconds, calls, cap, now)
    ensures var w', r := Run(seconds, calls + [Timed(Check(cap), now, now)]), Seen(Run(seconds, calls), seconds, now);
            Trailing(w'.log, seconds, now) <= r.count + 1 + r.prev
  {
    var all := calls + [Timed(Check(cap), now, now)];
    CheckedBuckets(seconds, calls, cap, now);
    RunRefinesBookings(seconds, all);
    ServerWindow(seconds, calls, now, cap);
    BookingsCoverTrailing(Run(seconds, all), Booked(seconds, all), seconds, now);
  }

  /** Buckets that are the bookings, in the server's window, cover the trailing window. */
  lemma {:induction false} BookingsCoverTrailing(w: World, booked: seq<int>, seconds: nat, now: int)
    requires seconds > 0 && RefinesBookings(w, booked, seconds) && w.last == now
    requires w.entry.Some? && w.entry.value.bucket.window == now / seconds
    ensures Trailing(w.log, seconds, now) <= w.entry.value.bucket.count + w.entry.value.bucket.prev
  {
    var b := w.entry.value.bucket;
    TrailingIsBooked(w.log, booked, seconds, now);
    assert BookedIn(booked, b.window) == Holding(b, b.window);
    assert BookedIn(booked, b.window - 1) == Holding(b, b.window - 1);
  }

  lemma {:induction false} NearByArithmetic(trailing: nat, r: Bucket, elapsed: nat, seconds: nat, cap: int)
    requires trailing <= r.count + 1 + r.prev && Estimate(r, elapsed, seconds) + seconds <= cap * seconds
    ensures trailing * seconds <= cap * seconds + elapsed * r.prev
  {
    AfterOne(r, elapsed, seconds);
    CapArithmetic(trailing, r.(count := r.count + 1), elapsed, seconds, cap);
  }

  lemma {:induction false} ServerWindow(seconds: nat, calls: seq<Timed>, now: int, cap: int)
    requires seconds > 0 && AtMostAhead(seconds, calls + [Timed(Check(cap), now, now)], 0)
    ensures Rolled(Present(Run(seconds, calls).entry, now), now / seconds).window == now / seconds
  {
    var all := calls + [Timed(Check(cap), now, now)];
    assert AtMostAhead(seconds, calls, 0) by {
      forall i | 0 <= i < |calls| ensures calls[i] == all[i] {}
    }
    RunRefinesBookings(seconds, calls);
    assert 0 <= all[|calls|].clock;
    if calls != [] { assert all[|calls| - 1].clock <= all[|calls|].clock; }
    LaterIsLaterWindow(Run(seconds, calls).last, now, seconds);
  }

  /** The bound holds at every allowed check of every run whose reports are at most `ahead` windows early. */
  ghost predicate NearWhenAhead(ahead: int) {
    forall seconds: nat, calls: seq<Timed>, cap: int, now: int ::
      seconds > 0 && cap >= 0 && AtMostAhead(seconds, calls + [Timed(Check(cap), now, now)], ahead) && ChecksOut(seconds, calls, cap, now) ==>
        StaysNear(seconds, calls, cap, now)
  }

  lemma {:induction false} RunSnoc(seconds: nat, calls: seq<Timed>, t: Timed)
    requires seconds > 0
    ensures Run(seconds, calls + [t]) == StepAt(Run(seconds, calls), seconds, t.call, t.at, t.clock)
  {
    assert (calls + [t])[..|calls + [t]| - 1] == calls;
  }

  lemma {:induction false} RunTo(seconds: nat, calls: seq<Timed>, t: Timed, w: World, w': World)
    requires seconds > 0 && Run(seconds, calls) == w && StepAt(w, seconds, t.call, t.at, t.clock) == w'
    ensures Run(seconds, calls + [t]) == w'
  {
    RunSnoc(seconds, calls, t);
  }

  /** `n` impressions at 9, in windows of 10. */
  function Nines(n: nat): seq<Timed> {
    if n == 0 then [] else Nines(n - 1) + [Timed(Record, 9, 9)]
  }

  function NineTimes(n: nat): seq<int> {
    if n == 0 then [] else NineTimes(n - 1) + [9]
  }

  /** `n` impressions in window 0, the last at 9. */
  function AtNine(n: nat): World {
    World(Some(Entry(Bucket(0, n, 0), 29)), 9, NineTimes(n))
  }

  lemma {:induction false} FirstNine()
    ensures StepAt(START, 10, Record, 9, 9) == AtNine(1)
  {
    assert NineTimes(1) == [] + [9];
  }

  lemma {:induction false} NextNine(n: nat)
    requires n > 0
    ensures StepAt(AtNine(n), 10, Record, 9, 9) == AtNine(n + 1)
  {
    assert NineTimes(n + 1) == NineTimes(n) + [9];
  }

  lemma {:induction false} NinesRun(n: nat, seconds: nat)
    requires n > 0 && seconds == 10
    ensures Run(seconds, Nines(n)) == AtNine(n)
  {
    if n == 1 {
      FirstNine();
      RunTo(seconds, Nines(0), Timed(Record, 9, 9), START, AtNine(n));
    } else {
      NinesRun(n - 1, seconds);
      NextNine(n - 1);
      RunTo(seconds, Nines(n - 1), Timed(Record, 9, 9), AtNine(n - 1), AtNine(n));
    }
  }

  lemma {:induction false} NinesTrail(n: nat)
    ensures Trailing(NineTimes(n), 10, 10) == n
  {
    if n > 0 {
      NinesTrail(n - 1);
      assert NineTimes(n)[..|NineTimes(n)| - 1] == NineTimes(n - 1);
    }
  }

  lemma {:induction false} NinesAre(n: nat)
    ensures |Nines(n)| == n && forall i :: 0 <= i < n ==> Nines(n)[i] == Timed(Record, 9, 9)
  {
    if n > 0 { NinesAre(n - 1); }
  }

  /** The device dates one more at 20, and it is reported at 10. */
  function EarlyRun(n: nat): seq<Timed> {
    Nines(n) + [Timed(Record, 20, 10)]
  }

  /** Window 2 holds the early one alone. */
  function AtTwenty(n: nat): World {
    World(Some(Entry(Bucket(2, 1, 0), 30)), 10, NineTimes(n) + [20])
  }

  lemma {:induction false} EarlyNext(n: nat)
    ensures StepAt(AtNine(n), 10, Record, 20, 10) == AtTwenty(n)
  {
  }

  lemma {:induction false} EarlyRunEnds(n: nat, seconds: nat)
    requires n > 0 && seconds == 10
    ensures Run(seconds, EarlyRun(n)) == AtTwenty(n)
  {
    NinesRun(n, seconds);
    EarlyNext(n);
    RunTo(seconds, Nines(n), Timed(Record, 20, 10), AtNine(n), AtTwenty(n));
  }

  lemma {:induction false} EarlyRunTrails(n: nat)
    ensures Trailing(NineTimes(n) + [20] + [10], 10, 10) == n + 2
  {
    NinesTrail(n);
    var log := NineTimes(n) + [20];
    assert log[..|log| - 1] == NineTimes(n);
    assert (log + [10])[..|log + [10]| - 1] == log;
  }

  lemma {:induction false} OneAhead(n: nat)
    ensures AtMostAhead(10, EarlyRun(n) + [Timed(Check(n), 10, 10)], 1)
  {
    NinesAre(n);
    var all := EarlyRun(n) + [Timed(Check(n), 10, 10)];
    forall i | 0 <= i < |all| ensures all[i] == if i < n then Timed(Record, 9, 9) else if i == n then Timed(Record, 20, 10) else Timed(Check(n), 10, 10) {
    }
  }

  /**
   A cap of two or more spent at 9, and an impression the device dates one window ahead: at 10 a check is
   allowed, with as many in the trailing window as the cap and two more.
   */
  lemma {:induction false} AnEarlyReportBreaksTheCap(cap: nat)
    requires cap >= 2
    ensures AtMostAhead(10, EarlyRun(cap) + [Timed(Check(cap), 10, 10)], 1)
    ensures ChecksOut(10, EarlyRun(cap), cap, 10) && !StaysNear(10, EarlyRun(cap), cap, 10)
  {
    var seconds: nat := 10;
    OneAhead(cap);
    EarlyRunEnds(cap, seconds);
    CheckAllowed(cap);
    RunTo(seconds, EarlyRun(cap), Timed(Check(cap), 10, 10), AtTwenty(cap), CheckedAt(cap));
    EarlyRunTrails(cap);
  }

  function CheckedAt(n: nat): World {
    World(Some(Entry(Bucket(2, 2, 0), 30)), 10, NineTimes(n) + [20] + [10])
  }

  lemma {:induction false} CheckAllowed(cap: nat)
    requires cap >= 2
    ensures ReplyOf(AtTwenty(cap), 10, Check(cap), 10).allowed && StepAt(AtTwenty(cap), 10, Check(cap), 10, 10) == CheckedAt(cap)
  {
  }

  /** The exact condition: the bound holds, whatever the run, if and only if no report is dated in a window to come. */
  lemma {:induction false} StaysNearTheCapIff(ahead: int)
    ensures NearWhenAhead(ahead) <==> ahead <= 0
  {
    if ahead <= 0 {
      forall seconds: nat, calls: seq<Timed>, cap: int, now: int
        | seconds > 0 && cap >= 0 && AtMostAhead(seconds, calls + [Timed(Check(cap), now, now)], ahead) && ChecksOut(seconds, calls, cap, now)
        ensures StaysNear(seconds, calls, cap, now)
      {
        LateReportsStayNearTheCap(seconds, calls, cap, now);
      }
    } else {
      var cap: nat := 2;
      AnEarlyReportBreaksTheCap(cap);
      assert AtMostAhead(10, EarlyRun(cap) + [Timed(Check(cap), 10, 10)], ahead);
    }
  }

  // ---- What each failure does ----

  /** An impression of an earlier window is counted in the stored one, which then claims one too many. */
  lemma {:induction false} ALateImpressionCountsNow(b: Bucket, log: seq<int>, t: int, seconds: nat)
    requires seconds > 0 && Totals(b, log, seconds) && t / seconds < b.window
    ensures var b' := Script(Some(b), t / seconds, t % seconds, seconds, 1, NO_CAP_CHECK).bucket;
            b'.window == b.window && b'.count == InWindow(log + [t], seconds, b.window) + 1
  {
    OneMore(log, t, seconds, b.window);
  }

  /** One from two or more windows ahead forgets both buckets, for every call up to its own time. */
  lemma {:induction false} AnEarlyImpressionForgets(b: Bucket, log: seq<int>, t: int, later: int, seconds: nat)
    requires seconds > 0 && Totals(b, log, seconds) && t / seconds >= b.window + 2 && later <= t
    ensures var b' := Script(Some(b), t / seconds, t % seconds, seconds, 1, NO_CAP_CHECK).bucket;
            Rolled(Some(b'), later / seconds).count + Rolled(Some(b'), later / seconds).prev == 1
    ensures InWindow(log + [t], seconds, b.window) + InWindow(log + [t], seconds, b.window - 1) == b.count + b.prev
  {
    LaterIsLaterWindow(later, t, seconds);
    OneMore(log, t, seconds, b.window);
    OneMore(log, t, seconds, b.window - 1);
  }
}
