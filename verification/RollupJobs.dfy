/** The event-table consumer and its drain job as the program runs them (internal/event/consumer). */
module RollupJobs {
  import opened Wrappers
  import opened Rollups
  import opened RollupRuns
  import Hll

  const BATCH_LIMIT: nat := 1000

  class Consumer {
    const digest: Digest
    var applied: set<string>
    var counts: map<Key, nat>
    var sketches: map<ReachKey, seq<Hll.Byte>>
    var rows: seq<Event>
    var offsets: map<string, int>

    ghost predicate Valid()
      reads this
    {
      && (forall k :: k in sketches ==> Hll.Sized(sketches[k]))
      && (forall c :: digest(c) < Hll.Pow2(Hll.HASH_BITS))
    }

    ghost function View(): Tables
      reads this
    {
      Tables(applied, counts, sketches)
    }

    /** Record an event id, and say whether it was there already. */
    method MarkApplied(id: string) returns (already: bool)
      modifies this`applied
      ensures already == (id in old(applied)) && applied == old(applied) + {id}
    {
      already := id in applied;
      if !already { applied := applied + {id}; }
    }

    method Increment(k: Key)
      modifies this`counts
      ensures counts == Incremented(old(counts), k)
    {
      counts := counts[k := (if k in counts then counts[k] else 0) + 1];
    }

    /** Read the stored sketch, if any, add the one identity, write it back. */
    method ApplyReachSketch(e: Event)
      requires Valid() && ReachOf(e).Some?
      modifies this`sketches
      ensures Valid() && sketches == Reached(old(View()), digest, e)
    {
      var k := ReachOf(e).value;
      var sketch: Hll.Sketch;
      if k in sketches {
        var stored := Hll.Sketch.Unmarshal(sketches[k]);
        sketch := stored.value;
      } else {
        sketch := new Hll.Sketch();
      }
      assert sketch.registers[..] == SketchFor(View(), k);
      sketch.AddIdentity(e.channel, digest);
      var bytes := sketch.Marshal();
      sketches := sketches[k := bytes];
    }

    method ApplyBatch(events: seq<Event>)
      requires Valid()
      modifies this`applied, this`counts, this`sketches
      ensures Valid() && View() == AppliedAll(old(View()), digest, events)
    {
      for i := 0 to |events|
        invariant Valid() && View() == AppliedAll(old(View()), digest, events[..i])
      {
        assert events[..i + 1][..i] == events[..i];
        ApplyOne(events[i]);
      }
      assert events[..|events|] == events;
    }

    method ApplyOne(e: Event)
      requires Valid()
      modifies this`applied, this`counts, this`sketches
      ensures Valid() && View() == AppliedOne(old(View()), digest, e)
    {
      var already := MarkApplied(e.id);
      if already { return; }
      Increment(TargetingKey(e));
      if e.messageId == "" { return; }
      if CampaignKind(e.kind) {
        Increment(Campaign(e.messageId, e.variantId, Truncated(BucketTime(e), HOUR), e.kind));
        if e.kind.Impression? { ApplyReachSketch(e); }
      } else if e.kind.Suppression? {
        Increment(Suppressed(e.messageId, e.reason, Truncated(BucketTime(e), DAY)));
      }
    }

    method FetchSince(last: int, limit: nat) returns (events: seq<Event>)
      ensures events == Batch(rows, last, limit)
    {
      var pending := Pending(rows, last);
      events := if limit < |pending| then pending[..limit] else pending;
    }

    method RunOnce(name: string, limit: nat) returns (processed: nat)
      requires Valid()
      modifies this`applied, this`counts, this`sketches, this`offsets
      ensures Valid()
      ensures var es := Batch(rows, OffsetOf(old(offsets), name), limit);
              && processed == |es| && View() == AppliedAll(old(View()), digest, es)
              && offsets == old(offsets)[name := if es == [] then OffsetOf(old(offsets), name) else es[|es| - 1].seqNo]
    {
      if name !in offsets { offsets := offsets[name := 0]; }
      var last := offsets[name];
      var events := FetchSince(last, limit);
      if |events| == 0 { return 0; }
      ApplyBatch(events);
      offsets := offsets[name := events[|events| - 1].seqNo];
      processed := |events|;
    }

    /** Run until a short batch. It ends, and then nothing was left: everything pending has been applied, in order. */
    method Work(name: string)
      requires Valid() && Increasing(rows)
      modifies this`applied, this`counts, this`sketches, this`offsets
      ensures Valid() && name in offsets && Pending(rows, offsets[name]) == []
      ensures View() == AppliedAll(old(View()), digest, Pending(rows, OffsetOf(old(offsets), name)))
    {
      ghost var start, all := View(), Pending(rows, OffsetOf(offsets, name));
      ghost var done: seq<Event> := [];
      while true
        invariant Valid() && Drained(start, digest, rows, OffsetOf(offsets, name), all, done, View())
        decreases |Pending(rows, OffsetOf(offsets, name))|
      {
        DrainStep(start, digest, rows, OffsetOf(offsets, name), BATCH_LIMIT, all, done, View());
        done := done + Batch(rows, OffsetOf(offsets, name), BATCH_LIMIT);
        var processed := RunOnce(name, BATCH_LIMIT);
        if processed < BATCH_LIMIT {
          assert done == all;
          return;
        }
      }
    }
  }

  /** Part way through a drain: `done` is applied and the rest of `all` is pending. */
  ghost predicate Drained(start: Tables, digest: Digest, rows: seq<Event>, last: int, all: seq<Event>, done: seq<Event>, now: Tables) {
    SizedSketches(start) && all == done + Pending(rows, last) && now == AppliedAll(start, digest, done)
  }

  lemma {:induction false} DrainStep(start: Tables, digest: Digest, rows: seq<Event>, last: int, limit: nat, all: seq<Event>, done: seq<Event>, now: Tables)
    requires Increasing(rows) && Drained(start, digest, rows, last, all, done, now)
    ensures var es := Batch(rows, last, limit);
            var next := if es == [] then last else es[|es| - 1].seqNo;
            && Drained(start, digest, rows, next, all, done + es, AppliedAll(now, digest, es))
            && (es != [] ==> |Pending(rows, next)| < |Pending(rows, last)|)
            && (|es| < limit ==> Pending(rows, next) == [])
  {
    var es := Batch(rows, last, limit);
    var next := if es == [] then last else es[|es| - 1].seqNo;
    BatchLeaves(rows, last, limit);
    Reassociate(done, es, Pending(rows, next));
    AppliedAppend(start, digest, done, es);
  }

  lemma {:induction false} Reassociate(a: seq<Event>, b: seq<Event>, c: seq<Event>)
    ensures a + (b + c) == (a + b) + c
  {
  }

  /** After a batch, what is pending is what was, less the batch; a short batch leaves nothing. */
  lemma {:induction false} BatchLeaves(rows: seq<Event>, last: int, limit: nat)
    requires Increasing(rows)
    ensures var es := Batch(rows, last, limit);
            var next := if es == [] then last else es[|es| - 1].seqNo;
            && Pending(rows, last) == es + Pending(rows, next)
            && (|es| < limit ==> Pending(rows, next) == [])
  {
    var es := Batch(rows, last, limit);
    if es != [] {
      var k := PendingSuffix(rows, last);
      var next := es[|es| - 1].seqNo;
      var k' := PendingSuffix(rows, next);
      assert es == rows[k..k + |es|];
      assert rows[k + |es| - 1].seqNo == next;
      assert k' == k + |es| by {
        assert k + |es| < |rows| ==> rows[k + |es|].seqNo > next;
        assert k' < |rows| ==> rows[k'].seqNo > next;
        assert k' > 0 ==> rows[k' - 1].seqNo <= next;
      }
      assert rows[k..] == rows[k..k + |es|] + rows[k + |es|..];
    }
  }
}
