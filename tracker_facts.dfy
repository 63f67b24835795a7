/**
 * What the status step and the handlers of bot.py promise when they are
 * run one after another: idempotent ticks, a decision consumed exactly once,
 * an epoch counter that never goes back, inverse pairs among the handlers,
 * and a worked example.
 */
module TrackerFacts {
  import opened Wrappers
  import opened Tiers
  import opened Tracker

  /** The three early returns of `send_status` (lines 164-168) leave the table as it was. */
  lemma StatusNoOp(m: Users, uid: string, now: int, force: bool)
    requires uid !in m || !m[uid].active || (!m[uid].notify && !force)
    ensures Evaluate(m, uid, now, force).0 == m
    ensures !Evaluate(m, uid, now, force).1.Sent?
  {
  }

  /**
   * After a non-forced step, a further non-forced step in the same epoch
   * (in particular at the same `now`) changes nothing and sends nothing
   * (line 176).
   */
  lemma SameEpochTickIsNoOp(m: Users, uid: string, now: int, later: int)
    requires uid in m ==> GlobalEpoch(m[uid].cycleStart, now) == GlobalEpoch(m[uid].cycleStart, later)
    ensures var m1 := Evaluate(m, uid, now, false).0;
            Evaluate(m1, uid, later, false).0 == m1 && !Evaluate(m1, uid, later, false).1.Sent?
  {
    var (m1, o1) := Evaluate(m, uid, now, false);
    if o1.Sent? {
      assert m1[uid].lastEpochSeen == GlobalEpoch(m[uid].cycleStart, now);
      assert m1[uid].cycleStart == m[uid].cycleStart;
    }
  }

  /** A second non-forced call at the same `now` is a no-op. */
  lemma SecondTickIsNoOp(m: Users, uid: string, now: int)
    ensures var m1 := Evaluate(m, uid, now, false).0;
            Evaluate(m1, uid, now, false).0 == m1 && !Evaluate(m1, uid, now, false).1.Sent?
  {
    SameEpochTickIsNoOp(m, uid, now, now);
  }

  /**
   * A pending "tapped" is counted once: the step that sends folds it in, and
   * any step after it (forced or not, at any time) adds nothing more unless a
   * new decision is recorded in between.
   */
  lemma DecisionConsumedOnce(m: Users, uid: string, now1: int, force1: bool, now2: int, force2: bool)
    requires Evaluate(m, uid, now1, force1).1.Sent?
    ensures var m1 := Evaluate(m, uid, now1, force1).0;
            var m2 := Evaluate(m1, uid, now2, force2).0;
            uid in m && uid in m1 && uid in m2
            && m1[uid].tappedEpochs == m[uid].tappedEpochs + (if m[uid].currentDecision == Tapped then 1 else 0)
            && m2[uid].tappedEpochs == m1[uid].tappedEpochs
            && m2[uid].currentDecision == NoDecision
  {
    var m1 := Evaluate(m, uid, now1, force1).0;
    assert m1[uid].currentDecision == NoDecision;
  }

  /**
   * A forced call on an active record always finalizes, even within an epoch
   * that was already seen (line 176 only guards non-forced calls).
   */
  lemma ForcedStatusFinalizes(m: Users, uid: string, now: int)
    requires uid in m && m[uid].active
    ensures var (m1, o) := Evaluate(m, uid, now, true);
            o.Sent? && m1[uid].currentDecision == NoDecision
            && m1[uid].lastEpochSeen == GlobalEpoch(m[uid].cycleStart, now)
            && m1[uid].tappedEpochs == m[uid].tappedEpochs + (if m[uid].currentDecision == Tapped then 1 else 0)
  {
  }

  /**
   * With notifications off, a tick returns before finalization (line 167), so
   * a pending "tapped" stays pending; the next forced status call folds it in.
   */
  lemma MutedTickKeepsDecision(m: Users, uid: string, tick: int, now: int)
    requires uid in m && m[uid].active && !m[uid].notify && m[uid].currentDecision == Tapped
    ensures Evaluate(m, uid, tick, false).0 == m
    ensures var o := Evaluate(Evaluate(m, uid, tick, false).0, uid, now, true).1;
            o.Sent? && o.report.tappedEpochs == m[uid].tappedEpochs + 1
  {
  }

  /**
   * With a clock that does not go back, the recorded epoch never decreases,
   * never overtakes the current epoch, and every non-forced step that sends
   * moves it strictly forward.
   */
  lemma LastSeenMonotone(r: Record, now: int, later: int, force: bool)
    requires r.lastEpochSeen <= GlobalEpoch(r.cycleStart, now)
    requires now <= later
    ensures var (r', o) := Advance(r, later, force);
            r.lastEpochSeen <= r'.lastEpochSeen <= GlobalEpoch(r'.cycleStart, later)
            && (o.Sent? && !force ==> r.lastEpochSeen < r'.lastEpochSeen)
  {
    GlobalEpochMonotone(r.cycleStart, now, later);
  }

  /**
   * A tick that comes late records the epoch it finds, skipping the epochs in
   * between: from epoch 1 seen, a tick at t = 900 records epoch 4. The
   * pending decision is folded in once, whatever the number of epochs skipped.
   */
  lemma LateTickSkipsEpochs()
    ensures var r := Record(0, 0, 1, true, true, Tapped, 42);
            var r' := Advance(r, 900, false).0;
            r'.lastEpochSeen == 4 && r'.tappedEpochs == 1
  {
    assert GlobalEpoch(0, 900) == 4;
  }

  /**
   * There is no cycle renewal: once epoch 288 has been seen, every later
   * non-forced tick is a no-op, however much time has passed.
   */
  lemma ExhaustedCycleGoesQuiet(r: Record, now: int)
    requires r.lastEpochSeen == TotalEpochs
    requires now >= r.cycleStart + (TotalEpochs - 1) * EpochSeconds
    ensures Advance(r, now, false).0 == r
    ensures !Advance(r, now, false).1.Sent?
  {
    assert GlobalEpoch(r.cycleStart, now) == TotalEpochs;
  }

  /** A step at a later time keeps `SeenNotAhead`. */
  lemma EvaluateKeepsSeenNotAhead(m: Users, uid: string, now: int, later: int, force: bool)
    requires SeenNotAhead(m, now) && now <= later
    ensures SeenNotAhead(Evaluate(m, uid, later, force).0, later)
  {
    forall u | u in m { GlobalEpochMonotone(m[u].cycleStart, now, later); }
  }

  /** `/on` at a later time keeps `SeenNotAhead`; a new record has seen epoch 0. */
  lemma ActivateKeepsSeenNotAhead(m: Users, uid: string, now: int, later: int, chatId: int)
    requires SeenNotAhead(m, now) && now <= later
    ensures SeenNotAhead(Activate(m, uid, later, chatId), later)
    ensures uid !in m ==> Activate(m, uid, later, chatId)[uid].lastEpochSeen == 0
  {
    forall u | u in m { GlobalEpochMonotone(m[u].cycleStart, now, later); }
  }

  /** `/off` keeps `SeenNotAhead` as the clock moves on. */
  lemma PauseKeepsSeenNotAhead(m: Users, uid: string, now: int, later: int)
    requires SeenNotAhead(m, now) && now <= later
    ensures SeenNotAhead(Pause(m, uid), later)
  {
    forall u | u in m { GlobalEpochMonotone(m[u].cycleStart, now, later); }
  }

  /** `/reset` keeps `SeenNotAhead` as the clock moves on. */
  lemma ForgetKeepsSeenNotAhead(m: Users, uid: string, now: int, later: int)
    requires SeenNotAhead(m, now) && now <= later
    ensures SeenNotAhead(Forget(m, uid), later)
  {
    forall u | u in m { GlobalEpochMonotone(m[u].cycleStart, now, later); }
  }

  /** `/tap` keeps `SeenNotAhead` as the clock moves on. */
  lemma AdjustTapKeepsSeenNotAhead(m: Users, uid: string, args: seq<string>, now: int, later: int)
    requires SeenNotAhead(m, now) && now <= later
    ensures SeenNotAhead(AdjustTap(m, uid, args).0, later)
  {
    forall u | u in m { GlobalEpochMonotone(m[u].cycleStart, now, later); }
  }

  /** A button press keeps `SeenNotAhead` as the clock moves on. */
  lemma RecordDecisionKeepsSeenNotAhead(m: Users, uid: string, callbackData: string, now: int, later: int)
    requires SeenNotAhead(m, now) && now <= later
    ensures SeenNotAhead(RecordDecision(m, uid, callbackData), later)
  {
    forall u | u in m { GlobalEpochMonotone(m[u].cycleStart, now, later); }
  }

  /** `epoch_job` at a later time keeps `SeenNotAhead`. */
  lemma TickAllKeepsSeenNotAhead(m: Users, now: int, later: int)
    requires SeenNotAhead(m, now) && now <= later
    ensures SeenNotAhead(TickAll(m, later), later)
  {
    forall u | u in m { GlobalEpochMonotone(m[u].cycleStart, now, later); }
  }

  /**
   * With `SeenNotAhead` (kept by every handler, above) and a clock that does
   * not go back, no status step or tick lowers a user's recorded epoch.
   */
  lemma RecordedEpochNeverDecreases(m: Users, uid: string, now: int, later: int, force: bool)
    requires SeenNotAhead(m, now) && now <= later && uid in m
    ensures Evaluate(m, uid, later, force).0[uid].lastEpochSeen >= m[uid].lastEpochSeen
    ensures TickAll(m, later)[uid].lastEpochSeen >= m[uid].lastEpochSeen
  {
    LastSeenMonotone(m[uid], now, later, force);
    LastSeenMonotone(m[uid], now, later, false);
  }

  /** The first tick after `/on` creates a record (at or after its start) always sends. */
  lemma FirstTickAfterOnSends(m: Users, uid: string, start: int, chatId: int, now: int)
    requires uid !in m && start <= now
    ensures var o := Evaluate(Activate(m, uid, start, chatId), uid, now, false).1;
            o.Sent? && 1 <= o.report.epoch <= TotalEpochs && o.report.tappedEpochs == 0
  {
  }

  /**
   * Running the non-forced step over distinct users one after another gives
   * each listed user its own step and leaves the others alone; the order of
   * the list does not matter.
   */
  lemma {:induction false} EvaluateEachSteps(m: Users, ks: seq<string>, now: int)
    requires forall i, j :: 0 <= i < j < |ks| ==> ks[i] != ks[j]
    ensures EvaluateEach(m, ks, now)
            == map u | u in m :: if u in ks then Advance(m[u], now, false).0 else m[u]
  {
    if ks != [] {
      var k := ks[0];
      var m1 := Evaluate(m, k, now, false).0;
      assert forall i, j :: 0 <= i < j < |ks[1..]| ==> ks[1..][i] != ks[1..][j] by {
        forall i, j | 0 <= i < j < |ks[1..]| ensures ks[1..][i] != ks[1..][j] {
          assert ks[1..][i] == ks[i + 1] && ks[1..][j] == ks[j + 1];
        }
      }
      EvaluateEachSteps(m1, ks[1..], now);
      assert k !in ks[1..] by {
        forall i | 0 <= i < |ks[1..]| ensures ks[1..][i] != k {
          assert ks[1..][i] == ks[i + 1];
        }
      }
      assert forall u :: u in ks <==> u == k || u in ks[1..];
      var rest := map u | u in m1 :: if u in ks[1..] then Advance(m1[u], now, false).0 else m1[u];
      var want := map u | u in m :: if u in ks then Advance(m[u], now, false).0 else m[u];
      assert EvaluateEach(m, ks, now) == rest;
      assert m1.Keys == m.Keys;
      forall u | u in m ensures rest[u] == want[u] {
        if u == k {
          assert m1[u] == Advance(m[u], now, false).0;
        } else {
          assert m1[u] == m[u];
        }
      }
      assert rest == want;
    }
  }

  /** `epoch_job` visits every user once, so in any visiting order it yields `TickAll`. */
  lemma EpochJobAnyOrder(m: Users, ks: seq<string>, now: int)
    requires forall i, j :: 0 <= i < j < |ks| ==> ks[i] != ks[j]
    requires forall u :: u in m <==> u in ks
    ensures EvaluateEach(m, ks, now) == TickAll(m, now)
  {
    EvaluateEachSteps(m, ks, now);
    var all := map u | u in m :: Advance(m[u], now, false).0;
    assert TickAll(m, now) == all;
    assert EvaluateEach(m, ks, now).Keys == all.Keys;
  }

  /** Of several button presses before a step, only the last one counts. */
  lemma LastDecisionWins(m: Users, uid: string, first: string, second: string)
    ensures RecordDecision(RecordDecision(m, uid, first), uid, second) == RecordDecision(m, uid, second)
  {
  }

  /** `/tap remove` undoes `/tap add`. */
  lemma TapRemoveUndoesAdd(m: Users, uid: string)
    requires uid in m
    ensures var (m1, reply1) := AdjustTap(m, uid, ["add"]);
            var (m2, reply2) := AdjustTap(m1, uid, ["remove"]);
            reply1 == Added && (m[uid].tappedEpochs >= 0 ==> reply2 == Removed && m2 == m)
  {
    var m1 := AdjustTap(m, uid, ["add"]).0;
    assert m1[uid].tappedEpochs == m[uid].tappedEpochs + 1;
    assert m1[uid := m1[uid].(tappedEpochs := m1[uid].tappedEpochs - 1)] == m;
  }

  /** `/tap remove` never takes the count below zero. */
  lemma TapRemoveNeverNegative(m: Users, uid: string, args: seq<string>)
    requires uid in m && m[uid].tappedEpochs >= 0
    ensures var m1 := AdjustTap(m, uid, args).0;
            uid in m1 && m1[uid].tappedEpochs >= 0
  {
  }

  /** `/reset` after `/on` leaves the table as if the user had been reset straight away. */
  lemma ResetUndoesOn(m: Users, uid: string, now: int, chatId: int)
    ensures Forget(Activate(m, uid, now, chatId), uid) == Forget(m, uid)
  {
  }

  /** `/on` after `/off` on a known active user restores the record. */
  lemma OnUndoesOff(m: Users, uid: string, now: int, chatId: int)
    requires uid in m && m[uid].notify && m[uid].active
    ensures Activate(Pause(m, uid), uid, now, chatId) == m
  {
    var m1 := Pause(m, uid);
    assert m1[uid].(notify := true, active := true) == m[uid];
  }

  /**
   * The worked example, first half: `/on` at t = 0, then a forced status at
   * t = 10 reports epoch 1 with no tier and all 12000 taps remaining ...
   */
  lemma ScenarioFirstStatusReport()
    ensures Evaluate(Activate(map[], "7", 0, 42), "7", 10, true).1
            == Sent(Report(42, 1, 287, 0, None, 0, 0, MaxTaps))
  {
    var r0 := Record(0, 0, 0, true, true, NoDecision, 42);
    assert Activate(map[], "7", 0, 42) == map["7" := r0];
    RewardTierOutOfRange(0);
    var r1 := r0.(lastEpochSeen := 1);
    assert GlobalEpoch(0, 10) == 1;
    assert Finalize(r0, 1) == r1;
    var rep1 := Report(42, 1, 287, 0, None, 0, 0, MaxTaps);
    assert MakeReport(r1, 1) == rep1;
    assert Advance(r0, 10, true) == (r1, Sent(rep1));
  }

  /** ... and leaves epoch 1 recorded as seen. */
  lemma ScenarioFirstStatusState()
    ensures Evaluate(Activate(map[], "7", 0, 42), "7", 10, true).0
            == map["7" := Record(0, 0, 1, true, true, NoDecision, 42)]
  {
    var r0 := Record(0, 0, 0, true, true, NoDecision, 42);
    var m0 := map["7" := r0];
    assert Activate(map[], "7", 0, 42) == m0;
    var r1 := r0.(lastEpochSeen := 1);
    assert GlobalEpoch(0, 10) == 1;
    assert Finalize(r0, 1) == r1;
    assert m0["7"] == r0 && m0["7" := r1] == map["7" := r1];
  }

  /**
   * The worked example, second half: the "tapped" button, then the tick at
   * t = 301 enters epoch 2 with one tapped epoch in the first tier.
   */
  lemma ScenarioTappedTick()
    ensures var m1 := map["7" := Record(0, 0, 1, true, true, NoDecision, 42)];
            Evaluate(RecordDecision(m1, "7", "tapped"), "7", 301, false)
            == (map["7" := Record(0, 1, 2, true, true, NoDecision, 42)],
                Sent(Report(42, 2, 286, 1, Some(Tier(1, 14, "Extremely High")), 13, 70, 11930)))
  {
    var r1 := Record(0, 0, 1, true, true, NoDecision, 42);
    var m1 := map["7" := r1];
    var r2 := r1.(currentDecision := Tapped);
    assert DecisionOf("tapped") == Tapped;
    var m2 := RecordDecision(m1, "7", "tapped");
    assert m2 == map["7" := r2];
    var r3 := r1.(tappedEpochs := 1, lastEpochSeen := 2);
    assert GlobalEpoch(0, 301) == 2;
    assert Finalize(r2, 2) == r3;
    RewardTierInRange(1);
    assert (1 - 1) / Width == 0;
    assert Advance(r2, 301, false) == (r3, Sent(MakeReport(r3, 2)));
    assert m2["7"] == r2 && m2["7" := r3] == map["7" := r3];
  }
}
