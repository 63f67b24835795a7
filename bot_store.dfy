/**
 * The command handlers of bot.py as methods on the user table they load,
 * change in place and save. Each method's new table is the one the matching
 * function of module Tracker describes; what those functions promise is
 * proved in Tracker and TrackerFacts.
 */
module Bot {
  import opened Tracker

  /** The table part way through `epoch_job`: the users in `todo` are not yet visited. */
  ghost function PartialTick(m: Users, todo: set<string>, now: int): Users {
    map u | u in m :: if u in todo then m[u] else Advance(m[u], now, false).0
  }

  /** The outcomes collected part way through `epoch_job`. */
  ghost function PartialOutcomes(m: Users, todo: set<string>, now: int): map<string, StatusOutcome> {
    map u | u in m && u !in todo :: Advance(m[u], now, false).1
  }

  /** Visiting one more user extends both by that user's step. */
  lemma VisitOne(m: Users, todo: set<string>, uid: string, now: int)
    requires uid in todo && todo <= m.Keys
    ensures PartialTick(m, todo, now)[uid] == m[uid]
    ensures PartialTick(m, todo - {uid}, now)
            == PartialTick(m, todo, now)[uid := Advance(m[uid], now, false).0]
    ensures PartialOutcomes(m, todo - {uid}, now)
            == PartialOutcomes(m, todo, now)[uid := Advance(m[uid], now, false).1]
  {
  }

  class Store {
    /** The table `data` that every handler loads from, and saves to, the data file. */
    var data: Users

    /**
     * A store holding the snapshot `load_data` returned. The snapshot may be
     * any table: the code does not check the file, so `Valid()` is not
     * demanded here; each method promises only to keep it.
     */
    constructor (snapshot: Users)
      ensures data == snapshot
    {
      data := snapshot;
    }

    ghost predicate Valid()
      reads this
    {
      ValidUsers(data)
    }

    /** `/on` from user `uid` in chat `chatId` at time `now`. */
    method On(uid: string, chatId: int, now: int)
      modifies this
      ensures data == Activate(old(data), uid, now, chatId)
      ensures old(Valid()) ==> Valid()
    {
      if uid !in data {
        data := data[uid := Record(now, 0, 0, true, true, NoDecision, chatId)];
      } else {
        var r := data[uid];
        r := r.(notify := true);
        r := r.(active := true);
        data := data[uid := r];
      }
    }

    /** `/off` from user `uid`. */
    method Off(uid: string)
      modifies this
      ensures data == Pause(old(data), uid)
      ensures old(Valid()) ==> Valid()
    {
      if uid in data {
        data := data[uid := data[uid].(notify := false)];
      }
    }

    /** `/reset` from user `uid`. */
    method Reset(uid: string)
      modifies this
      ensures data == Forget(old(data), uid)
      ensures old(Valid()) ==> Valid()
    {
      if uid in data {
        data := data - {uid};
      }
    }

    /** `/tap` with arguments `args` from user `uid`; returns which reply is sent. */
    method Tap(uid: string, args: seq<string>) returns (reply: TapReply)
      modifies this
      ensures (data, reply) == AdjustTap(old(data), uid, args)
      ensures old(Valid()) ==> Valid()
    {
      if uid !in data {
        return NotTracking;
      }
      if |args| == 0 {
        return Usage;
      }
      if args[0] == "add" {
        var r := data[uid];
        data := data[uid := r.(tappedEpochs := r.tappedEpochs + 1)];
        reply := Added;
      } else if args[0] == "remove" {
        var r := data[uid];
        if r.tappedEpochs > 0 {
          data := data[uid := r.(tappedEpochs := r.tappedEpochs - 1)];
          reply := Removed;
        } else {
          reply := AlreadyZero;
        }
      } else {
        reply := Ignored;
      }
    }

    /** A press of a status message's button, carrying `callbackData`, by user `uid`. */
    method ButtonHandler(uid: string, callbackData: string)
      modifies this
      ensures data == RecordDecision(old(data), uid, callbackData)
      ensures old(Valid()) ==> Valid()
    {
      if uid !in data {
        return;
      }
      var r := data[uid];
      if callbackData == "tapped" {
        r := r.(currentDecision := Tapped);
      } else {
        r := r.(currentDecision := Skipped);
      }
      data := data[uid := r];
    }

    /** `send_status` for user `uid` at time `now`; `Sent` carries the message's numbers. */
    method SendStatus(uid: string, now: int, force: bool) returns (outcome: StatusOutcome)
      modifies this
      ensures (data, outcome) == Evaluate(old(data), uid, now, force)
      ensures old(Valid()) ==> Valid()
    {
      if uid !in data {
        return NotTracked;
      }
      if !data[uid].active {
        return Inactive;
      }
      if !data[uid].notify && !force {
        return Muted;
      }
      var start := data[uid].cycleStart;
      var elapsed := now - start;
      var globalEpoch := Min(elapsed / EpochSeconds + 1, TotalEpochs);
      if !force && globalEpoch == data[uid].lastEpochSeen {
        return SameEpoch;
      }
      var r := data[uid];
      if r.currentDecision == Tapped {
        r := r.(tappedEpochs := r.tappedEpochs + 1);
      }
      r := r.(currentDecision := NoDecision);
      r := r.(lastEpochSeen := globalEpoch);
      data := data[uid := r];
      outcome := Sent(MakeReport(r, globalEpoch));
    }

    /** `/status` from user `uid`: a forced status step. */
    method Status(uid: string, now: int) returns (outcome: StatusOutcome)
      modifies this
      ensures (data, outcome) == Evaluate(old(data), uid, now, true)
      ensures old(Valid()) ==> Valid()
    {
      outcome := SendStatus(uid, now, true);
    }

    /**
     * `epoch_job`: the non-forced status step for every user in the table,
     * visited in an arbitrary order, all at the same `now`. `sent` holds the
     * outcome of each user's step; a `Sent` entry is the message that user gets.
     */
    method EpochJob(now: int) returns (sent: map<string, StatusOutcome>)
      modifies this
      ensures data == TickAll(old(data), now)
      ensures sent == TickOutcomes(old(data), now)
      ensures old(Valid()) ==> Valid()
    {
      sent := map[];
      var todo := data.Keys;
      while todo != {}
        invariant todo <= old(data).Keys
        invariant data == PartialTick(old(data), todo, now)
        invariant sent == PartialOutcomes(old(data), todo, now)
        decreases todo
      {
        var uid :| uid in todo;
        VisitOne(old(data), todo, uid, now);
        var outcome := SendStatus(uid, now, false);
        sent := sent[uid := outcome];
        todo := todo - {uid};
      }
      assert data == TickAll(old(data), now);
      assert sent == TickOutcomes(old(data), now);
    }
  }
}
