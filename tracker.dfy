/**
 * The per-user epoch tracker of bot.py, as values: the user record, the
 * status step of `send_status` (lines 160-194) and one function per command
 * handler, each mapping the user table before the handler to the table after
 * it. The class in bot_store.dfy runs these steps in place; the lemmas here
 * state what the steps promise.
 */
module Tracker {
  import opened Wrappers
  import opened Tiers

  const EpochSeconds := 300
  const TotalEpochs := 288
  const TapsPerEpoch := 70
  const MaxTaps := 12000

  /** `current_decision`: Python's `None`, `"tapped"` or `"skipped"`. */
  datatype Decision = NoDecision | Tapped | Skipped

  /** One entry of the user table (the fields of `data[uid]`). */
  datatype Record = Record(
    cycleStart: int,
    tappedEpochs: int,
    lastEpochSeen: int,
    notify: bool,
    active: bool,
    currentDecision: Decision,
    chatId: int)

  /** The user table `data`, keyed by the user id as a string. */
  type Users = map<string, Record>

  /** The numbers a status message shows. */
  datatype Report = Report(
    chatId: int,
    epoch: int,
    remainingCycle: int,
    tappedEpochs: int,
    tier: Option<Tier>,
    remainingInTier: int,
    usedTaps: int,
    remainingTaps: int)

  /** Which of the exits of `send_status` was taken. */
  datatype StatusOutcome =
    | NotTracked      // uid not in data
    | Inactive        // record not active
    | Muted           // notify off and not forced
    | SameEpoch       // not forced and the epoch was already seen
    | Sent(report: Report)

  /** The reply chosen by the `/tap` handler; `Ignored` is an unknown argument, which gets no reply. */
  datatype TapReply = NotTracking | Usage | Added | Removed | AlreadyZero | Ignored

  /**
   * What every record created by the handlers satisfies: the count is never
   * negative and no epoch above the last one is ever recorded.
   */
  ghost predicate ValidRecord(r: Record) {
    r.tappedEpochs >= 0 && r.lastEpochSeen <= TotalEpochs
  }

  ghost predicate ValidUsers(m: Users) {
    forall u :: u in m ==> ValidRecord(m[u])
  }

  /**
   * At time `now`, no record remembers an epoch later than the one its cycle
   * is in. Every handler keeps this as the clock moves forward (module
   * TrackerFacts), which is what makes the recorded epoch monotone.
   */
  ghost predicate SeenNotAhead(m: Users, now: int) {
    forall u :: u in m ==> m[u].lastEpochSeen <= GlobalEpoch(m[u].cycleStart, now)
  }

  function Min(a: int, b: int): (m: int)
    ensures m <= a && m <= b && (m == a || m == b)
  {
    if a <= b then a else b
  }

  function Max(a: int, b: int): (m: int)
    ensures m >= a && m >= b && (m == a || m == b)
  {
    if a >= b then a else b
  }

  /**
   * Python's `a // d` for a positive divisor: the floor of a / d. Dafny's `/`
   * is Euclidean, which rounds the same way whenever `d > 0`, negative `a`
   * included.
   */
  function FloorDiv(a: int, d: int): (q: int)
    requires d > 0
    ensures q * d <= a < q * d + d
  {
    a / d
  }

  /**
   * `global_epoch` (line 174): the 1-based epoch that `now` falls in, clamped
   * at 288. Time before the cycle start is not clamped and gives an epoch of
   * 0 or less.
   */
  function GlobalEpoch(cycleStart: int, now: int): (e: int)
    ensures e <= TotalEpochs
    ensures now >= cycleStart ==> 1 <= e
    ensures now < cycleStart ==> e <= 0
    ensures e < TotalEpochs ==>
              cycleStart + (e - 1) * EpochSeconds <= now < cycleStart + e * EpochSeconds
    ensures e == TotalEpochs ==> now >= cycleStart + (TotalEpochs - 1) * EpochSeconds
  {
    Min(FloorDiv(now - cycleStart, EpochSeconds) + 1, TotalEpochs)
  }

  lemma GlobalEpochMonotone(cycleStart: int, now: int, later: int)
    requires now <= later
    ensures GlobalEpoch(cycleStart, now) <= GlobalEpoch(cycleStart, later)
  {
  }

  /**
   * Lines 179-184: fold a pending "tapped" into the count, clear the decision
   * and remember the epoch. Nothing else in the record changes.
   */
  function Finalize(r: Record, epoch: int): (r': Record)
    ensures r'.tappedEpochs == if r.currentDecision == Tapped then r.tappedEpochs + 1 else r.tappedEpochs
    ensures r'.currentDecision == NoDecision && r'.lastEpochSeen == epoch
    ensures r'.(tappedEpochs := r.tappedEpochs, currentDecision := r.currentDecision,
                lastEpochSeen := r.lastEpochSeen) == r
  {
    var tapped := if r.currentDecision == Tapped then r.tappedEpochs + 1 else r.tappedEpochs;
    r.(tappedEpochs := tapped, currentDecision := NoDecision, lastEpochSeen := epoch)
  }

  /** Lines 187-194: the status numbers for a (finalized) record in a given epoch. */
  function MakeReport(r: Record, epoch: int): (rep: Report)
    ensures rep.chatId == r.chatId && rep.epoch == epoch && rep.tappedEpochs == r.tappedEpochs
    ensures rep.epoch + rep.remainingCycle == TotalEpochs
    ensures 1 <= epoch <= TotalEpochs ==> 0 <= rep.remainingCycle < TotalEpochs
    ensures rep.tier == RewardTier(r.tappedEpochs)
    ensures 0 <= rep.remainingInTier <= Width - 1
    ensures rep.tier.None? ==> rep.remainingInTier == 0
    ensures rep.tier.Some? ==> rep.tappedEpochs + rep.remainingInTier == rep.tier.value.hi
    ensures rep.usedTaps == TapsPerEpoch * r.tappedEpochs
    ensures 0 <= rep.remainingTaps
    ensures rep.usedTaps <= MaxTaps ==> rep.usedTaps + rep.remainingTaps == MaxTaps
    ensures rep.usedTaps >= MaxTaps ==> rep.remainingTaps == 0
  {
    var used := r.tappedEpochs * TapsPerEpoch;
    Report(r.chatId, epoch, TotalEpochs - epoch, r.tappedEpochs,
           RewardTier(r.tappedEpochs), RemainingInTier(r.tappedEpochs),
           used, Max(MaxTaps - used, 0))
  }

  /**
   * The status step for one record (lines 164-194 once the record is found):
   * the gates, in the code's order, and then finalization. Only `Sent`
   * changes the record.
   */
  function Advance(r: Record, now: int, force: bool): (res: (Record, StatusOutcome))
    ensures res.1 == Inactive <==> !r.active
    ensures res.1 == Muted <==> r.active && !r.notify && !force
    ensures res.1 == SameEpoch <==>
              r.active && r.notify && !force && GlobalEpoch(r.cycleStart, now) == r.lastEpochSeen
    ensures res.1 != NotTracked
    ensures !res.1.Sent? ==> res.0 == r
    ensures res.1.Sent? ==>
              res.0 == Finalize(r, GlobalEpoch(r.cycleStart, now))
              && res.1.report == MakeReport(res.0, GlobalEpoch(r.cycleStart, now))
    ensures ValidRecord(r) ==> ValidRecord(res.0)
  {
    if !r.active then (r, Inactive)
    else if !r.notify && !force then (r, Muted)
    else
      var epoch := GlobalEpoch(r.cycleStart, now);
      if !force && epoch == r.lastEpochSeen then (r, SameEpoch)
      else
        var r' := Finalize(r, epoch);
        (r', Sent(MakeReport(r', epoch)))
  }

  /** `send_status(uid, force)` on the whole table, with `now` for `time.time()`. */
  function Evaluate(m: Users, uid: string, now: int, force: bool): (res: (Users, StatusOutcome))
    ensures res.1 == NotTracked <==> uid !in m
    ensures res.0.Keys == m.Keys
    ensures !res.1.Sent? ==> res.0 == m
    ensures res.1.Sent? ==>
              uid in m
              && res.0 == m[uid := Finalize(m[uid], GlobalEpoch(m[uid].cycleStart, now))]
    ensures uid in m ==> res == (m[uid := Advance(m[uid], now, force).0], Advance(m[uid], now, force).1)
    ensures ValidUsers(m) ==> ValidUsers(res.0)
  {
    if uid !in m then (m, NotTracked)
    else
      var step := Advance(m[uid], now, force);
      if step.1.Sent? then (m[uid := step.0], step.1)
      else
        assert m[uid := m[uid]] == m;
        (m, step.1)
  }

  /** `epoch_job`: the non-forced status step applied to every user. */
  function TickAll(m: Users, now: int): (m': Users)
    ensures m'.Keys == m.Keys
    ensures forall u :: u in m ==> m'[u] == Evaluate(m, u, now, false).0[u]
    ensures ValidUsers(m) ==> ValidUsers(m')
  {
    map u | u in m :: Advance(m[u], now, false).0
  }

  /** The outcome of each user's step in `epoch_job`; a `Sent` entry is the message that user gets. */
  function TickOutcomes(m: Users, now: int): (o: map<string, StatusOutcome>)
    ensures o.Keys == m.Keys
    ensures forall u :: u in m ==> o[u] == Evaluate(m, u, now, false).1
    ensures forall u :: u in m ==>
              (o[u].Sent? <==> (m[u].active && m[u].notify
                                && GlobalEpoch(m[u].cycleStart, now) != m[u].lastEpochSeen))
  {
    map u | u in m :: Advance(m[u], now, false).1
  }

  /** The non-forced status step applied to the users `ks`, one after another. */
  function EvaluateEach(m: Users, ks: seq<string>, now: int): (m': Users)
    ensures m'.Keys == m.Keys
    ensures ValidUsers(m) ==> ValidUsers(m')
  {
    if ks == [] then m else EvaluateEach(Evaluate(m, ks[0], now, false).0, ks[1..], now)
  }

  /**
   * `/on` (lines 87-99): create the record (the literal of lines 88-96), or
   * switch an existing one back on.
   */
  function Activate(m: Users, uid: string, now: int, chatId: int): (m': Users)
    ensures m'.Keys == m.Keys + {uid}
    ensures forall u :: u in m && u != uid ==> m'[u] == m[u]
    ensures uid !in m ==>
              && m'[uid].cycleStart == now && m'[uid].tappedEpochs == 0
              && m'[uid].lastEpochSeen == 0 && m'[uid].currentDecision == NoDecision
              && m'[uid].chatId == chatId
    ensures m'[uid].notify && m'[uid].active
    ensures uid in m ==> m'[uid].(notify := m[uid].notify, active := m[uid].active) == m[uid]
    ensures ValidUsers(m) ==> ValidUsers(m')
  {
    if uid !in m then m[uid := Record(now, 0, 0, true, true, NoDecision, chatId)]
    else m[uid := m[uid].(notify := true, active := true)]
  }

  /** `/off` (lines 110-111): turn notifications off; counting goes on. */
  function Pause(m: Users, uid: string): (m': Users)
    ensures m'.Keys == m.Keys
    ensures forall u :: u in m && u != uid ==> m'[u] == m[u]
    ensures uid in m ==> !m'[uid].notify && m'[uid].(notify := m[uid].notify) == m[uid]
    ensures uid !in m ==> m' == m
    ensures ValidUsers(m) ==> ValidUsers(m')
  {
    if uid in m then m[uid := m[uid].(notify := false)] else m
  }

  /** `/reset` (lines 121-122): forget the user. */
  function Forget(m: Users, uid: string): (m': Users)
    ensures m'.Keys == m.Keys - {uid}
    ensures forall u :: u in m' ==> m'[u] == m[u]
    ensures ValidUsers(m) ==> ValidUsers(m')
  {
    m - {uid}
  }

  /** `/tap add` and `/tap remove` (lines 136-155); only the first argument is looked at. */
  function AdjustTap(m: Users, uid: string, args: seq<string>): (res: (Users, TapReply))
    ensures res.1 == NotTracking <==> uid !in m
    ensures res.1 == Usage <==> uid in m && args == []
    ensures res.1 == Added <==> uid in m && args != [] && args[0] == "add"
    ensures res.1 == Removed <==>
              uid in m && args != [] && args[0] == "remove" && m[uid].tappedEpochs > 0
    ensures res.1 == AlreadyZero <==>
              uid in m && args != [] && args[0] == "remove" && m[uid].tappedEpochs <= 0
    ensures res.1 == Added ==>
              res.0 == m[uid := m[uid].(tappedEpochs := m[uid].tappedEpochs + 1)]
    ensures res.1 == Removed ==>
              res.0 == m[uid := m[uid].(tappedEpochs := m[uid].tappedEpochs - 1)]
    ensures res.1 != Added && res.1 != Removed ==> res.0 == m
    ensures ValidUsers(m) ==> ValidUsers(res.0)
  {
    if uid !in m then (m, NotTracking)
    else if args == [] then (m, Usage)
    else if args[0] == "add" then
      (m[uid := m[uid].(tappedEpochs := m[uid].tappedEpochs + 1)], Added)
    else if args[0] == "remove" then
      if m[uid].tappedEpochs > 0 then
        (m[uid := m[uid].(tappedEpochs := m[uid].tappedEpochs - 1)], Removed)
      else (m, AlreadyZero)
    else (m, Ignored)
  }

  /** Lines 235-238: the button's callback value; anything but "tapped" counts as skipped. */
  function DecisionOf(callbackData: string): (d: Decision)
    ensures d != NoDecision
    ensures d == Tapped <==> callbackData == "tapped"
  {
    if callbackData == "tapped" then Tapped else Skipped
  }

  /** `button_handler` (lines 232-238): record the pending decision of a known user. */
  function RecordDecision(m: Users, uid: string, callbackData: string): (m': Users)
    ensures m'.Keys == m.Keys
    ensures forall u :: u in m && u != uid ==> m'[u] == m[u]
    ensures uid in m ==>
              m'[uid].currentDecision == DecisionOf(callbackData)
              && m'[uid].(currentDecision := m[uid].currentDecision) == m[uid]
    ensures uid !in m ==> m' == m
    ensures ValidUsers(m) ==> ValidUsers(m')
  {
    if uid in m then m[uid := m[uid].(currentDecision := DecisionOf(callbackData))] else m
  }
}
