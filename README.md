# Epoch tracker of epoch_bot, in Dafny

This project models the per-user epoch tracker of the Telegram bot in
`bot.py`, with the Telegram transport and the JSON data file taken away.

A user's day is a cycle of 288 epochs of 300 seconds, counted from the
user's first `/on` (a later `/on` keeps the cycle start). The bot keeps, per user id, a record with the
cycle start, the number of epochs the user says they tapped through, the
last epoch a status was produced for, the notify and active flags, the
pending answer to the last status message ("tapped" or "skipped") and the
chat to write to. Every 300 seconds a job runs the status step for each
user: it works out the current epoch, and if that epoch is new it folds a
pending "tapped" into the count, clears the answer, records the epoch and
reports the epoch, the count, the reward tier of the count and the tap
statistics. The reward tier comes from a table of twelve 14-wide brackets
covering 1..168 tapped epochs; any other count is "Inefficient".

Files:

- `wrappers.dfy` — module `Wrappers`: `Option`, for the values the code returns as `None`.
- `tiers.dfy` — module `Tiers`: the tier table and `get_reward_tier` as a
  first-match scan (`FirstMatch`, `RewardTier`), `remaining_in_tier`, and
  lemmas that the brackets are contiguous and disjoint and that a count in
  1..168 gets the bracket starting at `14*((u-1)/14)+1`.
- `tracker.dfy` — module `Tracker`: the `Record` and `Decision` datatypes,
  the status step on one record (`Advance`) and on the table (`Evaluate`),
  and one function per handler giving the table after it.
- `tracker_facts.dfy` — module `TrackerFacts`: what running these steps in
  sequence guarantees (idempotent ticks, a decision consumed once, an epoch
  counter that does not go back, inverse pairs, a worked example).
- `bot_store.dfy` — module `Bot`: class `Store` with a field `data` holding
  the table, and one method per handler that changes `data` in place; each
  method's postcondition is the matching function of `Tracker`.

The wall clock (`int(time.time())`) is a parameter `now` of the handlers
that read it. Python's `elapsed // 300` is Dafny's `/`: for a positive
divisor both round towards minus infinity, so a `now` before the cycle start
is modelled as the code has it (an epoch of 0 or less), not excluded.

Points where the code may surprise a reader:

- With notifications off, a non-forced tick returns before finalization
  (bot.py:167-168): the pending decision stays pending and the recorded
  epoch stays put until a tick with notifications on, or a `/status`.
  `TrackerFacts.MutedTickKeepsDecision` states this.
- A forced status call (`/status`) finalizes even inside an epoch already
  seen, so it consumes a pending "tapped" at once
  (`TrackerFacts.ForcedStatusFinalizes`).
- There is no cycle renewal and no exhausted state: the epoch clamps at 288,
  and once 288 has been seen ticks do nothing (`TrackerFacts.ExhaustedCycleGoesQuiet`).
- A negative elapsed time is not clamped to zero.
- The recorded epoch is set to the current epoch, not incremented: a late
  tick skips epochs and folds the decision in once (`TrackerFacts.LateTickSkipsEpochs`).

## Model

| member | source | states |
|---|---|---|
| Tiers.FirstMatch | bot.py:57-60 | the scan returns a row whose bracket holds the count and no earlier row holds it; it returns nothing exactly when no row holds the count |
| Tiers.RewardTier | bot.py:42-60 | get_reward_tier returns a row of the table holding the count, and the sentinel exactly when no row holds it |
| Tiers.TierName | bot.py:57-60 | the name is the name of row (u-1)/14 for a count in 1..168, and it is "Inefficient" exactly when the count is outside 1..168 |
| Tiers.NamesAreNotSentinel | bot.py:43-56 | no row of the table is named "Inefficient" |
| Tiers.RewardTierCases | bot.py:42-60 | the lookup gives row (u-1)/14 for a count in 1..168 and the sentinel for any other count |
| Tiers.TableShape | bot.py:43-56 | the table has twelve rows and row i is the bracket 14i+1..14i+14 |
| Tiers.TableContiguous | bot.py:43-56 | the brackets are pairwise disjoint, in increasing order, and each starts right after the one before |
| Tiers.InRow | bot.py:43-58 | a count is in row i exactly when it is in 1..168 and i = (u-1)/14 |
| Tiers.RewardTierInRange | bot.py:42-59 | for 1 <= u <= 168 the lookup finds a tier; it is the only row holding u, it starts at 14*((u-1)/14)+1 and is 14 wide |
| Tiers.RewardTierOutOfRange | bot.py:60 | for u <= 0 or u > 168 the result is `None`, the sentinel |
| Tiers.FoundTier | bot.py:57-59 | a found tier holds the count, is 14 wide and never starts at 0, so the `if ts` test means "a tier was found" |
| Tiers.RemainingInTier | bot.py:190-191 | remaining_in_tier is in 0..13, is 0 without a tier, and count + remaining is the tier's upper bound |
| Tracker.FloorDiv | bot.py:174 | Python's floor division by a positive divisor: q*d <= a < q*d + d |
| Tracker.Min | bot.py:174 | the result is the smaller of the two arguments |
| Tracker.Max | bot.py:194 | the result is the larger of the two arguments |
| Tracker.GlobalEpoch | bot.py:172-174 | the epoch is at most 288, at least 1 when now >= cycle start and at most 0 before it, and below 288 it is the 300-second slot now falls in |
| Tracker.GlobalEpochMonotone | bot.py:174 | a later time never gives an earlier epoch |
| Tracker.Finalize | bot.py:179-184 | the count goes up by exactly one when the decision was "tapped" and is unchanged otherwise; the decision becomes None; the epoch is recorded; no other field changes |
| Tracker.MakeReport | bot.py:187-194 | remaining_cycle = 288 - epoch (in 0..287 for an epoch in range), the tier of the count, remaining_in_tier in 0..13, used_taps = 70*count, remaining_taps >= 0 and equal to 12000 - used_taps until that reaches 0 |
| Tracker.Advance | bot.py:164-194 | inactive, muted (notify off, not forced) and same-epoch (not forced) exits each happen exactly under their condition and change nothing; otherwise the record is finalized at the current epoch and reported; the record invariant is kept |
| Tracker.Evaluate | bot.py:160-185 | an unknown user gets no change; only a sent status changes the table, and then only that user's record, which is finalized; the key set and the invariant are kept |
| Tracker.TickAll | bot.py:246-249 | every user gets exactly the record a non-forced status step for that user alone would give; the keys and the invariant are kept |
| Tracker.TickOutcomes | bot.py:246-249 | each user's outcome in the job is that of the user's own non-forced status step, so its message is sent exactly when the record is active, notify is on and the current epoch differs from the recorded one |
| Tracker.EvaluateEach | bot.py:248-249 | the non-forced steps over a list of users, one after another, keep the key set and the record invariant |
| Tracker.Activate | bot.py:87-99 | a new user gets cycle start now, count 0, epoch 0, no decision, notify and active on and the chat id; a known user gets only notify and active switched on; no other user changes |
| Tracker.Pause | bot.py:110-111 | only the user's notify flag becomes false; an unknown user leaves the table unchanged |
| Tracker.Forget | bot.py:121-122 | only that user is removed; every other record is kept |
| Tracker.AdjustTap | bot.py:136-155 | each reply happens exactly under its condition; "add" adds exactly one, "remove" subtracts one only from a positive count; an unknown user, no argument, a zero count or an unknown argument leave the table unchanged |
| Tracker.DecisionOf | bot.py:235-238 | the callback value "tapped" gives Tapped and every other value gives Skipped, never None |
| Tracker.RecordDecision | bot.py:232-238 | only the user's pending decision changes, to the pressed button's; an unknown user leaves the table unchanged |
| TrackerFacts.StatusNoOp | bot.py:164-168 | an unknown user, an inactive record, or notify off without force: the table is unchanged and nothing is sent |
| TrackerFacts.SameEpochTickIsNoOp | bot.py:174-177 | after a non-forced step, another non-forced step in the same epoch changes nothing and sends nothing |
| TrackerFacts.SecondTickIsNoOp | bot.py:176-177 | a second non-forced call at the same now is a no-op |
| TrackerFacts.DecisionConsumedOnce | bot.py:179-184 | the step that sends adds the pending "tapped" once, and the next step, forced or not, adds nothing more |
| TrackerFacts.ForcedStatusFinalizes | bot.py:176-184 | a forced call on an active record always finalizes, even in an epoch already seen |
| TrackerFacts.MutedTickKeepsDecision | bot.py:167-168 | with notify off a tick changes nothing, and a following forced call then folds the kept "tapped" in |
| TrackerFacts.LastSeenMonotone | bot.py:174-184 | for a record whose recorded epoch is not ahead of its current epoch, and a clock that does not go back, the step never lowers the recorded epoch, leaves it not ahead at the later time, and strictly raises it on every non-forced step that sends |
| TrackerFacts.EvaluateKeepsSeenNotAhead | bot.py:160-185 | a status step at a later time keeps every recorded epoch not ahead of its current epoch |
| TrackerFacts.ActivateKeepsSeenNotAhead | bot.py:87-99 | `/on` at a later time keeps every recorded epoch not ahead; the new record has seen epoch 0 |
| TrackerFacts.PauseKeepsSeenNotAhead | bot.py:110-111 | `/off` keeps every recorded epoch not ahead as the clock moves on |
| TrackerFacts.ForgetKeepsSeenNotAhead | bot.py:121-122 | `/reset` keeps every recorded epoch not ahead as the clock moves on |
| TrackerFacts.AdjustTapKeepsSeenNotAhead | bot.py:136-155 | `/tap` keeps every recorded epoch not ahead as the clock moves on |
| TrackerFacts.RecordDecisionKeepsSeenNotAhead | bot.py:232-238 | a button press keeps every recorded epoch not ahead as the clock moves on |
| TrackerFacts.TickAllKeepsSeenNotAhead | bot.py:246-249 | `epoch_job` at a later time keeps every recorded epoch not ahead |
| TrackerFacts.RecordedEpochNeverDecreases | bot.py:174-184 | on a table whose recorded epochs are not ahead (kept by every handler), a status step or tick at a later time never lowers a user's recorded epoch |
| TrackerFacts.LateTickSkipsEpochs | bot.py:174-184 | a late tick records the epoch it finds (1 to 4 at t = 900) and folds the decision in once |
| TrackerFacts.ExhaustedCycleGoesQuiet | bot.py:174-177 | once epoch 288 is recorded, no later non-forced tick changes or sends anything |
| TrackerFacts.FirstTickAfterOnSends | bot.py:88-96 | the first tick after `/on` creates a user always sends, with an epoch in 1..288 and a count of 0 |
| TrackerFacts.EvaluateEachSteps | bot.py:246-249 | running the non-forced step over distinct users one after another gives each listed user its own step and leaves the others alone |
| TrackerFacts.EpochJobAnyOrder | bot.py:246-249 | visiting every user once, in any order, gives the same table as TickAll |
| TrackerFacts.LastDecisionWins | bot.py:235-238 | of two button presses only the second one's decision remains |
| TrackerFacts.TapRemoveUndoesAdd | bot.py:144-152 | "add" then "remove" restores the table for a non-negative count |
| TrackerFacts.TapRemoveNeverNegative | bot.py:149-155 | no `/tap` call takes a non-negative count below zero |
| TrackerFacts.ResetUndoesOn | bot.py:87-122 | `/reset` after `/on` leaves the table as a `/reset` alone would |
| TrackerFacts.OnUndoesOff | bot.py:97-111 | `/on` after `/off` restores a known user's record that had notify and active on |
| TrackerFacts.ScenarioFirstStatusReport | bot.py:160-194 | `/on` at 0 then a forced status at 10 reports epoch 1, 287 remaining, count 0, no tier, 0 used and 12000 remaining taps |
| TrackerFacts.ScenarioFirstStatusState | bot.py:179-185 | that status records epoch 1 and changes nothing else |
| TrackerFacts.ScenarioTappedTick | bot.py:174-194 | a "tapped" press then the tick at 301 gives epoch 2, count 1, tier 1..14 "Extremely High", 13 remaining in the tier, 70 used and 11930 remaining taps |
| Bot.Store.constructor | bot.py:28-32 | the store starts from the loaded snapshot |
| Bot.Store.On | bot.py:82-101 | the table afterwards is Activate of the table before; the invariant is kept |
| Bot.Store.Off | bot.py:106-112 | the table afterwards is Pause of the table before |
| Bot.Store.Reset | bot.py:117-123 | the table afterwards is Forget of the table before |
| Bot.Store.Tap | bot.py:132-155 | the table and reply are those of AdjustTap |
| Bot.Store.ButtonHandler | bot.py:225-240 | the table afterwards is RecordDecision of the table before |
| Bot.Store.SendStatus | bot.py:160-194 | the table and outcome are those of Evaluate |
| Bot.Store.Status | bot.py:128-129 | a forced Evaluate |
| Bot.Store.EpochJob | bot.py:246-249 | the table afterwards is TickAll of the table before, and the returned outcomes are TickOutcomes of the table before: one per user, Sent exactly for the users the job messages |

## Left out

- Reading and writing `data.json` (`load_data`, `save_data`): the table is an in-memory map; each handler's load, change and save is one method on it. Storage failures and records with missing or mistyped fields (a `KeyError` in Python) are not modelled.
- All Telegram interaction: replies, the status message text and its emoji, the inline keyboard, `query.answer` and removing the keyboard. The model returns which reply (`TapReply`) or which status numbers (`Report`) the handler would send; `EpochJob` returns one status outcome per user.
- `time.time()`: replaced by the parameter `now`. `EpochJob` uses one `now` for all users, where the code reads the clock once per user.
- A delivery failure in `send_message` raises after the new state is saved and stops `epoch_job` for the remaining users; the model has no failing transport.
- The `/start` handler (help text only), the application bootstrap and the repeating job registration.
- Concurrent handlers doing read-modify-write on the shared file: the model runs handlers one at a time.
- Cycle renewal, exhaustion states and clock-skew clamping, which the code does not have.
- Monotonicity of the recorded epoch is proved for tables whose recorded epochs are not ahead of the clock (`Tracker.SeenNotAhead`), which every handler keeps and an empty table has; a snapshot loaded from a hand-edited file need not satisfy it.
