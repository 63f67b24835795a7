/**
 * The reward-tier table of bot.py (`get_reward_tier`): twelve contiguous,
 * 14-wide brackets of tapped-epoch counts covering 1..168, each with a name.
 * A count outside every bracket has no tier, which the code reports as
 * `(None, None, "Inefficient")`.
 */
module Tiers {
  import opened Wrappers

  /** One row `(a, b, name)` of the table: the inclusive bracket `a..b`. */
  datatype Tier = Tier(lo: int, hi: int, name: string)

  const Width := 14
  const TierCount := 12
  /** The name reported for a count that lies in no bracket. */
  const NoTierName := "Inefficient"

  /** The table, in the order the lookup scans it (most efficient first). */
  const Table: seq<Tier> := [
    Tier(1, 14, "Extremely High"),
    Tier(15, 28, "Very High"),
    Tier(29, 42, "High"),
    Tier(43, 56, "Medium"),
    Tier(57, 70, "Medium\U{2013}Low"),
    Tier(71, 84, "Inflection Zone"),
    Tier(85, 98, "Low"),
    Tier(99, 112, "Very Low"),
    Tier(113, 126, "Poor"),
    Tier(127, 140, "Near-Waste"),
    Tier(141, 154, "Almost Useless"),
    Tier(155, 168, "Effectively Zero")
  ]

  predicate Contains(t: Tier, u: int) {
    t.lo <= u <= t.hi
  }

  /**
   * The first row of `ts` whose bracket contains `u`, scanning from the front;
   * `None` when no row does.
   */
  function FirstMatch(ts: seq<Tier>, u: int): (r: Option<Tier>)
    ensures r.Some? ==> exists i :: 0 <= i < |ts| && ts[i] == r.value && Contains(ts[i], u)
                                    && forall j :: 0 <= j < i ==> !Contains(ts[j], u)
    ensures r.None? <==> forall i :: 0 <= i < |ts| ==> !Contains(ts[i], u)
  {
    if ts == [] then None
    else if Contains(ts[0], u) then Some(ts[0])
    else
      var r := FirstMatch(ts[1..], u);
      assert r.Some? ==> exists i :: 1 <= i < |ts| && ts[i] == r.value && Contains(ts[i], u)
                                     && forall j :: 0 <= j < i ==> !Contains(ts[j], u) by {
        if r.Some? {
          var i :| 0 <= i < |ts[1..]| && ts[1..][i] == r.value && Contains(ts[1..][i], u)
                   && forall j :: 0 <= j < i ==> !Contains(ts[1..][j], u);
          assert forall j :: 1 <= j < i + 1 ==> ts[j] == ts[1..][j - 1];
        }
      }
      assert r.None? ==> forall i :: 0 <= i < |ts| ==> !Contains(ts[i], u) by {
        if r.None? {
          forall i | 0 <= i < |ts| ensures !Contains(ts[i], u) {
            if i > 0 { assert ts[i] == ts[1..][i - 1]; }
          }
        }
      }
      r
  }

  /** `get_reward_tier(u)`: `Some(row)` for the bracket holding `u`, `None` for the sentinel. */
  function RewardTier(u: int): (r: Option<Tier>)
    ensures r.Some? ==> r.value in Table && Contains(r.value, u)
    ensures r.None? <==> forall i :: 0 <= i < |Table| ==> !Contains(Table[i], u)
  {
    FirstMatch(Table, u)
  }

  /** The name part of `get_reward_tier(u)`, which the status message shows. */
  function TierName(u: int): (name: string)
    ensures 1 <= u <= Width * TierCount ==> name == Table[(u - 1) / Width].name
    ensures name == NoTierName <==> u < 1 || u > Width * TierCount
  {
    var r := RewardTier(u);
    RewardTierCases(u);
    NamesAreNotSentinel();
    if r.Some? then r.value.name else NoTierName
  }

  /** No row of the table carries the sentinel's name. */
  lemma NamesAreNotSentinel()
    ensures forall i :: 0 <= i < |Table| ==> Table[i].name != NoTierName
  {
  }

  /** Row `i` of the table is the bracket `14*i+1 .. 14*i+14`. */
  lemma TableShape(i: int)
    requires 0 <= i < |Table|
    ensures |Table| == TierCount
    ensures Table[i].lo == Width * i + 1 && Table[i].hi == Width * i + Width
  {
  }

  /** The brackets are pairwise disjoint and each one follows on from the one before. */
  lemma TableContiguous(i: int, j: int)
    requires 0 <= i < j < |Table|
    ensures Table[i].hi < Table[j].lo
    ensures j == i + 1 ==> Table[j].lo == Table[i].hi + 1
  {
    TableShape(i);
    TableShape(j);
  }

  /** A count lies in row `i` exactly when `i == (u - 1) / 14` and `u` is in 1..168. */
  lemma InRow(u: int, i: int)
    requires 0 <= i < |Table|
    ensures Contains(Table[i], u) <==> 1 <= u <= Width * TierCount && i == (u - 1) / Width
  {
    TableShape(i);
  }

  /**
   * Every count in 1..168 falls in exactly one bracket, which the lookup
   * returns: its lower bound is `14*((u-1)/14) + 1` and it is 14 wide.
   */
  lemma {:induction false} RewardTierInRange(u: int)
    requires 1 <= u <= Width * TierCount
    ensures RewardTier(u).Some?
    ensures var t := RewardTier(u).value;
            t == Table[(u - 1) / Width]
            && t.lo == Width * ((u - 1) / Width) + 1 && t.hi == t.lo + Width - 1
            && t.lo <= u <= t.hi
    ensures forall i :: 0 <= i < |Table| && Contains(Table[i], u) ==> i == (u - 1) / Width
  {
    var k := (u - 1) / Width;
    TableShape(0);
    InRow(u, k);
    forall i | 0 <= i < |Table| && Contains(Table[i], u) ensures i == k {
      InRow(u, i);
    }
    var r := RewardTier(u);
    if r.Some? {
      var i :| 0 <= i < |Table| && Table[i] == r.value && Contains(Table[i], u);
      InRow(u, i);
      TableShape(i);
    }
  }

  /** A count of 0 or less, or above 168, gets the sentinel. */
  lemma {:induction false} RewardTierOutOfRange(u: int)
    requires u < 1 || u > Width * TierCount
    ensures RewardTier(u) == None
  {
    forall i | 0 <= i < |Table| ensures !Contains(Table[i], u) {
      InRow(u, i);
    }
  }

  /** Both cases of the lookup at once: the bracket `(u - 1) / 14` in range, the sentinel outside. */
  lemma RewardTierCases(u: int)
    ensures 1 <= u <= Width * TierCount ==> RewardTier(u) == Some(Table[(u - 1) / Width])
    ensures u < 1 || u > Width * TierCount ==> RewardTier(u) == None
  {
    if 1 <= u <= Width * TierCount { RewardTierInRange(u); } else { RewardTierOutOfRange(u); }
  }

  /**
   * Any bracket the lookup returns holds the count, is 14 wide and never
   * starts at 0, so Python's `if ts` is the same test as "a tier was found".
   */
  lemma {:induction false} FoundTier(u: int)
    ensures RewardTier(u).Some? ==>
              var t := RewardTier(u).value;
              t.lo != 0 && t.lo <= u <= t.hi && t.hi - t.lo == Width - 1
  {
    if 1 <= u <= Width * TierCount { RewardTierInRange(u); } else { RewardTierOutOfRange(u); }
  }

  /**
   * `remaining_in_tier`: how many more tapped epochs stay in the current
   * bracket; 0 when there is no tier. The guard is the code's `if ts`.
   */
  function RemainingInTier(u: int): (n: int)
    ensures 0 <= n <= Width - 1
    ensures RewardTier(u).None? ==> n == 0
    ensures RewardTier(u).Some? ==> u + n == RewardTier(u).value.hi
  {
    var r := RewardTier(u);
    FoundTier(u);
    if r.Some? && r.value.lo != 0 then r.value.hi - u else 0
  }
}
