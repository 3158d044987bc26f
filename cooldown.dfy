/**
 * The (model, key) cooldown matrix of translator/translate_srt_gemini.py and
 * its daily quota-reset scheduler.
 *
 * The source keeps the matrix in the module-level dictionary `cooldowns`,
 * mapping a (model, key index) cell to the instant its cooldown expires; here
 * that dictionary is the `expiry` field of a `CooldownTable` object. The clock
 * is integer seconds since the epoch.
 */
module Cooldown {

  /** One (model, key index) cell of the rotation matrix. */
  datatype Cell = Cell(model: string, key: nat)

  /** The expiry of a cell; a cell that was never blocked expires at 0. */
  function ExpiryOf(expiry: map<Cell, nat>, c: Cell): nat {
    if c in expiry then expiry[c] else 0
  }

  /** `is_available`: the cell may be used at `now` iff `now >= expiry`. */
  predicate Available(expiry: map<Cell, nat>, c: Cell, now: nat) {
    now >= ExpiryOf(expiry, c)
  }

  /** `any_key_available`: some cell of MODELS × [0, keyCount) is available. */
  predicate AnyAvailable(expiry: map<Cell, nat>, models: seq<string>, keyCount: nat, now: nat) {
    exists m, k: nat :: m in models && k < keyCount && Available(expiry, Cell(m, k), now)
  }

  /** The keys of one model, in order. */
  function KeysOf(m: string, keyCount: nat): seq<Cell> {
    seq(keyCount, k requires 0 <= k < keyCount => Cell(m, k))
  }

  /** The cells in the order `translate_batch` visits them: models outer, keys inner. */
  function Cells(models: seq<string>, keyCount: nat): seq<Cell>
    decreases |models|
  {
    if models == [] then []
    else Cells(models[..|models| - 1], keyCount) + KeysOf(models[|models| - 1], keyCount)
  }

  lemma {:induction false} CellsAppend(a: seq<string>, b: seq<string>, keyCount: nat)
    ensures Cells(a + b, keyCount) == Cells(a, keyCount) + Cells(b, keyCount)
    decreases |b|
  {
    if b != [] {
      var b' := b[..|b| - 1];
      assert (a + b)[..|a + b| - 1] == a + b';
      CellsAppend(a, b', keyCount);
    } else {
      assert a + b == a;
    }
  }

  /** The visiting order covers exactly MODELS × [0, keyCount). */
  lemma {:induction false} CellsMembership(models: seq<string>, keyCount: nat, c: Cell)
    ensures c in Cells(models, keyCount) <==> c.model in models && c.key < keyCount
    decreases |models|
  {
    if models != [] {
      var init := models[..|models| - 1];
      CellsMembership(init, keyCount, c);
      assert models == init + [models[|models| - 1]];
      if c.model in models && c.key < keyCount && c.model !in init {
        assert KeysOf(models[|models| - 1], keyCount)[c.key] == c;
      }
    }
  }

  /** The first cell visited is the first model with the first key. */
  lemma {:induction false} CellsFirst(models: seq<string>, keyCount: nat)
    requires |models| > 0 && keyCount > 0
    ensures |Cells(models, keyCount)| > 0 && Cells(models, keyCount)[0] == Cell(models[0], 0)
  {
    CellsAppend([models[0]], models[1..], keyCount);
    assert [models[0]] + models[1..] == models;
    assert Cells([models[0]], keyCount) == KeysOf(models[0], keyCount) by {
      assert [models[0]][..0] == [];
    }
  }

  /** With distinct model names, no cell is visited twice. */
  lemma {:induction false} CellsDistinct(models: seq<string>, keyCount: nat)
    requires forall i, j :: 0 <= i < j < |models| ==> models[i] != models[j]
    ensures forall i, j :: 0 <= i < j < |Cells(models, keyCount)| ==>
              Cells(models, keyCount)[i] != Cells(models, keyCount)[j]
    decreases |models|
  {
    if models != [] {
      var init := models[..|models| - 1];
      var last := models[|models| - 1];
      CellsDistinct(init, keyCount);
      var cs := Cells(models, keyCount);
      var front := Cells(init, keyCount);
      forall i, j | 0 <= i < j < |cs| ensures cs[i] != cs[j] {
        if i < |front| && j >= |front| {
          CellsMembership(init, keyCount, cs[i]);
          assert cs[j].model == last;
          assert last !in init;
        }
      }
    }
  }

  /** The cooldown dictionary, updated in place by `block_key` and `cooldowns.clear()`. */
  class CooldownTable {
    var expiry: map<Cell, nat>
    /** COOLDOWN_SECONDS */
    const cooldownSeconds: nat

    constructor (cooldownSeconds: nat)
      ensures expiry == map[] && this.cooldownSeconds == cooldownSeconds
    {
      expiry := map[];
      this.cooldownSeconds := cooldownSeconds;
    }

    predicate IsAvailable(c: Cell, now: nat)
      reads this
    {
      Available(expiry, c, now)
    }

    /** `block_key`: the cell cools down until `now + COOLDOWN_SECONDS`; no other cell changes. */
    method Block(c: Cell, now: nat)
      modifies this
      ensures expiry == old(expiry)[c := now + cooldownSeconds]
      ensures forall t: nat :: IsAvailable(c, t) <==> t >= now + cooldownSeconds
      ensures forall d :: d != c ==> ExpiryOf(expiry, d) == ExpiryOf(old(expiry), d)
    {
      expiry := expiry[c := now + cooldownSeconds];
    }

    /** `cooldowns.clear()`: afterwards every cell is available at every instant. */
    method Clear()
      modifies this
      ensures expiry == map[]
      ensures forall c, t: nat :: IsAvailable(c, t)
    {
      expiry := map[];
    }

    /** `any_key_available`: scans models outer, keys inner, and stops at the first available cell. */
    method AnyKeyAvailable(models: seq<string>, keyCount: nat, now: nat) returns (found: bool)
      ensures found <==> AnyAvailable(expiry, models, keyCount, now)
    {
      var mi := 0;
      while mi < |models|
        invariant 0 <= mi <= |models|
        invariant forall i: nat, k: nat :: i < mi && k < keyCount ==> !Available(expiry, Cell(models[i], k), now)
      {
        var k := 0;
        while k < keyCount
          invariant 0 <= k <= keyCount
          invariant forall j: nat :: j < k ==> !Available(expiry, Cell(models[mi], j), now)
        {
          if IsAvailable(Cell(models[mi], k), now) {
            return true;
          }
          k := k + 1;
        }
        mi := mi + 1;
      }
      return false;
    }
  }

  /** A never-blocked cell is available at every instant. */
  lemma NeverBlockedAvailable(expiry: map<Cell, nat>, c: Cell, now: nat)
    requires c !in expiry
    ensures Available(expiry, c, now)
  {
  }

  // ---------------------------------------------------------------------------
  // Quota reset (11:05 Paris time)
  // ---------------------------------------------------------------------------

  const DaySeconds: nat := 86400
  const ResetHour: nat := 11
  const ResetMinute: nat := 5
  /** 11:05:00 as seconds of the day. */
  const ResetSecond: nat := ResetHour * 3600 + ResetMinute * 60

  type SecondOfDay = s: nat | s < 86400

  /** Paris wall-clock time of day at epoch second `now`, for a fixed UTC offset. */
  function TimeOfDay(now: nat, utcOffset: int): SecondOfDay {
    (now + utcOffset) % DaySeconds
  }

  datatype QuotaReset = QuotaReset(tomorrow: bool, waitSeconds: nat)

  /**
   * `calculate_next_quota_reset`: once the hour is past 11, or it is 11 and the
   * minute is at least 5, the next reset is tomorrow at 11:05:00, otherwise today.
   */
  function NextQuotaReset(now: SecondOfDay): (r: QuotaReset)
    ensures r.tomorrow <==> now >= ResetSecond
    ensures 0 < r.waitSeconds <= DaySeconds
    ensures (now + r.waitSeconds) % DaySeconds == ResetSecond
    ensures now + r.waitSeconds == ResetSecond + (if r.tomorrow then DaySeconds else 0)
  {
    var hour := now / 3600;
    var minute := now % 3600 / 60;
    if hour > ResetHour || (hour == ResetHour && minute >= ResetMinute) then
      QuotaReset(true, ResetSecond + DaySeconds - now)
    else
      QuotaReset(false, ResetSecond - now)
  }

  /** At 10:00 the scheduler sleeps 3900 seconds, until 11:05 the same day. */
  lemma ResetAtTen()
    ensures NextQuotaReset(10 * 3600) == QuotaReset(false, 3900)
  {
  }

  /** At 11:05:00 exactly the reset of today counts as passed: the wait is a full day. */
  lemma ResetAtResetInstant()
    ensures NextQuotaReset(ResetSecond) == QuotaReset(true, DaySeconds)
  {
  }

  /**
   * `wait_for_quota_reset`: sleeps until the next 11:05 and then clears every
   * cooldown. Returns the new clock value.
   */
  method WaitForQuotaReset(table: CooldownTable, now: nat, utcOffset: int) returns (wokeAt: nat)
    modifies table
    ensures wokeAt == now + NextQuotaReset(TimeOfDay(now, utcOffset)).waitSeconds
    ensures TimeOfDay(wokeAt, utcOffset) == ResetSecond
    ensures table.expiry == map[]
  {
    var reset := NextQuotaReset(TimeOfDay(now, utcOffset));
    wokeAt := now + reset.waitSeconds;
    table.Clear();
  }
}
