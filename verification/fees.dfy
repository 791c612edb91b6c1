/**
 * The withdrawal fee schedule: validation, the fee of an amount, the table shown
 * to the operator, and the dashboard's search for the largest affordable amount.
 */
module Fees {
  import opened Options

  const SSENTEZO_MIN_UGX := 500
  const SSENTEZO_MAX_UGX := 7_000_000

  datatype FeeSchedule = FeeSchedule(
    minAmountUgx: int,
    maxAmountUgx: int,
    bandSizeUgx: int,
    baseFeeUgx: int,
    stepFeeUgx: int)

  const DEFAULT_FEE_SCHEDULE := FeeSchedule(500, SSENTEZO_MAX_UGX, 20_000, 2_500, 500)

  datatype ScheduleProblem = NotWholeValue | MinTooLow | MaxTooHigh | MinAboveMax | BandTooSmall

  datatype FeeError = NotWhole | BelowMinimum | AboveMaximum

  datatype Tier = Tier(fromUgx: int, toUgx: int, feeUgx: int)

  function Min(a: int, b: int): int { if a <= b then a else b }

  function Max(a: int, b: int): int { if a >= b then a else b }

  /** Quotient rounded up; the divisor is positive, so Euclidean division is the floor. */
  function CeilDiv(a: int, b: int): (q: int)
    requires b > 0
    ensures (q - 1) * b < a <= q * b
  {
    (a + b - 1) / b
  }

  /** What stands in the place of an amount: a number, or anything else. */
  datatype Value = Number(value: real) | NotANumber

  /** A schedule as it is sent or stored, before it is checked. */
  datatype Draft = Draft(
    minAmountUgx: Value,
    maxAmountUgx: Value,
    bandSizeUgx: Value,
    baseFeeUgx: Value,
    stepFeeUgx: Value)

  function DraftOf(s: FeeSchedule): Draft {
    Draft(Number(s.minAmountUgx as real), Number(s.maxAmountUgx as real), Number(s.bandSizeUgx as real),
          Number(s.baseFeeUgx as real), Number(s.stepFeeUgx as real))
  }

  predicate IsWhole(v: Value) { v.Number? && v.value == v.value.Floor as real && v.value >= 0.0 }

  predicate AreWhole(d: Draft) {
    IsWhole(d.minAmountUgx) && IsWhole(d.maxAmountUgx) && IsWhole(d.bandSizeUgx)
    && IsWhole(d.baseFeeUgx) && IsWhole(d.stepFeeUgx)
  }

  function ScheduleOf(d: Draft): (s: FeeSchedule)
    requires AreWhole(d)
    ensures DraftOf(s) == d
  {
    FeeSchedule(d.minAmountUgx.value.Floor, d.maxAmountUgx.value.Floor, d.bandSizeUgx.value.Floor,
                d.baseFeeUgx.value.Floor, d.stepFeeUgx.value.Floor)
  }

  predicate Valid(s: FeeSchedule) {
    SSENTEZO_MIN_UGX <= s.minAmountUgx <= s.maxAmountUgx <= SSENTEZO_MAX_UGX
    && s.bandSizeUgx >= 1000 && s.baseFeeUgx >= 0 && s.stepFeeUgx >= 0
  }

  predicate Less(a: Value, b: Value) { a.Number? && b.Number? && a.value < b.value }

  /** The rules, in the order they are checked. */
  predicate Breaks(d: Draft, rule: ScheduleProblem) {
    match rule
    case NotWholeValue => !AreWhole(d)
    case MinTooLow => Less(d.minAmountUgx, Number(SSENTEZO_MIN_UGX as real))
    case MaxTooHigh => Less(Number(SSENTEZO_MAX_UGX as real), d.maxAmountUgx)
    case MinAboveMax => Less(d.maxAmountUgx, d.minAmountUgx)
    case BandTooSmall => Less(d.bandSizeUgx, Number(1000.0))
  }

  function Rank(rule: ScheduleProblem): nat {
    match rule
    case NotWholeValue => 0
    case MinTooLow => 1
    case MaxTooHigh => 2
    case MinAboveMax => 3
    case BandTooSmall => 4
  }

  /** Names the first rule the draft breaks; a draft that breaks none is a valid schedule, and the other way round. */
  function ValidateFeeSchedule(d: Draft): (problem: Option<ScheduleProblem>)
    ensures problem.Some? ==>
              Breaks(d, problem.value) && forall rule :: Breaks(d, rule) ==> Rank(problem.value) <= Rank(rule)
    ensures problem == None <==> AreWhole(d) && Valid(ScheduleOf(d))
  {
    if !AreWhole(d) then Some(NotWholeValue)
    else
      var s := ScheduleOf(d);
      if s.minAmountUgx < SSENTEZO_MIN_UGX then Some(MinTooLow)
      else if s.maxAmountUgx > SSENTEZO_MAX_UGX then Some(MaxTooHigh)
      else if s.minAmountUgx > s.maxAmountUgx then Some(MinAboveMax)
      else if s.bandSizeUgx < 1000 then Some(BandTooSmall)
      else None
  }

  /** The setting's row: none, a text that does not parse, or the fields the parsed text has. */
  datatype Stored =
    | NoRow
    | Unreadable
    | Fields(minAmountUgx: Option<Value>, maxAmountUgx: Option<Value>, bandSizeUgx: Option<Value>,
             baseFeeUgx: Option<Value>, stepFeeUgx: Option<Value>)

  function Or(v: Option<Value>, default_: Value): Value { if v.Some? then v.value else default_ }

  /** The stored fields over the default's. */
  function Merged(stored: Stored): Draft
    requires stored.Fields?
  {
    var d := DraftOf(DEFAULT_FEE_SCHEDULE);
    Draft(Or(stored.minAmountUgx, d.minAmountUgx), Or(stored.maxAmountUgx, d.maxAmountUgx),
          Or(stored.bandSizeUgx, d.bandSizeUgx), Or(stored.baseFeeUgx, d.baseFeeUgx),
          Or(stored.stepFeeUgx, d.stepFeeUgx))
  }

  /** The schedule in force: always a valid one, read from the merged fields when they make one, else the default. */
  function LoadFeeSchedule(stored: Stored): (s: FeeSchedule)
    ensures Valid(s)
    ensures if stored.Fields? && ValidateFeeSchedule(Merged(stored)) == None
            then DraftOf(s) == Merged(stored) else s == FeeSchedule(500, 7_000_000, 20_000, 2_500, 500)
  {
    match stored
    case Fields(_, _, _, _, _) =>
      var merged := Merged(stored);
      if ValidateFeeSchedule(merged).Some? then DEFAULT_FEE_SCHEDULE else ScheduleOf(merged)
    case _ => DEFAULT_FEE_SCHEDULE
  }

  /** Setting a schedule stores all its fields, or nothing when it is refused. */
  function SetFeeSchedule(stored: Stored, d: Draft): (Stored, Option<ScheduleProblem>) {
    var problem := ValidateFeeSchedule(d);
    if problem.Some? then (stored, problem)
    else
      (Fields(Some(d.minAmountUgx), Some(d.maxAmountUgx), Some(d.bandSizeUgx), Some(d.baseFeeUgx), Some(d.stepFeeUgx)),
       None)
  }

  /** A schedule comes into force exactly as it was set, when it is valid; a refused one changes nothing. */
  lemma SetThenLoad(stored: Stored, d: Draft)
    ensures var (stored', problem) := SetFeeSchedule(stored, d);
            if problem == None then AreWhole(d) && LoadFeeSchedule(stored') == ScheduleOf(d)
            else LoadFeeSchedule(stored') == LoadFeeSchedule(stored)
  {
    if ValidateFeeSchedule(d) == None {
      var loaded := LoadFeeSchedule(SetFeeSchedule(stored, d).0);
      assert DraftOf(loaded) == DraftOf(ScheduleOf(d));
      SameDraftSameSchedule(loaded, ScheduleOf(d));
    }
  }

  lemma SameDraftSameSchedule(a: FeeSchedule, b: FeeSchedule)
    requires DraftOf(a) == DraftOf(b)
    ensures a == b
  {
  }

  function Band(amount: int, s: FeeSchedule): int
    requires Valid(s)
  {
    Max(0, CeilDiv(amount, s.bandSizeUgx) - 1)
  }

  /** The fee for withdrawing `amount`, which may be any JavaScript number. */
  function WithdrawalFee(amount: real, s: FeeSchedule): Result<int, FeeError>
    requires Valid(s)
  {
    if amount != amount.Floor as real then Err(NotWhole)
    else
      var whole := amount.Floor;
      if whole < s.minAmountUgx then Err(BelowMinimum)
      else if whole > s.maxAmountUgx then Err(AboveMaximum)
      else Ok(s.baseFeeUgx + Band(whole, s) * s.stepFeeUgx)
  }

  /** The dashboard's own copy of the formula. */
  function FeeFor(amount: real, s: FeeSchedule): Result<int, FeeError>
    requires Valid(s)
  {
    if amount != amount.Floor as real || amount <= 0.0 then Err(NotWhole)
    else
      var whole := amount.Floor;
      if whole < s.minAmountUgx then Err(BelowMinimum)
      else if whole > s.maxAmountUgx then Err(AboveMaximum)
      else Ok(s.baseFeeUgx + Max(0, CeilDiv(whole, s.bandSizeUgx) - 1) * s.stepFeeUgx)
  }

  predicate Allowed(amount: int, s: FeeSchedule) {
    s.minAmountUgx <= amount <= s.maxAmountUgx
  }

  /** The fee of an allowed amount. */
  function Fee(amount: int, s: FeeSchedule): int
    requires Valid(s) && Allowed(amount, s)
  {
    WithdrawalFee(amount as real, s).value
  }

  /** The fee is the base plus one step for every full band below the amount. */
  lemma FeeByBand(amount: int, s: FeeSchedule, band: int)
    requires Valid(s) && Allowed(amount, s) && band * s.bandSizeUgx < amount <= (band + 1) * s.bandSizeUgx
    ensures band >= 0 && WithdrawalFee(amount as real, s) == Ok(s.baseFeeUgx + band * s.stepFeeUgx)
  {
    var b := CeilDiv(amount, s.bandSizeUgx) - 1;
    if band < 0 { ScaleMonotone(band + 1, 0, s.bandSizeUgx); }
    if band < b { ScaleMonotone(band + 1, b, s.bandSizeUgx); }
    if band > b { ScaleMonotone(b + 1, band, s.bandSizeUgx); }
  }

  // ---- The dashboard preview agrees with the API ----

  lemma FeeForAgreesWithApi(amount: real, s: FeeSchedule)
    requires Valid(s)
    ensures WithdrawalFee(amount, s).Ok? <==> FeeFor(amount, s).Ok?
    ensures WithdrawalFee(amount, s).Ok? ==> FeeFor(amount, s) == WithdrawalFee(amount, s)
    ensures WithdrawalFee(amount, s).Ok? <==> (exists n: int :: amount == n as real && Allowed(n, s))
  {
    if WithdrawalFee(amount, s).Ok? {
      assert amount == amount.Floor as real && Allowed(amount.Floor, s);
    }
  }

  // ---- The total taken from the balance grows with the amount ----

  lemma CeilDivMonotone(a: int, b: int, d: int)
    requires d > 0 && a <= b
    ensures CeilDiv(a, d) <= CeilDiv(b, d)
  {
    var p, q := CeilDiv(a, d), CeilDiv(b, d);
    if p > q {
      assert (p - 1) * d >= q * d by { ScaleMonotone(q, p - 1, d); }
    }
  }

  lemma ScaleMonotone(x: int, y: int, d: int)
    requires x <= y && d >= 0
    ensures x * d <= y * d
  {
    assert (y - x) * d >= 0;
  }

  lemma FeeMonotone(a: int, b: int, s: FeeSchedule)
    requires Valid(s) && Allowed(a, s) && Allowed(b, s) && a <= b
    ensures 0 <= Fee(a, s) <= Fee(b, s)
  {
    CeilDivMonotone(a, b, s.bandSizeUgx);
    ScaleMonotone(0, Band(a, s), s.stepFeeUgx);
    ScaleMonotone(Band(a, s), Band(b, s), s.stepFeeUgx);
  }

  lemma TotalStrictlyIncreasing(a: int, b: int, s: FeeSchedule)
    requires Valid(s) && Allowed(a, s) && Allowed(b, s) && a < b
    ensures a + Fee(a, s) < b + Fee(b, s)
  {
    FeeMonotone(a, b, s);
  }

  // ---- The tier table ----

  /** The row the table shows for a band. */
  function Row(s: FeeSchedule, band: int): Tier {
    Tier(if band == 0 then s.minAmountUgx else band * s.bandSizeUgx + 1,
         Min((band + 1) * s.bandSizeUgx, s.maxAmountUgx),
         s.baseFeeUgx + band * s.stepFeeUgx)
  }

  /** Band 0 has a row unless the minimum lies beyond it. */
  function FirstBand(s: FeeSchedule): int { if s.minAmountUgx <= s.bandSizeUgx then 0 else 1 }

  /** How many bands hold an amount up to the maximum. */
  function BandCount(s: FeeSchedule): int
    requires Valid(s)
  {
    CeilDiv(s.maxAmountUgx, s.bandSizeUgx)
  }

  function TierTable(s: FeeSchedule, limit: nat): seq<Tier>
    requires Valid(s)
  {
    seq(Max(0, Min(limit, BandCount(s) - FirstBand(s))), i => Row(s, FirstBand(s) + i))
  }

  method FeeTiers(s: FeeSchedule, limit: nat) returns (tiers: seq<Tier>)
    requires Valid(s)
    ensures tiers == TierTable(s, limit)
  {
    tiers := [];
    var band := 0;
    while |tiers| < limit
      invariant 0 <= band <= BandCount(s)
      invariant |tiers| == Max(0, band - FirstBand(s)) <= limit
      invariant forall i :: 0 <= i < |tiers| ==> tiers[i] == Row(s, FirstBand(s) + i)
      decreases BandCount(s) - band
    {
      var from := if band == 0 then s.minAmountUgx else band * s.bandSizeUgx + 1;
      var to := Min((band + 1) * s.bandSizeUgx, s.maxAmountUgx);
      if from > s.maxAmountUgx {
        LastBandReached(s, band);
        break;
      }
      BandNotLast(s, band);
      if to >= from {
        tiers := tiers + [Tier(from, to, s.baseFeeUgx + band * s.stepFeeUgx)];
      }
      band := band + 1;
    }
  }

  lemma LastBandReached(s: FeeSchedule, band: int)
    requires Valid(s) && 0 <= band <= BandCount(s) && Row(s, band).fromUgx > s.maxAmountUgx
    ensures band == BandCount(s)
  {
    if band < BandCount(s) {
      ScaleMonotone(band, BandCount(s) - 1, s.bandSizeUgx);
    }
  }

  lemma BandNotLast(s: FeeSchedule, band: int)
    requires Valid(s) && 0 <= band <= BandCount(s) && Row(s, band).fromUgx <= s.maxAmountUgx
    ensures band < BandCount(s)
    ensures Row(s, band).toUgx >= Row(s, band).fromUgx <==> band >= FirstBand(s)
  {
    assert BandCount(s) * s.bandSizeUgx >= s.maxAmountUgx;
    if band > 0 {
      assert (band + 1) * s.bandSizeUgx == band * s.bandSizeUgx + s.bandSizeUgx;
    }
  }

  ghost predicate InTier(amount: int, t: Tier) { t.fromUgx <= amount <= t.toUgx }

  /** An amount lies in a row of the table exactly when that row is its band's row. */
  lemma RowOfAmount(amount: int, s: FeeSchedule, band: int)
    requires Valid(s) && Allowed(amount, s) && band >= FirstBand(s)
    ensures InTier(amount, Row(s, band)) <==> band == Band(amount, s)
  {
    var b := CeilDiv(amount, s.bandSizeUgx) - 1;
    assert b * s.bandSizeUgx < amount <= (b + 1) * s.bandSizeUgx;
    if b < 0 { ScaleMonotone(b + 1, 0, s.bandSizeUgx); }
    if band < b { ScaleMonotone(band + 1, b, s.bandSizeUgx); }
    if band > b { ScaleMonotone(b + 1, band, s.bandSizeUgx); }
  }

  lemma BandInRange(amount: int, s: FeeSchedule)
    requires Valid(s) && Allowed(amount, s)
    ensures FirstBand(s) <= Band(amount, s) < BandCount(s)
  {
    var b := CeilDiv(amount, s.bandSizeUgx) - 1;
    if b < 0 { ScaleMonotone(b + 1, 0, s.bandSizeUgx); }
    CeilDivMonotone(amount, s.maxAmountUgx, s.bandSizeUgx);
  }

  /**
   * With enough rows every allowed amount lies in exactly one tier, and that tier
   * shows the fee the API charges.
   */
  lemma EveryAmountInOneTier(amount: int, s: FeeSchedule, limit: nat)
    requires Valid(s) && Allowed(amount, s) && limit >= BandCount(s)
    ensures exists i :: 0 <= i < |TierTable(s, limit)| && InTier(amount, TierTable(s, limit)[i])
    ensures forall i :: 0 <= i < |TierTable(s, limit)| && InTier(amount, TierTable(s, limit)[i]) ==>
              i == Band(amount, s) - FirstBand(s) && TierTable(s, limit)[i].feeUgx == Fee(amount, s)
  {
    BandInRange(amount, s);
    var tiers := TierTable(s, limit);
    var k := Band(amount, s) - FirstBand(s);
    RowOfAmount(amount, s, FirstBand(s) + k);
    assert InTier(amount, tiers[k]);
    forall i | 0 <= i < |tiers| && InTier(amount, tiers[i])
      ensures i == k && tiers[i].feeUgx == Fee(amount, s)
    {
      RowOfAmount(amount, s, FirstBand(s) + i);
    }
  }

  /**
   * A cut-off table never shows a wrong fee: for any limit, an allowed amount is in a
   * row exactly when its band made the cut, and then with its own fee.
   */
  lemma ShortTableIsHonest(amount: int, s: FeeSchedule, limit: nat, i: nat)
    requires Valid(s) && Allowed(amount, s) && i < |TierTable(s, limit)|
    ensures InTier(amount, TierTable(s, limit)[i]) <==> i == Band(amount, s) - FirstBand(s)
    ensures InTier(amount, TierTable(s, limit)[i]) ==> TierTable(s, limit)[i].feeUgx == Fee(amount, s)
  {
    RowOfAmount(amount, s, FirstBand(s) + i);
  }

  /**
   * The table shows only allowed amounts exactly when the minimum is at most one past
   * the first band; otherwise its first row starts below the minimum.
   */
  lemma TableShowsOnlyAllowedAmounts(s: FeeSchedule, limit: nat)
    requires Valid(s) && limit > 0
    ensures (forall i, a :: 0 <= i < |TierTable(s, limit)| && InTier(a, TierTable(s, limit)[i]) ==> Allowed(a, s))
            <==> s.minAmountUgx <= s.bandSizeUgx + 1
  {
    var tiers := TierTable(s, limit);
    if s.minAmountUgx <= s.bandSizeUgx + 1 {
      forall i, a | 0 <= i < |tiers| && InTier(a, tiers[i])
        ensures Allowed(a, s)
      {
        assert tiers[i] == Row(s, FirstBand(s) + i);
        if FirstBand(s) + i > 0 { ScaleMonotone(1, FirstBand(s) + i, s.bandSizeUgx); }
      }
    } else {
      BandInRange(s.maxAmountUgx, s);
      BandInRange(s.minAmountUgx, s);
      assert BandCount(s) >= 2;
      assert s.bandSizeUgx < s.maxAmountUgx;
      assert tiers[0] == Row(s, 1);
      assert InTier(s.bandSizeUgx + 1, tiers[0]) && !Allowed(s.bandSizeUgx + 1, s);
    }
  }

  /** A valid schedule whose first row starts at 1,001 although nothing under 5,000 may be withdrawn. */
  lemma TableCanStartBelowMinimum()
    ensures var s := FeeSchedule(5000, 7_000_000, 1000, 2500, 500);
            Valid(s) && |TierTable(s, 12)| == 12 && TierTable(s, 12)[0].fromUgx == 1001
  {
    var s := FeeSchedule(5000, 7_000_000, 1000, 2500, 500);
    assert BandCount(s) == 7000 && FirstBand(s) == 1;
    assert Row(s, 1) == Tier(1001, 2000, 3000);
  }

  // ---- The largest affordable amount ----

  predicate Affordable(amount: int, available: int, s: FeeSchedule)
    requires Valid(s)
  {
    Allowed(amount, s) && amount + Fee(amount, s) <= available
  }

  lemma AffordableIsDownwardClosed(a: int, b: int, available: int, s: FeeSchedule)
    requires Valid(s) && s.minAmountUgx <= a <= b && Affordable(b, available, s)
    ensures Affordable(a, available, s)
  {
    FeeMonotone(a, b, s);
  }

  /** Some number in n, n/2, n/4, ... is affordable. */
  predicate SomeHalfFits(n: int, available: int, s: FeeSchedule)
    requires Valid(s)
    decreases n
  {
    n > 0 && (Affordable(n, available, s) || SomeHalfFits(n / 2, available, s))
  }

  /** Exclusive upper end of the dashboard's search. */
  function SearchEnd(available: int, s: FeeSchedule): int {
    Min(available, s.maxAmountUgx) + 1
  }

  ghost predicate IsLargestAffordable(r: int, available: int, s: FeeSchedule)
    requires Valid(s)
  {
    Affordable(r, available, s) && forall a :: a > r ==> !Affordable(a, available, s)
  }

  /** What the tile promises: the largest affordable amount, or zero when nothing fits. */
  ghost predicate IsRightAnswer(r: int, available: int, s: FeeSchedule)
    requires Valid(s)
  {
    if exists a :: Affordable(a, available, s) then IsLargestAffordable(r, available, s) else r == 0
  }

  lemma HalfNeverFitsBelowMinimum(n: int, available: int, s: FeeSchedule)
    requires Valid(s) && n < s.minAmountUgx
    ensures !SomeHalfFits(n, available, s)
    decreases n
  {
    if n > 0 { HalfNeverFitsBelowMinimum(n / 2, available, s); }
  }

  /** What one probe of the search finds out. */
  lemma ProbeDecides(mid: int, available: int, s: FeeSchedule)
    requires Valid(s) && mid > 0
    ensures FeeFor(mid as real, s).Ok? && mid + FeeFor(mid as real, s).value <= available
            <==> Affordable(mid, available, s)
    ensures if Affordable(mid, available, s) then mid >= s.minAmountUgx && SomeHalfFits(mid, available, s)
            else SomeHalfFits(mid, available, s) <==> SomeHalfFits(mid / 2, available, s)
  {
    FeeForAgreesWithApi(mid as real, s);
  }

  lemma NothingFitsBelowNothing(hi: int, available: int, s: FeeSchedule)
    requires Valid(s)
    ensures hi <= 0 ==> !SomeHalfFits((hi + 1) / 2, available, s)
    ensures forall a :: a > Min(available, s.maxAmountUgx) ==> !Affordable(a, available, s)
  {
    if hi <= 0 { assert (hi + 1) / 2 <= 0; }
  }

  lemma FoundIsLargest(lo: int, hi: int, available: int, s: FeeSchedule)
    requires Valid(s) && lo >= hi && (lo == 0 || (lo == hi && Affordable(lo, available, s)))
    requires lo != 0 ==> forall a :: a > hi ==> !Affordable(a, available, s)
    ensures lo != 0 ==> lo >= s.minAmountUgx && IsLargestAffordable(lo, available, s)
    ensures lo < s.minAmountUgx || lo != 0
  {
  }

  /**
   * The search goes down by halves from the end until a probe fits, then homes in.
   * It therefore finds the largest affordable amount exactly when some half fits.
   */
  method MaxWithdrawable(available: int, s: FeeSchedule) returns (r: int)
    requires Valid(s)
    ensures r != 0 ==> IsLargestAffordable(r, available, s)
    ensures r != 0 <==> SomeHalfFits(SearchEnd(available, s) / 2, available, s)
    ensures IsRightAnswer(r, available, s) <==>
              SomeHalfFits(SearchEnd(available, s) / 2, available, s) || !Affordable(s.minAmountUgx, available, s)
  {
    hide SomeHalfFits, Affordable, FeeFor, Valid, IsLargestAffordable, IsRightAnswer;
    var lo := 0;
    var hi := Min(available, s.maxAmountUgx);
    ghost var fits := SomeHalfFits((hi + 1) / 2, available, s);
    NothingFitsBelowNothing(hi, available, s);
    while lo < hi
      invariant 0 <= lo <= Max(0, hi)
      invariant lo == 0 || (s.minAmountUgx <= lo <= hi && Affordable(lo, available, s))
      invariant lo == 0 ==> fits == SomeHalfFits((hi + 1) / 2, available, s)
      invariant lo != 0 ==> fits
      invariant lo != 0 || fits ==> forall a :: a > hi ==> !Affordable(a, available, s)
      decreases hi - lo
    {
      var mid := CeilDiv(lo + hi, 2);
      var q := FeeFor(mid as real, s);
      ProbeDecides(mid, available, s);
      if q.Ok? && mid + q.value <= available {
        lo := mid;
      } else {
        if lo != 0 || fits { ProbeTooHigh(mid, lo, available, s); }
        hi := mid - 1;
      }
    }
    NothingFitsBelowNothing(hi, available, s);
    FoundIsLargest(lo, hi, available, s);
    r := if lo >= s.minAmountUgx then lo else 0;
    RightExactlyWhen(r, available, s);
  }

  /**
   * Something fits exactly when the minimum does, so a zero is wrong exactly when the
   * minimum fits and no half does; never once twice the minimum fits.
   */
  lemma MaxWithdrawableRightWhen(available: int, s: FeeSchedule)
    requires Valid(s)
    ensures (exists a :: Affordable(a, available, s)) <==> Affordable(s.minAmountUgx, available, s)
    ensures SomeHalfFits(SearchEnd(available, s) / 2, available, s) ==> Affordable(s.minAmountUgx, available, s)
    ensures Affordable(2 * s.minAmountUgx - 1, available, s) ==> SomeHalfFits(SearchEnd(available, s) / 2, available, s)
  {
    forall a | Affordable(a, available, s)
      ensures Affordable(s.minAmountUgx, available, s)
    {
      AffordableIsDownwardClosed(s.minAmountUgx, a, available, s);
    }
    var n := SearchEnd(available, s) / 2;
    if SomeHalfFits(n, available, s) { HalfFitsMeansSomeFits(n, available, s); }
    if Affordable(2 * s.minAmountUgx - 1, available, s) {
      FeeMonotone(s.minAmountUgx, 2 * s.minAmountUgx - 1, s);
      HalvesReachWideRange(n, available, s);
    }
  }

  lemma RightExactlyWhen(r: int, available: int, s: FeeSchedule)
    requires Valid(s)
    requires r != 0 ==> IsLargestAffordable(r, available, s)
    requires r != 0 <==> SomeHalfFits(SearchEnd(available, s) / 2, available, s)
    ensures IsRightAnswer(r, available, s) <==>
              SomeHalfFits(SearchEnd(available, s) / 2, available, s) || !Affordable(s.minAmountUgx, available, s)
  {
    MaxWithdrawableRightWhen(available, s);
  }

  /** A failed probe with a success below it, or with a half that fits, was too high. */
  lemma ProbeTooHigh(mid: int, lo: int, available: int, s: FeeSchedule)
    requires Valid(s) && 0 <= lo < mid && !Affordable(mid, available, s)
    requires if lo == 0 then SomeHalfFits(mid, available, s) else lo >= s.minAmountUgx
    ensures forall a :: a > mid - 1 ==> !Affordable(a, available, s)
  {
    if mid < s.minAmountUgx { HalfNeverFitsBelowMinimum(mid, available, s); }
    forall a | a >= mid
      ensures !Affordable(a, available, s)
    {
      if Affordable(a, available, s) { AffordableIsDownwardClosed(mid, a, available, s); }
    }
  }

  lemma HalfFitsMeansSomeFits(n: int, available: int, s: FeeSchedule)
    requires Valid(s) && SomeHalfFits(n, available, s)
    ensures exists a :: Affordable(a, available, s)
    decreases n
  {
    if !Affordable(n, available, s) { HalfFitsMeansSomeFits(n / 2, available, s); }
  }

  lemma HalvesReachWideRange(n: int, available: int, s: FeeSchedule)
    requires Valid(s) && Affordable(2 * s.minAmountUgx - 1, available, s) && n >= s.minAmountUgx
    ensures SomeHalfFits(n, available, s)
    decreases n
  {
    if n <= 2 * s.minAmountUgx - 1 {
      AffordableIsDownwardClosed(n, 2 * s.minAmountUgx - 1, available, s);
    } else {
      HalvesReachWideRange(n / 2, available, s);
    }
  }

  /** The default schedule at UGX 3,000: 500 fits, yet the search answers zero. */
  lemma ZeroCanBeWrong()
    ensures Valid(DEFAULT_FEE_SCHEDULE)
    ensures IsLargestAffordable(500, 3000, DEFAULT_FEE_SCHEDULE)
    ensures !SomeHalfFits(SearchEnd(3000, DEFAULT_FEE_SCHEDULE) / 2, 3000, DEFAULT_FEE_SCHEDULE)
  {
    var s := DEFAULT_FEE_SCHEDULE;
    assert Valid(s) && Fee(500, s) == 2500;
    forall a | a > 500
      ensures !Affordable(a, 3000, s)
    {
      if Allowed(a, s) { FeeMonotone(500, a, s); }
    }
    HalfNeverFitsBelowMinimum(375, 3000, s);
    assert !SomeHalfFits(750, 3000, s);
    assert !SomeHalfFits(1500, 3000, s);
  }
}
