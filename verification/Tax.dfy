/**
 Nepal TDS: tax on annual income by progressive slabs, computed by a loop that stops early, against the
 closed form that adds up each slab's rate times the part of the income inside the slab.
 */
module Tax {
  import opened Prelude
  import opened Money

  // ---- Configuration ----

  /** The JSON value stored under `tds_slabs`; `None` is a field that is absent or not a number. */
  datatype RawSlab = RawSlab(limit: Option<real>, rate: Option<real>)

  datatype RawConfig = RawConfig(firstSlabRate: Option<real>, slabs: Option<seq<RawSlab>>,
                                 marriedFirstSlab: Option<real>, unmarriedFirstSlab: Option<real>)

  /** A width of 0 in the configuration stands for an unbounded slab. */
  datatype Width = Bounded(w: real) | Unbounded

  datatype Slab = Slab(width: Width, rate: real)

  predicate ValidateRawSlab(s: RawSlab) {
    && s.rate.Some? && 0.0 <= s.rate.value <= 50.0
    && s.limit.Some? && (s.limit.value == 0.0 || s.limit.value > 0.0)
  }

  predicate ValidateTDSConfig(config: Option<RawConfig>) {
    && config.Some?
    && config.value.firstSlabRate.Some? && 0.0 <= config.value.firstSlabRate.value <= 50.0
    && config.value.slabs.Some?
    && forall i :: 0 <= i < |config.value.slabs.value| ==> ValidateRawSlab(config.value.slabs.value[i])
  }

  const DEFAULT_SLABS: seq<RawSlab> := [
    RawSlab(Some(200000.0), Some(10.0)),
    RawSlab(Some(300000.0), Some(20.0)),
    RawSlab(Some(1000000.0), Some(30.0)),
    RawSlab(Some(3000000.0), Some(36.0)),
    RawSlab(Some(0.0), Some(39.0))
  ]

  function OrElse(o: Option<real>, default: real): real { if o.Some? then o.value else default }

  function FirstSlab(config: Option<RawConfig>, isMarried: bool): real {
    if !ValidateTDSConfig(config) then if isMarried then 600000.0 else 500000.0
    else if isMarried then OrElse(config.value.marriedFirstSlab, 600000.0)
    else OrElse(config.value.unmarriedFirstSlab, 500000.0)
  }

  /** The SSF waiver sets the first rate to zero. */
  function FirstRate(config: Option<RawConfig>, ssfEnabled: bool): real {
    if ssfEnabled then 0.0
    else (if ValidateTDSConfig(config) then config.value.firstSlabRate.value else 1.0) / 100.0
  }

  function ToSlab(s: RawSlab): Slab
    requires ValidateRawSlab(s)
  {
    Slab(if s.limit.value == 0.0 then Unbounded else Bounded(s.limit.value), s.rate.value / 100.0)
  }

  function RawSlabs(config: Option<RawConfig>): (raw: seq<RawSlab>)
    ensures forall i :: 0 <= i < |raw| ==> ValidateRawSlab(raw[i])
  {
    if ValidateTDSConfig(config) then config.value.slabs.value else DEFAULT_SLABS
  }

  function LaterSlabs(config: Option<RawConfig>): seq<Slab> {
    var raw := RawSlabs(config);
    seq(|raw|, i requires 0 <= i < |raw| => ToSlab(raw[i]))
  }

  function Slabs(config: Option<RawConfig>, isMarried: bool, ssfEnabled: bool): seq<Slab> {
    [Slab(Bounded(FirstSlab(config, isMarried)), FirstRate(config, ssfEnabled))] + LaterSlabs(config)
  }

  /** Widths that are not negative and rates between 0 and 1. */
  ghost predicate Proper(slabs: seq<Slab>) {
    forall i :: 0 <= i < |slabs| ==>
      (slabs[i].width.Bounded? ==> slabs[i].width.w >= 0.0) && 0.0 <= slabs[i].rate <= 1.0
  }

  /** validateTDSConfig does not look at the first-slab widths; when the width is not negative, the slabs
      of any configuration are proper. */
  lemma SlabsAreProper(config: Option<RawConfig>, isMarried: bool, ssfEnabled: bool)
    ensures FirstSlab(config, isMarried) >= 0.0 <==> Proper(Slabs(config, isMarried, ssfEnabled))
    ensures Proper(LaterSlabs(config)) && PositiveWidths(LaterSlabs(config))
  {
    var slabs, later, raw := Slabs(config, isMarried, ssfEnabled), LaterSlabs(config), RawSlabs(config);
    assert forall i :: 0 <= i < |later| ==> ValidateRawSlab(raw[i]) && later[i] == ToSlab(raw[i]);
    assert slabs[0] == Slab(Bounded(FirstSlab(config, isMarried)), FirstRate(config, ssfEnabled));
    assert forall i :: 0 < i < |slabs| ==> slabs[i] == later[i - 1];
  }

  ghost predicate PositiveWidths(slabs: seq<Slab>) {
    forall i :: 0 <= i < |slabs| && slabs[i].width.Bounded? ==> slabs[i].width.w > 0.0
  }

  // ---- The loop ----

  function Below(x: real, c: Width): real { if c.Bounded? then MinReal(x, c.w) else x }

  /** What the loop adds for one slab. */
  function Charge(rate: real, amount: real): real { rate * amount }

  /** What the loop still adds when `remaining` income is left for these slabs. */
  ghost function LoopTax(slabs: seq<Slab>, remaining: real): real {
    if slabs == [] || remaining <= 0.0 then 0.0
    else
      var taxable := Below(remaining, slabs[0].width);
      Charge(slabs[0].rate, taxable) + LoopTax(slabs[1..], remaining - taxable)
  }

  ghost function MonthlyTDS(config: Option<RawConfig>, isMarried: bool, ssfEnabled: bool, annualIncome: real): int {
    RoundHalfUp(LoopTax(Slabs(config, isMarried, ssfEnabled), annualIncome) / 12.0)
  }

  method CalculateNepalTDS(annualIncome: real, isMarried: bool, config: Option<RawConfig>, ssfEnabled: bool)
    returns (monthly: int)
    ensures monthly == MonthlyTDS(config, isMarried, ssfEnabled, annualIncome)
  {
    hide RawSlabs;
    var isValid := ValidateTDSConfig(config);
    var firstSlabRate, firstSlab := 1.0 / 100.0, if isMarried then 600000.0 else 500000.0;
    if isValid {
      var stored := if isMarried then config.value.marriedFirstSlab else config.value.unmarriedFirstSlab;
      firstSlabRate, firstSlab := config.value.firstSlabRate.value / 100.0, OrElse(stored, firstSlab);
    }
    if ssfEnabled {
      firstSlabRate := 0.0;
    }
    var slabs := [Slab(Bounded(firstSlab), firstSlabRate)] + LaterSlabs(config);
    assert slabs == Slabs(config, isMarried, ssfEnabled);
    hide ValidateTDSConfig, Slabs, FirstSlab, FirstRate, LaterSlabs;
    var tax, remaining := 0.0, annualIncome;
    for i := 0 to |slabs|
      invariant tax + LoopTax(slabs[i..], remaining) == LoopTax(slabs, annualIncome)
    {
      hide Charge;
      if remaining <= 0.0 {
        break;
      }
      var slab := slabs[i];
      var taxable := Below(remaining, slab.width);
      tax := tax + Charge(slab.rate, taxable);
      remaining := remaining - taxable;
      assert slabs[i..][1..] == slabs[i + 1..];
    }
    monthly := RoundHalfUp(tax / 12.0);
  }

  // ---- The closed form ----

  function Plus(c: Width, w: Width): Width {
    if c.Bounded? && w.Bounded? then Bounded(c.w + w.w) else Unbounded
  }

  /** Where slab n begins: the widths of the slabs before it. */
  ghost function StartOf(slabs: seq<Slab>, n: nat): Width
    requires n <= |slabs|
  {
    if n == 0 then Bounded(0.0) else Plus(StartOf(slabs, n - 1), slabs[n - 1].width)
  }

  /** The part of income x between two points: max(0, min(x, to) - from). */
  function Part(x: real, from: Width, to: Width): real {
    if from.Unbounded? then 0.0 else MaxReal(0.0, Below(x, to) - from.w)
  }

  /** Tax of the first n slabs: the sum of rate times the part of the income inside each. */
  ghost function Tax(slabs: seq<Slab>, n: nat, x: real): real
    requires n <= |slabs|
  {
    if n == 0 then 0.0
    else Tax(slabs, n - 1, x) + Charge(slabs[n - 1].rate, Part(x, StartOf(slabs, n - 1), StartOf(slabs, n)))
  }

  ghost function AnnualTax(slabs: seq<Slab>, x: real): real { Tax(slabs, |slabs|, x) }

  lemma {:induction false} StartAfterFirst(first: Slab, rest: seq<Slab>, n: nat)
    requires n <= |rest|
    ensures StartOf([first] + rest, n + 1) == Plus(first.width, StartOf(rest, n))
  {
    var all := [first] + rest;
    if n == 0 {
      assert StartOf(all, 1) == Plus(StartOf(all, 0), all[0].width);
    } else {
      StartAfterFirst(first, rest, n - 1);
      assert all[n] == rest[n - 1];
    }
  }

  ghost function AfterFirst(first: Slab, rest: seq<Slab>, n: nat, x: real): real
    requires n <= |rest|
  {
    if first.width.Bounded? then Tax(rest, n, x - first.width.w) else 0.0
  }

  lemma {:induction false} TaxAfterFirst(first: Slab, rest: seq<Slab>, n: nat, x: real)
    requires n <= |rest|
    ensures Tax([first] + rest, n + 1, x)
            == Charge(first.rate, MaxReal(0.0, Below(x, first.width))) + AfterFirst(first, rest, n, x)
  {
    hide Charge;
    var all := [first] + rest;
    StartAfterFirst(first, rest, n);
    if n == 0 {
      assert Tax(all, 1, x) == Tax(all, 0, x) + Charge(first.rate, Part(x, StartOf(all, 0), StartOf(all, 1)));
    } else {
      TaxAfterFirst(first, rest, n - 1, x);
      StartAfterFirst(first, rest, n - 1);
      assert all[n] == rest[n - 1];
      if first.width.Bounded? {
        assert Part(x, StartOf(all, n), StartOf(all, n + 1))
            == Part(x - first.width.w, StartOf(rest, n - 1), StartOf(rest, n));
      } else {
        ChargeNothing(all[n].rate);
      }
    }
  }

  lemma ChargeNothing(rate: real)
    ensures Charge(rate, 0.0) == 0.0
  {
  }

  lemma ChargeZeroRate(amount: real)
    ensures Charge(0.0, amount) == 0.0
  {
  }

  /** Taking off the first slab shifts the rest of the schedule down by its width. */
  lemma Peel(slabs: seq<Slab>, x: real)
    requires slabs != []
    ensures AnnualTax(slabs, x) == Charge(slabs[0].rate, MaxReal(0.0, Below(x, slabs[0].width)))
                                   + AfterFirst(slabs[0], slabs[1..], |slabs| - 1, x)
  {
    assert slabs == [slabs[0]] + slabs[1..];
    TaxAfterFirst(slabs[0], slabs[1..], |slabs| - 1, x);
  }

  lemma {:induction false} NoTaxOnNoIncome(slabs: seq<Slab>, x: real)
    requires Proper(slabs) && x <= 0.0
    ensures AnnualTax(slabs, x) == 0.0
  {
    hide Charge;
    if slabs != [] {
      Peel(slabs, x);
      ChargeNothing(slabs[0].rate);
      if slabs[0].width.Bounded? {
        NoTaxOnNoIncome(slabs[1..], x - slabs[0].width.w);
      }
    }
  }

  /** For any proper slabs and any income, the early-exit loop computes the closed form. */
  lemma {:induction false} LoopIsClosedForm(slabs: seq<Slab>, x: real)
    requires Proper(slabs)
    ensures LoopTax(slabs, x) == AnnualTax(slabs, x)
  {
    hide Charge;
    if slabs == [] {
    } else if x <= 0.0 {
      NoTaxOnNoIncome(slabs, x);
    } else {
      Peel(slabs, x);
      if slabs[0].width.Bounded? {
        var w := slabs[0].width.w;
        LoopIsClosedForm(slabs[1..], x - MinReal(x, w));
        if x < w {
          NoTaxOnNoIncome(slabs[1..], x - x);
          NoTaxOnNoIncome(slabs[1..], x - w);
        }
      } else {
        LoopIsClosedForm(slabs[1..], x - x);
        NoTaxOnNoIncome(slabs[1..], x - x);
      }
    }
  }

  // ---- Tax and income ----

  lemma ChargeBounds(rate: real, p: real, q: real)
    requires 0.0 <= rate <= 1.0 && p <= q
    ensures Charge(rate, p) <= Charge(rate, q)
    ensures Charge(rate, q) - Charge(rate, p) <= q - p
    ensures 0.0 <= p ==> 0.0 <= Charge(rate, p)
  {
    if 0.0 <= p {
      assert 0.0 <= rate * p;
    }
    assert 0.0 <= rate * (q - p);
    assert 0.0 <= (1.0 - rate) * (q - p);
  }

  lemma {:induction false} TaxGrowth(slabs: seq<Slab>, x: real, y: real)
    requires Proper(slabs) && x <= y
    ensures 0.0 <= AnnualTax(slabs, x) <= AnnualTax(slabs, y)
    ensures AnnualTax(slabs, y) - AnnualTax(slabs, x) <= MaxReal(0.0, y) - MaxReal(0.0, x)
  {
    hide Charge;
    if slabs != [] {
      Peel(slabs, x);
      Peel(slabs, y);
      var width := slabs[0].width;
      ChargeBounds(slabs[0].rate, MaxReal(0.0, Below(x, width)), MaxReal(0.0, Below(y, width)));
      if width.Bounded? {
        TaxGrowth(slabs[1..], x - width.w, y - width.w);
      }
    }
  }

  lemma MonthlyIsMonotone(a: real, b: real)
    requires a <= b
    ensures RoundHalfUp(a / 12.0) <= RoundHalfUp(b / 12.0)
  {
    FloorIsMonotone(a / 12.0 + 0.5, b / 12.0 + 0.5);
  }

  // ---- The first slab, of either sign: validateTDSConfig does not look at it ----

  /** For a positive income the loop charges the first slab on the part below its width, all of it when the
      width is negative, and the other slabs on the rest. */
  lemma LoopAfterFirst(w: real, r: real, later: seq<Slab>, x: real)
    requires x > 0.0 && Proper(later)
    ensures LoopTax([Slab(Bounded(w), r)] + later, x)
            == Charge(r, MinReal(x, w)) + AnnualTax(later, x - MinReal(x, w))
  {
    var slabs := [Slab(Bounded(w), r)] + later;
    assert slabs[1..] == later;
    LoopIsClosedForm(later, x - MinReal(x, w));
  }

  /** What the tax tends to as the income falls to zero: nothing, unless the first slab is negative. Then it is
      the tax of the other slabs on the width, less what the first slab gives back. */
  ghost function TaxAtZero(config: Option<RawConfig>, isMarried: bool, ssfEnabled: bool): real {
    var w := FirstSlab(config, isMarried);
    if w >= 0.0 then 0.0 else AnnualTax(LaterSlabs(config), -w) - Charge(FirstRate(config, ssfEnabled), -w)
  }

  lemma GrowthAfterFirst(w: real, r: real, later: seq<Slab>, x: real, y: real)
    requires 0.0 < x <= y && Proper(later) && 0.0 <= r <= 1.0
    ensures var slabs := [Slab(Bounded(w), r)] + later;
            0.0 <= LoopTax(slabs, y) - LoopTax(slabs, x) <= y - x
  {
    hide Charge, AnnualTax, LoopTax, Proper;
    LoopAfterFirst(w, r, later, x);
    LoopAfterFirst(w, r, later, y);
    var p, q := MinReal(x, w), MinReal(y, w);
    ChargeBounds(r, p, q);
    TaxGrowth(later, x - p, y - q);
  }

  lemma StartsAfterFirst(w: real, r: real, later: seq<Slab>, x: real)
    requires 0.0 < x && Proper(later) && 0.0 <= r <= 1.0
    ensures var slabs := [Slab(Bounded(w), r)] + later;
            var start := if w >= 0.0 then 0.0 else AnnualTax(later, -w) - Charge(r, -w);
            start <= LoopTax(slabs, x) <= start + x
  {
    hide Charge, AnnualTax, LoopTax, Proper;
    LoopAfterFirst(w, r, later, x);
    if w >= 0.0 {
      var p := MinReal(x, w);
      ChargeBounds(r, 0.0, p);
      TaxGrowth(later, 0.0, x - p);
      NoTaxOnNoIncome(later, 0.0);
      ChargeNothing(r);
    } else {
      TaxGrowth(later, -w, x - w);
      ChargeNegative(r, w);
    }
  }

  lemma ChargeNegative(r: real, w: real)
    ensures Charge(r, w) == -Charge(r, -w)
  {
  }

  lemma FirstRateBounds(config: Option<RawConfig>, ssfEnabled: bool)
    ensures 0.0 <= FirstRate(config, ssfEnabled) <= 1.0
  {
  }

  /** Among positive incomes tax never falls as income rises, and neither does income after tax, for every
      configuration. */
  lemma TaxGrowsWithIncome(config: Option<RawConfig>, isMarried: bool, ssfEnabled: bool, x: real, y: real)
    requires 0.0 < x <= y
    ensures var slabs := Slabs(config, isMarried, ssfEnabled);
            LoopTax(slabs, x) <= LoopTax(slabs, y) && x - LoopTax(slabs, x) <= y - LoopTax(slabs, y)
    ensures MonthlyTDS(config, isMarried, ssfEnabled, x) <= MonthlyTDS(config, isMarried, ssfEnabled, y)
  {
    var slabs := Slabs(config, isMarried, ssfEnabled);
    SlabsAreProper(config, isMarried, ssfEnabled);
    FirstRateBounds(config, ssfEnabled);
    GrowthAfterFirst(FirstSlab(config, isMarried), FirstRate(config, ssfEnabled), LaterSlabs(config), x, y);
    MonthlyIsMonotone(LoopTax(slabs, x), LoopTax(slabs, y));
    hide LoopTax, FirstSlab, FirstRate, LaterSlabs;
  }

  lemma TaxStartsAt(config: Option<RawConfig>, isMarried: bool, ssfEnabled: bool, x: real)
    requires 0.0 < x
    ensures var slabs, start := Slabs(config, isMarried, ssfEnabled), TaxAtZero(config, isMarried, ssfEnabled);
            start <= LoopTax(slabs, x) <= start + x
  {
    SlabsAreProper(config, isMarried, ssfEnabled);
    FirstRateBounds(config, ssfEnabled);
    StartsAfterFirst(FirstSlab(config, isMarried), FirstRate(config, ssfEnabled), LaterSlabs(config), x);
  }

  ghost predicate NeverRefunds(slabs: seq<Slab>) { forall x: real :: LoopTax(slabs, x) >= 0.0 }

  ghost predicate TaxIsMonotone(slabs: seq<Slab>) {
    forall x: real, y: real :: x <= y ==> LoopTax(slabs, x) <= LoopTax(slabs, y)
  }

  ghost predicate TakeHomeIsMonotone(slabs: seq<Slab>) {
    forall x: real, y: real :: x <= y ==> x - LoopTax(slabs, x) <= y - LoopTax(slabs, y)
  }

  /** Over all incomes: tax never falls as income rises, and none is refunded, exactly when the tax does not
      start below zero; income after tax never falls exactly when it does not start above zero. */
  lemma TaxAndTakeHomeAreMonotoneIff(config: Option<RawConfig>, isMarried: bool, ssfEnabled: bool)
    ensures var slabs, start := Slabs(config, isMarried, ssfEnabled), TaxAtZero(config, isMarried, ssfEnabled);
            && (TaxIsMonotone(slabs) <==> start >= 0.0)
            && (NeverRefunds(slabs) <==> start >= 0.0)
            && (TakeHomeIsMonotone(slabs) <==> start <= 0.0)
  {
    var slabs, start := Slabs(config, isMarried, ssfEnabled), TaxAtZero(config, isMarried, ssfEnabled);
    forall x: real, y: real | x <= y
      ensures x <= 0.0 ==> LoopTax(slabs, x) == 0.0
      ensures 0.0 < y ==> start <= LoopTax(slabs, y) <= start + y
      ensures 0.0 < x ==> LoopTax(slabs, x) <= LoopTax(slabs, y) && x - LoopTax(slabs, x) <= y - LoopTax(slabs, y)
    {
      if 0.0 < x {
        TaxGrowsWithIncome(config, isMarried, ssfEnabled, x, y);
      }
      if 0.0 < y {
        TaxStartsAt(config, isMarried, ssfEnabled, y);
      }
    }
    hide LoopTax, TaxAtZero, Slabs;
    assert LoopTax(slabs, 0.0) == 0.0;
    if start < 0.0 {
      assert LoopTax(slabs, -start / 2.0) < 0.0;
    } else if start > 0.0 {
      assert start / 2.0 - LoopTax(slabs, start / 2.0) < 0.0;
    }
  }

  /** The monthly tax is then never negative and never falls. */
  lemma MonthlyTaxIsMonotone(config: Option<RawConfig>, isMarried: bool, ssfEnabled: bool, x: real, y: real)
    requires TaxAtZero(config, isMarried, ssfEnabled) >= 0.0 && x <= y
    ensures 0 <= MonthlyTDS(config, isMarried, ssfEnabled, x) <= MonthlyTDS(config, isMarried, ssfEnabled, y)
  {
    var slabs := Slabs(config, isMarried, ssfEnabled);
    TaxAndTakeHomeAreMonotoneIff(config, isMarried, ssfEnabled);
    assert LoopTax(slabs, x) >= 0.0;
    MonthlyIsMonotone(0.0, LoopTax(slabs, x));
    MonthlyIsMonotone(LoopTax(slabs, x), LoopTax(slabs, y));
  }

  /** Both failures are reachable: with a negative first slab a configuration that validates can refund tax. */
  lemma NegativeFirstSlabRefunds()
    ensures var config := Some(RawConfig(Some(12.0), Some([RawSlab(Some(0.0), Some(0.0))]), None, Some(-1000.0)));
            ValidateTDSConfig(config) && MonthlyTDS(config, false, false, 1.0) == -10
  {
    var config := Some(RawConfig(Some(12.0), Some([RawSlab(Some(0.0), Some(0.0))]), None, Some(-1000.0)));
    TwoSlabs(config, 0.0, 0.12);
    assert LoopTax(Slabs(config, false, false), 1.0) == -120.0;
  }

  /** Or it can take more than the whole of a small income. */
  lemma NegativeFirstSlabTakesAll()
    ensures var config := Some(RawConfig(Some(1.0), Some([RawSlab(Some(0.0), Some(10.0))]), None, Some(-1000.0)));
            ValidateTDSConfig(config) && LoopTax(Slabs(config, false, false), 1.0) == 90.1
  {
    TwoSlabs(Some(RawConfig(Some(1.0), Some([RawSlab(Some(0.0), Some(10.0))]), None, Some(-1000.0))), 0.1, 0.01);
  }

  lemma TwoSlabs(config: Option<RawConfig>, rate: real, first: real)
    requires config == Some(RawConfig(Some(first * 100.0), Some([RawSlab(Some(0.0), Some(rate * 100.0))]), None,
                                      Some(-1000.0)))
    requires ValidateTDSConfig(config)
    ensures LoopTax(Slabs(config, false, false), 1.0) == rate * 1001.0 - first * 1000.0
  {
    var slabs := Slabs(config, false, false);
    assert RawSlabs(config) == [RawSlab(Some(0.0), Some(rate * 100.0))];
    assert slabs[1] == Slab(Unbounded, rate);
    assert slabs == [Slab(Bounded(-1000.0), first), Slab(Unbounded, rate)];
    assert slabs[1..] == [Slab(Unbounded, rate)] && slabs[1..][1..] == [];
    assert LoopTax(slabs[1..], 1001.0) == rate * 1001.0;
  }

  /** The SSF waiver lowers the annual tax on a positive income by exactly the first rate on the part of it in
      the first slab. */
  lemma SsfWaiver(config: Option<RawConfig>, isMarried: bool, x: real)
    ensures LoopTax(Slabs(config, isMarried, false), x)
            == LoopTax(Slabs(config, isMarried, true), x)
               + if x > 0.0 then Charge(FirstRate(config, false), MinReal(x, FirstSlab(config, isMarried))) else 0.0
  {
    if x > 0.0 {
      SlabsAreProper(config, isMarried, false);
      LoopAfterFirst(FirstSlab(config, isMarried), FirstRate(config, false), LaterSlabs(config), x);
      LoopAfterFirst(FirstSlab(config, isMarried), 0.0, LaterSlabs(config), x);
      ChargeZeroRate(MinReal(x, FirstSlab(config, isMarried)));
    }
  }

  // ---- A wider first slab ----

  /** Every rate up to and including the first unbounded slab is at least r; without an unbounded slab the
      rate above the last one is 0. */
  predicate RatesAtLeast(r: real, slabs: seq<Slab>) {
    if slabs == [] then r <= 0.0
    else slabs[0].rate >= r && (slabs[0].width.Unbounded? || RatesAtLeast(r, slabs[1..]))
  }

  lemma ChargeAtLeast(r: real, rate: real, p: real, q: real)
    requires r <= rate && p <= q
    ensures Charge(rate, q) - Charge(rate, p) >= Charge(r, q - p)
  {
    assert (rate - r) * (q - p) >= 0.0;
  }

  lemma ChargeAdds(r: real, p: real, q: real)
    ensures Charge(r, p) + Charge(r, q) == Charge(r, p + q)
  {
  }

  lemma {:induction false} SteepTax(r: real, slabs: seq<Slab>, z: real, y: real)
    requires Proper(slabs) && RatesAtLeast(r, slabs) && 0.0 <= r && 0.0 <= z <= y
    ensures AnnualTax(slabs, y) - AnnualTax(slabs, z) >= Charge(r, y - z)
  {
    if slabs == [] {
      assert r == 0.0;
    } else {
      hide Charge;
      Peel(slabs, z);
      Peel(slabs, y);
      var width := slabs[0].width;
      var p, q := Below(z, width), Below(y, width);
      ChargeAtLeast(r, slabs[0].rate, p, q);
      if width.Bounded? {
        var rest, a, b := slabs[1..], MaxReal(0.0, z - width.w), MaxReal(0.0, y - width.w);
        SteepTax(r, rest, a, b);
        if z < width.w {
          NoTaxOnNoIncome(rest, z - width.w);
          NoTaxOnNoIncome(rest, a);
        }
        if y < width.w {
          NoTaxOnNoIncome(rest, y - width.w);
          NoTaxOnNoIncome(rest, b);
        }
        ChargeAdds(r, q - p, b - a);
      }
    }
  }

  lemma {:induction false} ShallowTax(r: real, slabs: seq<Slab>) returns (z: real, y: real)
    requires Proper(slabs) && PositiveWidths(slabs) && !RatesAtLeast(r, slabs)
    ensures 0.0 <= z <= y && AnnualTax(slabs, y) - AnnualTax(slabs, z) < Charge(r, y - z)
  {
    if slabs == [] {
      z, y := 0.0, 1.0;
    } else if slabs[0].rate < r {
      z, y := 0.0, if slabs[0].width.Bounded? then slabs[0].width.w else 1.0;
      Peel(slabs, z);
      Peel(slabs, y);
      if slabs[0].width.Bounded? {
        NoTaxOnNoIncome(slabs[1..], z - y);
        NoTaxOnNoIncome(slabs[1..], y - y);
      }
      assert (r - slabs[0].rate) * y > 0.0;
    } else {
      var w := slabs[0].width.w;
      var z', y' := ShallowTax(r, slabs[1..]);
      z, y := z' + w, y' + w;
      Peel(slabs, z);
      Peel(slabs, y);
    }
  }

  ghost predicate WiderIsNeverDearer(r: real, later: seq<Slab>) {
    forall narrow: real, wide: real, x: real | narrow <= wide ::
      LoopTax([Slab(Bounded(wide), r)] + later, x) <= LoopTax([Slab(Bounded(narrow), r)] + later, x)
  }

  lemma WiderFirstSlab(r: real, later: seq<Slab>, narrow: real, wide: real, x: real)
    requires Proper(later) && RatesAtLeast(r, later) && 0.0 <= r && narrow <= wide
    ensures LoopTax([Slab(Bounded(wide), r)] + later, x) <= LoopTax([Slab(Bounded(narrow), r)] + later, x)
  {
    if x > 0.0 {
      hide Charge, AnnualTax, LoopTax, RatesAtLeast, Proper;
      LoopAfterFirst(narrow, r, later, x);
      LoopAfterFirst(wide, r, later, x);
      var p, q := MinReal(x, narrow), MinReal(x, wide);
      SteepTax(r, later, x - q, x - p);
      ChargeAdds(r, p, q - p);
      assert (x - p) - (x - q) == q - p && p + (q - p) == q;
    }
  }

  /** A wider first slab never costs more, at any income and any pair of widths, exactly when no rate above
      it is lower than the first rate, up to an unbounded slab. */
  lemma WiderIsNeverDearerIff(r: real, later: seq<Slab>)
    requires Proper(later) && PositiveWidths(later) && 0.0 <= r <= 1.0
    ensures WiderIsNeverDearer(r, later) <==> RatesAtLeast(r, later)
  {
    if RatesAtLeast(r, later) {
      forall narrow: real, wide: real, x: real | narrow <= wide
        ensures LoopTax([Slab(Bounded(wide), r)] + later, x) <= LoopTax([Slab(Bounded(narrow), r)] + later, x)
      {
        WiderFirstSlab(r, later, narrow, wide, x);
      }
    } else {
      var z, y := ShallowTax(r, later);
      ShallowIsDearer(r, later, z, y);
    }
  }

  lemma ShallowIsDearer(r: real, later: seq<Slab>, z: real, y: real)
    requires Proper(later) && 0.0 <= z <= y && AnnualTax(later, y) - AnnualTax(later, z) < Charge(r, y - z)
    ensures LoopTax([Slab(Bounded(y - z), r)] + later, y) > LoopTax([Slab(Bounded(0.0), r)] + later, y)
  {
    ChargeNothing(r);
    assert z < y;
    LoopAfterFirst(y - z, r, later, y);
    LoopAfterFirst(0.0, r, later, y);
    assert y - MinReal(y, y - z) == z && y - MinReal(y, 0.0) == y;
  }

  /** Married employees pay no more than unmarried ones when the married slab is at least as wide and no
      later rate undercuts the first. The default configuration is such a case. */
  lemma MarriedPaysNoMore(config: Option<RawConfig>, ssfEnabled: bool, x: real)
    requires FirstSlab(config, false) <= FirstSlab(config, true)
    requires RatesAtLeast(FirstRate(config, ssfEnabled), LaterSlabs(config))
    ensures LoopTax(Slabs(config, true, ssfEnabled), x) <= LoopTax(Slabs(config, false, ssfEnabled), x)
    ensures MonthlyTDS(config, true, ssfEnabled, x) <= MonthlyTDS(config, false, ssfEnabled, x)
  {
    SlabsAreProper(config, true, ssfEnabled);
    FirstRateBounds(config, ssfEnabled);
    WiderFirstSlab(FirstRate(config, ssfEnabled), LaterSlabs(config), FirstSlab(config, false),
                   FirstSlab(config, true), x);
    MonthlyIsMonotone(LoopTax(Slabs(config, true, ssfEnabled), x), LoopTax(Slabs(config, false, ssfEnabled), x));
  }

  lemma DefaultNeverUndercuts(config: Option<RawConfig>, ssfEnabled: bool)
    requires !ValidateTDSConfig(config)
    ensures RatesAtLeast(FirstRate(config, ssfEnabled), LaterSlabs(config))
  {
    var later, r := LaterSlabs(config), FirstRate(config, ssfEnabled);
    var s0, s1, s2, s3, s4 := later[0], later[1], later[2], later[3], later[4];
    var raw := RawSlabs(config);
    assert |raw| == 5 && raw == DEFAULT_SLABS;
    assert s0 == ToSlab(raw[0]) && s1 == ToSlab(raw[1]) && s2 == ToSlab(raw[2]) && s3 == ToSlab(raw[3])
        && s4 == ToSlab(raw[4]);
    assert later == [s0, s1, s2, s3, s4];
    assert RatesAtLeast(r, [s4]);
    assert RatesAtLeast(r, [s3, s4]) by { assert [s3, s4][1..] == [s4]; }
    assert RatesAtLeast(r, [s2, s3, s4]) by { assert [s2, s3, s4][1..] == [s3, s4]; }
    assert RatesAtLeast(r, [s1, s2, s3, s4]) by { assert [s1, s2, s3, s4][1..] == [s2, s3, s4]; }
    assert later[1..] == [s1, s2, s3, s4];
  }

  // ---- The tax in the figures of the configuration ----

  predicate IsPercentage(rate: real) { 0.0 <= rate <= 50.0 }

  /** A slab as the settings describe it: a percentage, and a width or 0. */
  predicate IsUsable(s: RawSlab) { s.rate.Some? && IsPercentage(s.rate.value) && s.limit.Some? && s.limit.value >= 0.0 }

  ghost predicate AllUsable(raw: seq<RawSlab>) { forall i :: 0 <= i < |raw| ==> IsUsable(raw[i]) }

  /** The part of an income between two points. */
  function Between(from: real, until: real, x: real): real { MaxReal(0.0, MinReal(x, until) - from) }

  /** What the stored slabs take of the part of income x above `from`; a limit of 0 has no end. */
  ghost function Owed(raw: seq<RawSlab>, from: real, x: real): real
    requires AllUsable(raw)
  {
    if raw == [] then 0.0
    else
      var limit, rate := raw[0].limit.value, raw[0].rate.value / 100.0;
      if limit == 0.0 then Charge(rate, MaxReal(0.0, x - from))
      else Charge(rate, Between(from, from + limit, x)) + Owed(raw[1..], from + limit, x)
  }

  ghost function ToSlabs(raw: seq<RawSlab>): seq<Slab>
    requires AllUsable(raw)
  {
    seq(|raw|, i requires 0 <= i < |raw| && IsUsable(raw[i]) => ToSlab(raw[i]))
  }

  lemma {:induction false} LoopTakesOwed(raw: seq<RawSlab>, from: real, x: real)
    requires AllUsable(raw)
    ensures LoopTax(ToSlabs(raw), x - from) == Owed(raw, from, x)
    decreases |raw|
  {
    hide Charge;
    if raw != [] {
      var limit, rest := raw[0].limit.value, raw[1..];
      assert ToSlabs(raw)[1..] == ToSlabs(rest);
      ChargeNothing(raw[0].rate.value / 100.0);
      LoopTakesOwed(rest, from + limit, x);
      if limit != 0.0 && from + limit <= x {
        assert x - from - limit == x - (from + limit);
      }
    }
  }

  /** The annual tax in the figures of a stored configuration whose rates are percentages up to 50: the first rate
      on the income up to the width for the marital status, 600000 or 500000 if none is stored, unless the
      employee contributes to SSF; and each later rate on the part of the income in its slab. */
  lemma ConfiguredTax(config: RawConfig, isMarried: bool, ssfEnabled: bool, x: real, w: real)
    requires config.firstSlabRate.Some? && IsPercentage(config.firstSlabRate.value)
    requires config.slabs.Some? && AllUsable(config.slabs.value)
    requires w == match if isMarried then config.marriedFirstSlab else config.unmarriedFirstSlab
                  case Some(width) => width
                  case None => if isMarried then 600000.0 else 500000.0
    requires x > 0.0
    ensures LoopTax(Slabs(Some(config), isMarried, ssfEnabled), x)
            == (if ssfEnabled then 0.0 else Charge(config.firstSlabRate.value / 100.0, MinReal(x, w)))
               + Owed(config.slabs.value, w, x)
  {
    var raw, slabs := config.slabs.value, Slabs(Some(config), isMarried, ssfEnabled);
    assert ValidateTDSConfig(Some(config)) && FirstSlab(Some(config), isMarried) == w;
    FirstThenOwed(raw, slabs, w, FirstRate(Some(config), ssfEnabled), x);
    ChargeZeroRate(MinReal(x, w));
  }

  lemma FirstThenOwed(raw: seq<RawSlab>, slabs: seq<Slab>, w: real, r: real, x: real)
    requires AllUsable(raw)
    requires slabs == [Slab(Bounded(w), r)] + ToSlabs(raw) && x > 0.0
    ensures LoopTax(slabs, x) == Charge(r, MinReal(x, w)) + Owed(raw, w, x)
  {
    hide Charge, Owed;
    assert slabs[1..] == ToSlabs(raw);
    LoopTakesOwed(raw, w, x);
    hide ToSlabs;
    if x > w {
      assert LoopTax(slabs, x) == Charge(r, w) + LoopTax(ToSlabs(raw), x - w);
    }
  }

  /** So up to the width for the marital status exactly the first rate is taken. */
  lemma FirstSlabTax(config: RawConfig, isMarried: bool, x: real, w: real)
    requires config.firstSlabRate.Some? && IsPercentage(config.firstSlabRate.value)
    requires config.slabs.Some? && AllUsable(config.slabs.value)
    requires w == match if isMarried then config.marriedFirstSlab else config.unmarriedFirstSlab
                  case Some(width) => width
                  case None => if isMarried then 600000.0 else 500000.0
    requires 0.0 < x <= w
    ensures LoopTax(Slabs(Some(config), isMarried, false), x) == config.firstSlabRate.value / 100.0 * x
    ensures LoopTax(Slabs(Some(config), isMarried, true), x) == 0.0
  {
    ConfiguredTax(config, isMarried, false, x, w);
    ConfiguredTax(config, isMarried, true, x, w);
    LoopTakesOwed(config.slabs.value, w, x);
    assert LoopTax(ToSlabs(config.slabs.value), x - w) == 0.0;
    hide Owed, Slabs;
  }

  /** Without a configuration that can be used: 1, 10, 20, 30, 36 and 39 percent. */
  lemma DefaultTax(config: Option<RawConfig>, isMarried: bool, ssfEnabled: bool, x: real, w: real)
    requires config.None? || config.value.firstSlabRate.None? || !IsPercentage(config.value.firstSlabRate.value)
             || config.value.slabs.None? || !AllUsable(config.value.slabs.value)
    requires w == (if isMarried then 600000.0 else 500000.0) && x > 0.0
    ensures LoopTax(Slabs(config, isMarried, ssfEnabled), x)
            == (if ssfEnabled then 0.0 else 0.01 * MinReal(x, w))
               + 0.10 * Between(w, w + 200000.0, x) + 0.20 * Between(w + 200000.0, w + 500000.0, x)
               + 0.30 * Between(w + 500000.0, w + 1500000.0, x) + 0.36 * Between(w + 1500000.0, w + 4500000.0, x)
               + 0.39 * MaxReal(0.0, x - w - 4500000.0)
  {
    assert !ValidateTDSConfig(config) by {
      if config.Some? && config.value.slabs.Some? && !AllUsable(config.value.slabs.value) {
        var i :| 0 <= i < |config.value.slabs.value| && !IsUsable(config.value.slabs.value[i]);
        assert !ValidateRawSlab(config.value.slabs.value[i]);
      }
    }
    var raw := DEFAULT_SLABS;
    assert LaterSlabs(config) == ToSlabs(raw);
    FirstThenOwed(raw, Slabs(config, isMarried, ssfEnabled), w, if ssfEnabled then 0.0 else 0.01, x);
    DefaultOwed(w, x);
    hide Owed, LoopTax, ToSlabs, LaterSlabs;
  }

  lemma DefaultOwed(w: real, x: real)
    ensures AllUsable(DEFAULT_SLABS)
    ensures Owed(DEFAULT_SLABS, w, x)
            == 0.10 * Between(w, w + 200000.0, x) + 0.20 * Between(w + 200000.0, w + 500000.0, x)
               + 0.30 * Between(w + 500000.0, w + 1500000.0, x) + 0.36 * Between(w + 1500000.0, w + 4500000.0, x)
               + 0.39 * MaxReal(0.0, x - w - 4500000.0)
  {
    var a, b, c, d, e := DEFAULT_SLABS[0], DEFAULT_SLABS[1], DEFAULT_SLABS[2], DEFAULT_SLABS[3], DEFAULT_SLABS[4];
    assert DEFAULT_SLABS == [a, b, c, d, e];
    assert [a, b, c, d, e][1..] == [b, c, d, e] && [b, c, d, e][1..] == [c, d, e];
    assert [c, d, e][1..] == [d, e] && [d, e][1..] == [e];
    assert Owed([e], w + 4500000.0, x) == 0.39 * MaxReal(0.0, x - w - 4500000.0);
    assert Owed([d, e], w + 1500000.0, x)
        == 0.36 * Between(w + 1500000.0, w + 4500000.0, x) + Owed([e], w + 4500000.0, x);
    assert Owed([c, d, e], w + 500000.0, x)
        == 0.30 * Between(w + 500000.0, w + 1500000.0, x) + Owed([d, e], w + 1500000.0, x);
    assert Owed([b, c, d, e], w + 200000.0, x)
        == 0.20 * Between(w + 200000.0, w + 500000.0, x) + Owed([c, d, e], w + 500000.0, x);
  }

  /** Marriage then saves nine percent of what lies between the two widths: 100 rupees of income above 500000 cost
      an unmarried employee 10 and a married one 1. */
  lemma MarriageSaves(config: Option<RawConfig>, x: real)
    requires !ValidateTDSConfig(config) && 500000.0 < x <= 600000.0
    ensures LoopTax(Slabs(config, false, false), x)
            == LoopTax(Slabs(config, true, false), x) + 0.09 * (x - 500000.0)
    ensures LoopTax(Slabs(config, true, false), x) < LoopTax(Slabs(config, false, false), x)
  {
    DefaultTax(config, false, false, x, 500000.0);
    DefaultTax(config, true, false, x, 600000.0);
    hide LoopTax, Slabs;
  }

  /** The monthly tax is a twelfth of the annual one to the nearest rupee, halves up. */
  lemma MonthlyIsTwelfth(config: Option<RawConfig>, isMarried: bool, ssfEnabled: bool, x: real)
    ensures var annual := LoopTax(Slabs(config, isMarried, ssfEnabled), x);
            var monthly := MonthlyTDS(config, isMarried, ssfEnabled, x) as real;
            12.0 * monthly - 6.0 <= annual < 12.0 * monthly + 6.0
    ensures x <= 0.0 ==> MonthlyTDS(config, isMarried, ssfEnabled, x) == 0
  {
    hide Slabs;
  }
}
