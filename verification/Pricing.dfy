/** Cost, credit and margin arithmetic: integers throughout, rounded once and in a stated direction. */
module Pricing {
  import opened Text

  datatype BillingUnit = Tokens1k | Image | Second | Character | PerRequest

  datatype UsageUnits = UsageUnits(promptTokens: nat, completionTokens: nat, images: nat, seconds: nat, characters: nat)

  datatype CreditRule = CreditRule(task: string, model: string, base: nat, perUnit: nat, unit: BillingUnit)

  /** A model's provider rates; absent until an operator enters them. */
  datatype CostBasis = CostBasis(model: string, inputRate: Option<nat>, outputRate: Option<nat>, unit: BillingUnit)

  const BASIS_POINTS := 10_000
  const MICRO := 1_000_000

  function BillableMilliUnits(usage: UsageUnits, unit: BillingUnit): nat {
    match unit
    case Tokens1k => usage.promptTokens + usage.completionTokens
    case Image => usage.images * 1000
    case Second => usage.seconds * 1000
    case Character => usage.characters * 1000
    case PerRequest => 1000
  }

  /** Usage adds up unit by unit: a token of either kind is a thousandth, everything else a whole unit, the request one. */
  lemma UnitsAddUp(a: UsageUnits, b: UsageUnits, unit: BillingUnit)
    ensures var both := UsageUnits(a.promptTokens + b.promptTokens, a.completionTokens + b.completionTokens, a.images + b.images,
                                   a.seconds + b.seconds, a.characters + b.characters);
            unit != PerRequest ==> BillableMilliUnits(both, unit) == BillableMilliUnits(a, unit) + BillableMilliUnits(b, unit)
    ensures BillableMilliUnits(UsageUnits(1, 0, 0, 0, 0), unit) == (if unit == Tokens1k then 1 else if unit == PerRequest then 1000 else 0)
    ensures BillableMilliUnits(UsageUnits(0, 1, 0, 0, 0), unit) == (if unit == Tokens1k then 1 else if unit == PerRequest then 1000 else 0)
    ensures BillableMilliUnits(UsageUnits(0, 0, 1, 0, 0), unit) == (if unit in {Image, PerRequest} then 1000 else 0)
    ensures BillableMilliUnits(UsageUnits(0, 0, 0, 1, 0), unit) == (if unit in {Second, PerRequest} then 1000 else 0)
    ensures BillableMilliUnits(UsageUnits(0, 0, 0, 0, 1), unit) == (if unit in {Character, PerRequest} then 1000 else 0)
    ensures BillableMilliUnits(a, PerRequest) == 1000
  {
  }

  /** The least integer whose product with the denominator covers the numerator. */
  function DivideRoundingUp(n: int, d: int): (q: nat)
    requires 0 < d
    ensures n <= q * d
    ensures 0 < n ==> (q - 1) * d < n
    ensures n <= 0 ==> q == 0
  {
    if n <= 0 then 0
    else
      var q := (n + d - 1) / d;
      assert n + d - 1 == q * d + (n + d - 1) % d;
      assert (q - 1) * d == q * d - d;
      assert 0 <= q by {
        if q <= -1 {
          MulMonotone(q, -1, d);
        }
      }
      q
  }

  /** Division as JavaScript's BigInt does it: toward zero. */
  function TruncDiv(a: int, b: int): int
    requires b != 0
  {
    var q := Abs(a) / Abs(b);
    if (a < 0) == (b < 0) then q else -q
  }

  function Abs(x: int): nat {
    if x < 0 then -x else x
  }

  lemma MulMonotone(a: int, b: int, c: int)
    requires a <= b && 0 <= c
    ensures a * c <= b * c
  {
    assert b * c - a * c == (b - a) * c;
  }

  lemma RoundingUpIsMonotone(m: int, n: int, d: int)
    requires m <= n && 0 < d
    ensures DivideRoundingUp(m, d) <= DivideRoundingUp(n, d)
  {
    var p, q := DivideRoundingUp(m, d), DivideRoundingUp(n, d);
    if q < p {
      MulMonotone(q, p - 1, d);
    }
  }

  // --- Credits -------------------------------------------------------------------------------------

  /** The charge before rounding, in ten-millionths of a milli-credit. */
  function ScaledCharge(units: nat, rule: CreditRule, multiplier: nat): nat {
    (rule.base * 1000 + units * rule.perUnit) * multiplier
  }

  const SCALE := 1000 * 10_000

  /** A negative multiplier throws. */
  function CreditsChargedMilli(usage: UsageUnits, rule: CreditRule, multiplier: int): (r: Option<nat>)
    ensures r.None? <==> multiplier < 0
  {
    if multiplier < 0 then None
    else Some(DivideRoundingUp(ScaledCharge(BillableMilliUnits(usage, rule.unit), rule, multiplier), SCALE))
  }

  /**
   * Every charge is the exact rational, rounded up once: in real arithmetic, base plus units times rate,
   * times the multiplier, lies in the half-open unit below the charge.
   */
  lemma ChargeIsTheExactRationalRoundedUpOnce(usage: UsageUnits, rule: CreditRule, multiplier: nat)
    ensures var charge := CreditsChargedMilli(usage, rule, multiplier).value as real;
            var units := BillableMilliUnits(usage, rule.unit) as real / 1000.0;
            var exact := (rule.base as real + units * rule.perUnit as real) * (multiplier as real / 10000.0);
            exact <= charge && (0.0 < exact ==> charge - 1.0 < exact) && (exact == 0.0 ==> charge == 0.0)
  {
    var q := CreditsChargedMilli(usage, rule, multiplier).value;
    var u := BillableMilliUnits(usage, rule.unit);
    var units := u as real / 1000.0;
    var exact := (rule.base as real + units * rule.perUnit as real) * (multiplier as real / 10000.0);
    ScaledIsExact(u, rule, multiplier);
    FromScaled(ScaledCharge(u, rule, multiplier), q, exact);
  }

  lemma FromScaled(n: nat, q: nat, exact: real)
    requires n as real == exact * 10000000.0
    requires n <= q * SCALE && (0 < n ==> (q - 1) * SCALE < n) && (n == 0 ==> q == 0)
    ensures exact <= q as real && (0.0 < exact ==> q as real - 1.0 < exact) && (exact == 0.0 ==> q as real == 0.0)
  {
    assert n as real <= (q * SCALE) as real == q as real * 10000000.0;
    if 0 < n {
      assert n as real > ((q - 1) * SCALE) as real == (q as real - 1.0) * 10000000.0;
    }
  }

  lemma ScaledIsExact(u: nat, rule: CreditRule, multiplier: nat)
    ensures var exact := (rule.base as real + (u as real / 1000.0) * rule.perUnit as real) * (multiplier as real / 10000.0);
            ScaledCharge(u, rule, multiplier) as real == exact * 10000000.0
  {
    var b, p, m := rule.base as real, rule.perUnit as real, multiplier as real;
    var inner := rule.base * 1000 + u * rule.perUnit;
    assert (u * rule.perUnit) as real == u as real * p;
    assert inner as real == b * 1000.0 + u as real * p;
    assert (inner * multiplier) as real == inner as real * m;
    var x := b + (u as real / 1000.0) * p;
    assert (u as real / 1000.0) * p == u as real * p / 1000.0;
    assert inner as real == x * 1000.0;
    assert x * (m / 10000.0) * 10000000.0 == x * m * 1000.0;
    assert (x * 1000.0) * m == x * m * 1000.0;
  }

  /** More units never cost less. */
  lemma ChargeIsMonotone(rule: CreditRule, a: UsageUnits, b: UsageUnits, multiplier: nat)
    requires BillableMilliUnits(a, rule.unit) <= BillableMilliUnits(b, rule.unit)
    ensures CreditsChargedMilli(a, rule, multiplier).value <= CreditsChargedMilli(b, rule, multiplier).value
  {
    var u, v := BillableMilliUnits(a, rule.unit), BillableMilliUnits(b, rule.unit);
    MulMonotone(u, v, rule.perUnit);
    MulMonotone(rule.base * 1000 + u * rule.perUnit, rule.base * 1000 + v * rule.perUnit, multiplier);
    RoundingUpIsMonotone(ScaledCharge(u, rule, multiplier), ScaledCharge(v, rule, multiplier), SCALE);
  }

  /** The first rule for the pair; there is no fallback rule. */
  function FindCreditRule(rules: seq<CreditRule>, task: string, model: string): (r: Option<CreditRule>)
    ensures r.Some? ==> r.value in rules && r.value.task == task && r.value.model == model
    ensures r.None? ==> forall rule :: rule in rules ==> rule.task != task || rule.model != model
  {
    if rules == [] then None
    else if rules[0].task == task && rules[0].model == model then Some(rules[0])
    else FindCreditRule(rules[1..], task, model)
  }

  /** The charge of one model for one usage; absent when the lookup or the arithmetic throws. */
  function ChargeOn(rules: seq<CreditRule>, task: string, model: string, usage: UsageUnits, multiplier: int): Option<nat> {
    var rule := FindCreditRule(rules, task, model);
    if rule.None? then None else CreditsChargedMilli(usage, rule.value, multiplier)
  }

  /** What one request reserves: the dearest worst case along its chain, or a throw if any link is unpriced. */
  method ReservationEstimate(rules: seq<CreditRule>, task: string, chain: seq<string>, worst: UsageUnits, multiplier: int)
    returns (r: Option<nat>)
    ensures r.Some? <==> Priced(rules, task, chain, worst, multiplier)
    ensures r.Some? ==> IsDearest(rules, task, chain, worst, multiplier, r.value)
  {
    var highest := 0;
    for i := 0 to |chain|
      invariant Priced(rules, task, chain[..i], worst, multiplier)
      invariant IsDearest(rules, task, chain[..i], worst, multiplier, highest)
    {
      var estimate := ChargeOn(rules, task, chain[i], worst, multiplier);
      if estimate.None? {
        assert chain[i] in chain;
        return None;
      }
      assert chain[..i + 1] == chain[..i] + [chain[i]];
      highest := if estimate.value > highest then estimate.value else highest;
    }
    assert chain[..|chain|] == chain;
    return Some(highest);
  }

  ghost predicate Priced(rules: seq<CreditRule>, task: string, chain: seq<string>, worst: UsageUnits, multiplier: int) {
    forall m :: m in chain ==> ChargeOn(rules, task, m, worst, multiplier).Some?
  }

  /** An upper bound of every member's charge that some member attains (or zero, for an empty chain). */
  ghost predicate IsDearest(rules: seq<CreditRule>, task: string, chain: seq<string>, worst: UsageUnits, multiplier: int, bound: nat)
    requires Priced(rules, task, chain, worst, multiplier)
  {
    && (forall m :: m in chain ==> ChargeOn(rules, task, m, worst, multiplier).value <= bound)
    && (bound == 0 || exists m :: m in chain && ChargeOn(rules, task, m, worst, multiplier).value == bound)
  }

  /**
   * Settling never exceeds the reservation, whichever model of the chain answered, as long as the usage it
   * reports bills no more units than the worst case in that model's own unit. And once the reservation was
   * sized, the rule lookup inside the walk cannot fail.
   */
  lemma ChargeWithinReservation(rules: seq<CreditRule>, task: string, chain: seq<string>, worst: UsageUnits,
                                multiplier: int, reserved: nat, answered: string, usage: UsageUnits)
    requires Priced(rules, task, chain, worst, multiplier) && IsDearest(rules, task, chain, worst, multiplier, reserved)
    requires answered in chain
    ensures FindCreditRule(rules, task, answered).Some?
    ensures ChargeOn(rules, task, answered, usage, multiplier).Some?
    ensures var unit := FindCreditRule(rules, task, answered).value.unit;
            BillableMilliUnits(usage, unit) <= BillableMilliUnits(worst, unit) ==>
              ChargeOn(rules, task, answered, usage, multiplier).value <= reserved
  {
    assert ChargeOn(rules, task, answered, worst, multiplier).Some?;
    var rule := FindCreditRule(rules, task, answered).value;
    if BillableMilliUnits(usage, rule.unit) <= BillableMilliUnits(worst, rule.unit) {
      ChargeIsMonotone(rule, usage, worst, multiplier);
    }
  }

  /** A quote over the whole chain is at least what any narrowed chain reserves, and exact when nothing is dropped. */
  lemma QuoteCoversReservation(rules: seq<CreditRule>, task: string, chain: seq<string>, affordable: seq<string>,
                               worst: UsageUnits, multiplier: int, quoted: nat, reserved: nat)
    requires forall m :: m in affordable ==> m in chain
    requires Priced(rules, task, chain, worst, multiplier) && IsDearest(rules, task, chain, worst, multiplier, quoted)
    requires Priced(rules, task, affordable, worst, multiplier) && IsDearest(rules, task, affordable, worst, multiplier, reserved)
    ensures reserved <= quoted
    ensures (forall m :: m in chain ==> m in affordable) ==> reserved == quoted
  {
  }

  // --- What the worst case is worst for ------------------------------------------------------------------

  /** `chars`: the prompt and its context together. */
  datatype Input = TextInput(chars: nat) | ImageInput(count: nat)

  /** Prompt length is known; the output is assumed as long as the route allows. */
  function WorstCaseUsage(input: Input, maxOutputTokens: nat): UsageUnits {
    match input
    case ImageInput(count) => UsageUnits(0, 0, count, 0, 0)
    case TextInput(chars) => UsageUnits(DivideRoundingUp(chars, 4), maxOutputTokens, 0, 0, 0)
  }

  /** Usage that keeps to what was asked for. What the request says nothing about, an adapter may report freely. */
  predicate WithinRequest(input: Input, maxOutputTokens: nat, usage: UsageUnits) {
    match input
    case ImageInput(count) => usage.images <= count
    case TextInput(chars) => usage.promptTokens <= DivideRoundingUp(chars, 4) && usage.completionTokens <= maxOutputTokens
  }

  /** A rule whose unit is what the request limits: tokens for a text, images for an image, or the request itself. */
  predicate Limits(input: Input, unit: BillingUnit) {
    unit == PerRequest || unit == if input.TextInput? then Tokens1k else Image
  }

  /** Usage of this many units beyond the worst case, in a unit the request does not limit. */
  function Excess(unit: BillingUnit, n: nat): UsageUnits {
    match unit
    case Tokens1k => UsageUnits(1000 * n, 0, 0, 0, 0)
    case Image => UsageUnits(0, 0, n, 0, 0)
    case Second => UsageUnits(0, 0, 0, n, 0)
    case Character => UsageUnits(0, 0, 0, 0, n)
    case PerRequest => UsageUnits(0, 0, 0, 0, 0)
  }

  lemma ExcessCostsMore(rule: CreditRule, input: Input, maxOutputTokens: nat, multiplier: nat, reserved: nat)
    requires !Limits(input, rule.unit) && 0 < rule.perUnit * multiplier
    ensures WithinRequest(input, maxOutputTokens, Excess(rule.unit, 10_000 * (reserved + 1)))
    ensures CreditsChargedMilli(Excess(rule.unit, 10_000 * (reserved + 1)), rule, multiplier).value > reserved
  {
    var n := 10_000 * (reserved + 1);
    var units := BillableMilliUnits(Excess(rule.unit, n), rule.unit);
    assert units == 1000 * n == SCALE * (reserved + 1);
    var inner, k := rule.base * 1000 + units * rule.perUnit, rule.perUnit * multiplier;
    assert inner * multiplier == rule.base * 1000 * multiplier + units * k by {
      assert (units * rule.perUnit) * multiplier == units * (rule.perUnit * multiplier);
    }
    assert units <= units * k by {
      MulMonotone(1, k, units);
      assert 1 * units == units && k * units == units * k;
    }
    var q := DivideRoundingUp(ScaledCharge(units, rule, multiplier), SCALE);
    assert SCALE * (reserved + 1) <= q * SCALE;
    if q <= reserved {
      MulMonotone(q, reserved, SCALE);
    }
  }

  /** With no price per unit, or a multiplier of zero, units do not matter. */
  lemma UnitsAreFree(rule: CreditRule, usage: UsageUnits, worst: UsageUnits, multiplier: nat)
    requires rule.perUnit * multiplier == 0
    ensures CreditsChargedMilli(usage, rule, multiplier) == CreditsChargedMilli(worst, rule, multiplier)
  {
    var u, v := BillableMilliUnits(usage, rule.unit), BillableMilliUnits(worst, rule.unit);
    if rule.perUnit == 0 {
      assert u * rule.perUnit == v * rule.perUnit == 0;
    } else {
      assert 0 < multiplier ==> rule.perUnit <= rule.perUnit * multiplier;
    }
  }

  lemma WithinTheWorstCase(input: Input, maxOutputTokens: nat, usage: UsageUnits, unit: BillingUnit)
    requires WithinRequest(input, maxOutputTokens, usage) && Limits(input, unit)
    ensures BillableMilliUnits(usage, unit) <= BillableMilliUnits(WorstCaseUsage(input, maxOutputTokens), unit)
  {
  }

  /** The worst case keeps to the request itself, so the bounds it is sized by are reached. */
  lemma WorstCaseIsWithin(input: Input, maxOutputTokens: nat)
    ensures var worst := WorstCaseUsage(input, maxOutputTokens);
            && WithinRequest(input, maxOutputTokens, worst)
            && (input.TextInput? ==> worst.completionTokens == maxOutputTokens && input.chars <= 4 * worst.promptTokens < input.chars + 4)
            && (input.ImageInput? ==> worst.images == input.count && worst.promptTokens + worst.completionTokens == 0)
            && worst.seconds == 0 && worst.characters == 0
  {
  }

  /**
   * When the worst case is the worst: whatever usage the model that answered reports within the request, its charge is
   * covered by the reservation, if and only if its rule bills what the request limits, or bills no units at all. Seconds
   * and characters are never limited, nor tokens of an image or images of a text.
   */
  lemma ReservationCoversExactly(rules: seq<CreditRule>, task: string, chain: seq<string>, input: Input, maxOutputTokens: nat,
                                 multiplier: nat, reserved: nat, answered: string)
    requires var worst := WorstCaseUsage(input, maxOutputTokens);
             Priced(rules, task, chain, worst, multiplier) && IsDearest(rules, task, chain, worst, multiplier, reserved)
    requires answered in chain
    ensures FindCreditRule(rules, task, answered).Some?
    ensures var rule := FindCreditRule(rules, task, answered).value;
            (forall usage :: WithinRequest(input, maxOutputTokens, usage) ==> ChargeOn(rules, task, answered, usage, multiplier).value <= reserved)
            <==> Limits(input, rule.unit) || rule.perUnit * multiplier == 0
  {
    var worst := WorstCaseUsage(input, maxOutputTokens);
    assert ChargeOn(rules, task, answered, worst, multiplier).Some?;
    var rule := FindCreditRule(rules, task, answered).value;
    if Limits(input, rule.unit) || rule.perUnit * multiplier == 0 {
      forall usage | WithinRequest(input, maxOutputTokens, usage)
        ensures ChargeOn(rules, task, answered, usage, multiplier).value <= reserved
      {
        if Limits(input, rule.unit) {
          WithinTheWorstCase(input, maxOutputTokens, usage, rule.unit);
          ChargeIsMonotone(rule, usage, worst, multiplier);
        } else {
          UnitsAreFree(rule, usage, worst, multiplier);
        }
      }
    } else {
      ExcessCostsMore(rule, input, maxOutputTokens, multiplier, reserved);
    }
  }

  // --- Provider cost and the per-request ceiling --------------------------------------------------------

  /** Absent when a rate has not been entered: that throws. */
  function ProviderCostMicroMinor(usage: UsageUnits, basis: CostBasis): Option<nat> {
    if basis.inputRate.None? || basis.outputRate.None? then None
    else if basis.unit == Tokens1k then
      Some(DivideRoundingUp(usage.promptTokens * basis.inputRate.value + usage.completionTokens * basis.outputRate.value, 1000))
    else Some(DivideRoundingUp(BillableMilliUnits(usage, basis.unit) * basis.outputRate.value, 1000))
  }

  /**
   * The cost is the least number of micro-units that pays for every thousandth at its own rate: prompt and completion
   * tokens each at theirs, every other unit at the output rate. It is known just when both rates are.
   */
  lemma CostIsTheExactSumRoundedUp(usage: UsageUnits, basis: CostBasis)
    ensures ProviderCostMicroMinor(usage, basis).Some? <==> basis.inputRate.Some? && basis.outputRate.Some?
    ensures var cost := ProviderCostMicroMinor(usage, basis);
            cost.Some? ==>
              var thousandths := if basis.unit == Tokens1k
                                 then usage.promptTokens * basis.inputRate.value + usage.completionTokens * basis.outputRate.value
                                 else BillableMilliUnits(usage, basis.unit) * basis.outputRate.value;
              && thousandths <= cost.value * 1000
              && forall other: nat :: thousandths <= other * 1000 ==> cost.value <= other
  {
  }

  /** The ceiling lets a model pass that no basis is known for; without a ceiling every known cost passes. */
  lemma WithinCapExactly(bases: seq<CostBasis>, model: string, worst: UsageUnits, cap: Option<nat>)
    ensures (forall i :: 0 <= i < |bases| ==> bases[i].model != model) ==> WithinCap(bases, model, worst, cap) == Some(true)
    ensures forall i :: 0 <= i < |bases| && bases[i].model == model && (forall j :: 0 <= j < i ==> bases[j].model != model) ==>
              var cost := ProviderCostMicroMinor(worst, bases[i]);
              && (WithinCap(bases, model, worst, cap).None? <==> bases[i].inputRate.None? || bases[i].outputRate.None?)
              && (WithinCap(bases, model, worst, cap) == Some(false) <==> cost.Some? && cap.Some? && cap.value * MICRO < cost.value)
  {
    forall i | 0 <= i < |bases| && bases[i].model == model && (forall j :: 0 <= j < i ==> bases[j].model != model)
      ensures FindBasis(bases, model) == Some(bases[i])
    {
      FirstBasis(bases, model, i);
    }
  }

  lemma {:induction false} FirstBasis(bases: seq<CostBasis>, model: string, i: nat)
    requires i < |bases| && bases[i].model == model && forall j :: 0 <= j < i ==> bases[j].model != model
    ensures FindBasis(bases, model) == Some(bases[i])
  {
    if 0 < i {
      FirstBasis(bases[1..], model, i - 1);
    }
  }

  function FindBasis(bases: seq<CostBasis>, model: string): (r: Option<CostBasis>)
    ensures r.Some? ==> r.value in bases && r.value.model == model
    ensures r.None? <==> forall i :: 0 <= i < |bases| ==> bases[i].model != model
  {
    if bases == [] then None
    else if bases[0].model == model then Some(bases[0])
    else FindBasis(bases[1..], model)
  }

  /** A model without a registered basis passes; one whose rates are missing throws. */
  function WithinCap(bases: seq<CostBasis>, model: string, worst: UsageUnits, cap: Option<nat>): Option<bool> {
    var basis := FindBasis(bases, model);
    if basis.None? then Some(true)
    else
      var cost := ProviderCostMicroMinor(worst, basis.value);
      if cost.None? then None
      else if cap.None? then Some(true)
      else Some(cost.value <= cap.value * MICRO)
  }

  predicate Affordable(bases: seq<CostBasis>, model: string, worst: UsageUnits, cap: Option<nat>) {
    WithinCap(bases, model, worst, cap) == Some(true)
  }

  /** The kept list is the chain without the models over the ceiling: the others stand where they stood, in order. */
  ghost predicate Narrows(bases: seq<CostBasis>, chain: seq<string>, worst: UsageUnits, cap: Option<nat>, kept: seq<string>, at: seq<nat>) {
    && |at| == |kept|
    && (forall i :: 0 <= i < |at| ==> at[i] < |chain| && chain[at[i]] == kept[i])
    && (forall i, j :: 0 <= i < j < |at| ==> at[i] < at[j])
    && (forall j :: 0 <= j < |chain| ==> (j in at <==> Affordable(bases, chain[j], worst, cap)))
  }

  lemma NarrowsNext(bases: seq<CostBasis>, chain: seq<string>, i: nat, worst: UsageUnits, cap: Option<nat>, kept: seq<string>, at: seq<nat>)
    requires i < |chain| && Narrows(bases, chain[..i], worst, cap, kept, at)
    ensures Affordable(bases, chain[i], worst, cap) ==> Narrows(bases, chain[..i + 1], worst, cap, kept + [chain[i]], at + [i])
    ensures !Affordable(bases, chain[i], worst, cap) ==> Narrows(bases, chain[..i + 1], worst, cap, kept, at)
  {
    assert chain[..i + 1] == chain[..i] + [chain[i]];
    assert forall k :: 0 <= k < |at| ==> at[k] < i;
    forall j | 0 <= j < i + 1
      ensures j in at + [i] <==> j in at || j == i
    {
    }
  }

  lemma KeptAreAffordable(bases: seq<CostBasis>, chain: seq<string>, worst: UsageUnits, cap: Option<nat>, kept: seq<string>, at: seq<nat>)
    requires Narrows(bases, chain, worst, cap, kept, at)
    ensures forall m :: m in kept <==> m in chain && Affordable(bases, m, worst, cap)
  {
    forall m | m in kept
      ensures m in chain && Affordable(bases, m, worst, cap)
    {
      var i :| 0 <= i < |kept| && kept[i] == m;
      assert at[i] in at && chain[at[i]] == m;
    }
    forall m | m in chain && Affordable(bases, m, worst, cap)
      ensures m in kept
    {
      var j :| 0 <= j < |chain| && chain[j] == m;
      var i :| 0 <= i < |at| && at[i] == j;
      assert kept[i] == m;
    }
  }

  /** The ceiling narrows the chain in the operator's order; it never refuses while an affordable model remains. */
  method AffordableChain(bases: seq<CostBasis>, chain: seq<string>, worst: UsageUnits, cap: Option<nat>)
    returns (r: Option<seq<string>>, ghost at: seq<nat>)
    ensures r.None? <==> exists m :: m in chain && WithinCap(bases, m, worst, cap).None?
    ensures r.Some? ==> Narrows(bases, chain, worst, cap, r.value, at)
    ensures r.Some? && cap.None? ==> r.value == chain
  {
    var affordable := [];
    at := [];
    for i := 0 to |chain|
      invariant forall m :: m in chain[..i] ==> WithinCap(bases, m, worst, cap).Some?
      invariant Narrows(bases, chain[..i], worst, cap, affordable, at)
      invariant cap.None? ==> affordable == chain[..i]
    {
      var within := WithinCap(bases, chain[i], worst, cap);
      if within.None? {
        assert chain[i] in chain;
        return None, [];
      }
      NarrowsNext(bases, chain, i, worst, cap, affordable, at);
      assert chain[..i + 1] == chain[..i] + [chain[i]];
      if within.value {
        affordable, at := affordable + [chain[i]], at + [i];
      }
    }
    assert chain[..|chain|] == chain;
    r := Some(affordable);
  }

  /** Its provider rates are missing, or it is affordable and has no price. */
  predicate Unsizeable(rules: seq<CreditRule>, bases: seq<CostBasis>, task: string, model: string, worst: UsageUnits, multiplier: int, cap: Option<nat>) {
    || WithinCap(bases, model, worst, cap).None?
    || (Affordable(bases, model, worst, cap) && ChargeOn(rules, task, model, worst, multiplier).None?)
  }

  datatype Sized = Reserve(chain: seq<string>, estimate: nat) | OverCap | Throws

  /** Narrow, then size: what a request is going to reserve, before the wallet is touched. */
  method SizeRequest(rules: seq<CreditRule>, bases: seq<CostBasis>, task: string, chain: seq<string>,
                     worst: UsageUnits, multiplier: int, cap: Option<nat>) returns (r: Sized)
    ensures r.OverCap? <==> forall m :: m in chain ==> WithinCap(bases, m, worst, cap) == Some(false)
    ensures r.Throws? <==> exists m :: m in chain && Unsizeable(rules, bases, task, m, worst, multiplier, cap)
    ensures r.Reserve? ==>
              && r.chain != [] && (exists at :: Narrows(bases, chain, worst, cap, r.chain, at))
              && (forall m :: m in r.chain <==> m in chain && Affordable(bases, m, worst, cap))
              && Priced(rules, task, r.chain, worst, multiplier)
              && IsDearest(rules, task, r.chain, worst, multiplier, r.estimate)
              && (cap.None? ==> r.chain == chain)
  {
    var affordable;
    ghost var at;
    affordable, at := AffordableChain(bases, chain, worst, cap);
    if affordable.None? {
      return Throws;
    }
    KeptAreAffordable(bases, chain, worst, cap, affordable.value, at);
    if affordable.value == [] {
      return OverCap;
    }
    assert affordable.value[0] in affordable.value;
    var estimate := ReservationEstimate(rules, task, affordable.value, worst, multiplier);
    if estimate.None? {
      return Throws;
    }
    return Reserve(affordable.value, estimate.value);
  }

  // --- Margin ----------------------------------------------------------------------------------------

  /** Defined for a target of at least 0% and below 100%. */
  function RequiredPriceMicroMinor(cost: int, target: int): (r: Option<nat>)
    ensures r.Some? <==> 0 <= target < BASIS_POINTS
  {
    if target < 0 || target >= BASIS_POINTS then None
    else if cost <= 0 then Some(0)
    else Some(DivideRoundingUp(cost * BASIS_POINTS, BASIS_POINTS - target))
  }

  predicate ReachesTarget(price: int, cost: int, target: int) {
    (price - cost) * BASIS_POINTS >= target * price
  }

  /** The derived price is the least integer that reaches the target. */
  lemma RequiredPriceIsLeast(cost: int, target: int, price: int)
    requires 0 < cost && 0 <= target < BASIS_POINTS
    ensures var p := RequiredPriceMicroMinor(cost, target).value;
            cost <= p && (ReachesTarget(price, cost, target) <==> p <= price)
  {
    var p := RequiredPriceMicroMinor(cost, target).value;
    var keep := BASIS_POINTS - target;
    assert forall x {:trigger x * keep} :: (x - cost) * BASIS_POINTS - target * x == x * keep - cost * BASIS_POINTS;
    assert ReachesTarget(price, cost, target) <==> cost * BASIS_POINTS <= price * keep by {
      assert (price - cost) * BASIS_POINTS - target * price == price * keep - cost * BASIS_POINTS;
    }
    if p <= price {
      MulMonotone(p, price, keep);
    } else {
      MulMonotone(price, p - 1, keep);
    }
    assert keep * (cost - 1) == (cost - 1) * keep;
    MulMonotone(keep, BASIS_POINTS, cost - 1);
    if p < cost {
      MulMonotone(p, cost - 1, keep);
    }
  }

  datatype Margin = Margin(percent: Option<real>, revenue: Option<int>, belowFloor: bool)

  function AssessMargin(cost: nat, creditsMilli: nat, creditValue: Option<nat>, minimumPercent: real): Margin {
    if creditValue.None? then Margin(None, None, false)
    else
      var revenue := TruncDiv(creditsMilli * creditValue.value, 1000);
      if revenue <= 0 then
        Margin(Some(if cost > 0 then -100.0 else 0.0), Some(revenue), minimumPercent > 0.0 && cost > 0)
      else
        var margin := TruncDiv((revenue - cost) * BASIS_POINTS, revenue) as real / 100.0;
        Margin(Some(margin), Some(revenue), minimumPercent > 0.0 && margin < minimumPercent)
  }

  lemma QuotientBelow(n: nat, d: nat, f: nat)
    requires 0 < d
    ensures n / d < f <==> n < f * d
  {
    var q := n / d;
    assert n == q * d + n % d;
    if q < f {
      MulMonotone(q + 1, f, d);
      assert (q + 1) * d == q * d + d;
    } else {
      MulMonotone(f, q, d);
    }
  }

  lemma TruncatesBelow(n: int, d: nat, f: nat)
    requires 0 < d && 0 < f
    ensures TruncDiv(n, d) < f <==> n < f * d
  {
    assert Abs(d) == d;
    if 0 <= n {
      assert Abs(n) == n;
      QuotientBelow(n, d, f);
    } else {
      MulMonotone(0, f, d);
      assert 0 <= Abs(n) / d;
    }
  }

  /** An integer number of hundredths is below a percentage just when it is below that rounded up to a hundredth. */
  lemma BelowRoundsUp(q: int, percent: real, floor: int)
    requires floor as real - 1.0 < percent * 100.0 <= floor as real
    ensures q as real / 100.0 < percent <==> q < floor
    ensures 0.0 < percent <==> 0 < floor
  {
    assert q as real / 100.0 * 100.0 == q as real;
    if q < floor {
      assert q as real <= floor as real - 1.0;
    } else {
      assert floor as real <= q as real;
    }
  }

  /**
   * The alarm goes off exactly when the floor is above zero and the true margin, unrounded, is below it, for a floor
   * that is rounded up to the next hundredth of a percent. A credit without a value raises none and reports nothing.
   */
  lemma FloorIsBreachedIff(cost: nat, creditsMilli: nat, value: nat, percent: real, floor: int)
    requires floor as real - 1.0 < percent * 100.0 <= floor as real
    ensures var m := AssessMargin(cost, creditsMilli, Some(value), percent);
            && m.percent.Some? && m.revenue.Some?
            && m.revenue.value * 1000 <= creditsMilli * value < (m.revenue.value + 1) * 1000
            && (m.belowFloor <==> 0 < floor && (m.revenue.value - cost) * BASIS_POINTS < floor * m.revenue.value)
    ensures AssessMargin(cost, creditsMilli, None, percent) == Margin(None, None, false)
  {
    var product := creditsMilli * value;
    var revenue := TruncDiv(product, 1000);
    assert Abs(product) == product && Abs(1000) == 1000 && revenue == product / 1000;
    if 0 < revenue {
      var n := (revenue - cost) * BASIS_POINTS;
      BelowRoundsUp(TruncDiv(n, revenue), percent, floor);
      if 0 < floor {
        TruncatesBelow(n, revenue, floor);
      }
    } else {
      BelowRoundsUp(0, percent, floor);
    }
  }

  lemma QuotientAtLeast(n: nat, d: nat, t: nat)
    requires 0 < d && t * d <= n
    ensures t <= n / d
  {
    var q := n / d;
    assert n == q * d + n % d;
    assert (q + 1) * d == q * d + d;
    if q + 1 <= t {
      MulMonotone(q + 1, t, d);
    }
  }

  lemma WholeCredit(price: nat)
    ensures TruncDiv(1000 * price, 1000) == price
  {
    assert Abs(1000 * price) == 1000 * price && Abs(1000) == 1000;
    assert 1000 * price / 1000 == price;
  }

  lemma MarginAtLeast(price: int, cost: int, target: nat)
    requires 0 < price && cost <= price && ReachesTarget(price, cost, target)
    ensures TruncDiv((price - cost) * BASIS_POINTS, price) >= target
  {
    var n := (price - cost) * BASIS_POINTS;
    assert Abs(n) == n && Abs(price) == price;
    QuotientAtLeast(n, price, target);
  }

  lemma Hundredths(a: int, b: int)
    requires b <= a
    ensures b as real / 100.0 <= a as real / 100.0
  {
  }

  /**
   * Pricing a whole credit at the derived price reports at least the target, and a floor at the target holds. Only a
   * credit that costs nothing is priced at nothing, and then 0% is reported, which breaches no floor either.
   */
  lemma DerivedPriceMeetsItsFloor(cost: nat, target: nat)
    requires target < BASIS_POINTS
    ensures var price := RequiredPriceMicroMinor(cost, target).value;
            var m := AssessMargin(cost, 1000, Some(price), target as real / 100.0);
            && m.revenue == Some(price) && !m.belowFloor && m.percent.Some?
            && (price == 0 <==> cost == 0) && (cost == 0 ==> m.percent.value == 0.0)
            && (m.percent.value >= target as real / 100.0 <==> 0 < cost || target == 0)
  {
    var price := RequiredPriceMicroMinor(cost, target).value;
    WholeCredit(price);
    if 0 < cost {
      RequiredPriceIsLeast(cost, target, price);
      MarginAtLeast(price, cost, target);
      Hundredths(TruncDiv((price - cost) * BASIS_POINTS, price), target);
    }
  }

  /** And one unit cheaper, the true margin is below the target, so the derivation has no slack. */
  lemma OneCheaperMissesTheTarget(cost: nat, target: nat)
    requires 0 < cost && target < BASIS_POINTS
    ensures !ReachesTarget(RequiredPriceMicroMinor(cost, target).value - 1, cost, target)
  {
    RequiredPriceIsLeast(cost, target, RequiredPriceMicroMinor(cost, target).value - 1);
  }
}
