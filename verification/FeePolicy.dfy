/** The protocol fee: a share of the amount rounded down, clamped, and never more than the amount. */
module FeePolicy {
  import opened Base
  import EscrowHub

  const BPS_DENOMINATOR: nat := 10_000
  const MAX_FEE_BPS: nat := 1_000

  datatype Policy = Policy(bps: int, minFee: int, maxFee: Option<int>)

  datatype PolicyError = BadBps | NegativeMinimum | MaximumBelowMinimum

  datatype Bound = Unbounded | ByMinimum | ByMaximum | ByAmount

  datatype Breakdown = Breakdown(amount: nat, fee: nat, net: nat, bps: int, bound: Bound)

  /** assertValidPolicy: the first check that fails. */
  function PolicyFault(p: Policy): Option<PolicyError> {
    if p.bps < 0 || p.bps > MAX_FEE_BPS then Some(BadBps)
    else if p.minFee < 0 then Some(NegativeMinimum)
    else if p.maxFee.Some? && p.maxFee.value < p.minFee then Some(MaximumBelowMinimum)
    else None
  }

  predicate IsValid(p: Policy) {
    PolicyFault(p).None?
  }

  /** floor(amount * bps / 10000). */
  function Share(amount: nat, bps: nat): nat {
    amount * bps / BPS_DENOMINATOR
  }

  /** The fee an amount bears under a valid policy, as one clamped expression. */
  function Fee(amount: nat, p: Policy): nat
    requires IsValid(p)
  {
    var atLeast := Max(Share(amount, p.bps), p.minFee);
    var capped := if p.maxFee.Some? then Min(atLeast, p.maxFee.value) else atLeast;
    Min(capped, amount)
  }

  /** computeFee; None is its throw on a negative amount. */
  method ComputeFee(amount: int, p: Policy) returns (breakdown: Option<Breakdown>)
    requires IsValid(p)
    ensures breakdown.None? <==> amount < 0
    ensures breakdown.Some? ==>
              var b := breakdown.value;
              && b.amount == amount && b.fee == Fee(amount, p) && b.fee + b.net == amount && b.bps == p.bps
              && (b.bound.Unbounded? <==> b.fee == Share(amount, p.bps) && !Replaced(amount, p))
    ensures breakdown.Some? ==>
              var b, floor := breakdown.value, amount * p.bps / 10_000;
              var most := if p.maxFee.Some? then Min(Max(floor, p.minFee), p.maxFee.value) else Max(floor, p.minFee);
              && b.fee == Min(most, amount)
              && (b.bound.ByAmount? <==> most > amount)
              && (b.bound.ByMaximum? <==> most <= amount && p.maxFee.Some? && Max(floor, p.minFee) > p.maxFee.value)
              && (b.bound.ByMinimum? <==> b.fee == most == p.minFee > floor && !b.bound.ByMaximum?)
  {
    if amount < 0 {
      return None;
    }
    var fee: nat := Share(amount, p.bps);
    var bound := Unbounded;
    if fee < p.minFee {
      fee, bound := p.minFee, ByMinimum;
    }
    if p.maxFee.Some? && fee > p.maxFee.value {
      fee, bound := p.maxFee.value, ByMaximum;
    }
    if fee > amount {
      fee, bound := amount, ByAmount;
    }
    return Some(Breakdown(amount, fee, amount - fee, p.bps, bound));
  }

  /** Some bound moves the proportional fee. */
  predicate Replaced(amount: nat, p: Policy)
    requires IsValid(p)
  {
    var share := Share(amount, p.bps);
    share < p.minFee || (p.maxFee.Some? && share > p.maxFee.value) || share > amount
  }

  // ---------------------------------------------------------------------------------------------
  // Rounding
  // ---------------------------------------------------------------------------------------------

  /** Adding k whole denominators adds k. */
  lemma FloorShift(x: nat, k: nat)
    ensures (x + k * BPS_DENOMINATOR) / BPS_DENOMINATOR == x / BPS_DENOMINATOR + k
  {
  }

  lemma ShareSplits(a: nat, b: nat, bps: nat)
    ensures (a + b) * bps == a * bps + b * bps
  {
  }

  /** One more unit of amount adds at most one unit of share, and takes none away. */
  lemma ShareGrows(a: nat, b: nat, bps: nat)
    requires a <= b && bps <= BPS_DENOMINATOR
    ensures Share(a, bps) <= Share(b, bps) <= Share(a, bps) + (b - a)
  {
    var d := b - a;
    ShareSplits(a, d, bps);
    assert 0 <= d * bps <= d * BPS_DENOMINATOR;
    FloorShift(a * bps, d);
    FloorOrder(a * bps, b * bps);
    FloorOrder(b * bps, a * bps + d * BPS_DENOMINATOR);
  }

  lemma FloorOrder(x: nat, y: nat)
    requires x <= y
    ensures x / BPS_DENOMINATOR <= y / BPS_DENOMINATOR
  {
  }

  lemma FloorOfSum(x: nat, y: nat)
    ensures x / BPS_DENOMINATOR + y / BPS_DENOMINATOR <= (x + y) / BPS_DENOMINATOR
         <= x / BPS_DENOMINATOR + y / BPS_DENOMINATOR + 1
  {
  }

  // ---------------------------------------------------------------------------------------------
  // The theorems
  // ---------------------------------------------------------------------------------------------

  /** Under every valid policy a larger amount never bears a smaller fee, and never nets less. */
  lemma FeeAndNetGrow(a: nat, b: nat, p: Policy)
    requires IsValid(p) && a <= b
    ensures Fee(a, p) <= Fee(b, p)
    ensures a - Fee(a, p) <= b - Fee(b, p)
  {
    ShareGrows(a, b, p.bps);
  }

  /** The policies that pass, and the most they charge: a tenth of the amount, or the minimum fee. */
  lemma ValidIff(p: Policy, amount: nat)
    ensures IsValid(p) <==> 0 <= p.bps <= 1_000 && p.minFee >= 0 && (p.maxFee.Some? ==> p.minFee <= p.maxFee.value)
    ensures IsValid(p) ==> Fee(amount, p) <= Max(amount / 10, p.minFee)
  {
    if IsValid(p) {
      assert 0 <= amount * p.bps <= amount * 1_000;
      FloorOrder(amount * p.bps, amount * 1_000);
      assert amount * 1_000 / BPS_DENOMINATOR == amount / 10;
    }
  }

  /** At the hub's rate the fee is the hub's, to the wei, exactly when no bound of the policy moves it. */
  lemma FeeIsTheHubsIff(amount: nat, p: Policy)
    requires IsValid(p) && p.bps == EscrowHub.FEE_PERCENT
    ensures Fee(amount, p) == EscrowHub.FeeOf(amount) <==> amount == 0 || !Replaced(amount, p)
  {
    ShareGrows(0, amount, p.bps);
  }

  /** Of the policies without bounds only the one at the hub's rate charges the hub's fee on every amount. */
  lemma HubRateIff(bps: nat)
    requires bps <= MAX_FEE_BPS
    ensures (forall amount :: Fee(amount, Policy(bps, 0, None)) == EscrowHub.FeeOf(amount))
            <==> bps == EscrowHub.FEE_PERCENT
  {
    NoBounds(BPS_DENOMINATOR, bps);
    assert Share(BPS_DENOMINATOR, bps) == bps && EscrowHub.FeeOf(BPS_DENOMINATOR) == EscrowHub.FEE_PERCENT;
    forall amount | bps == EscrowHub.FEE_PERCENT
      ensures Fee(amount, Policy(bps, 0, None)) == EscrowHub.FeeOf(amount)
    {
      NoBounds(amount, bps);
    }
  }

  function Sum(parts: seq<nat>): nat {
    if |parts| == 0 then 0 else Sum(parts[..|parts| - 1]) + parts[|parts| - 1]
  }

  function SumOfFees(parts: seq<nat>, p: Policy): nat
    requires IsValid(p)
  {
    if |parts| == 0 then 0 else SumOfFees(parts[..|parts| - 1], p) + Fee(parts[|parts| - 1], p)
  }

  /** Without bounds, splitting an amount into n parts never raises the fee and lowers it by at most n - 1. */
  lemma {:induction false} SplittingLosesLittle(parts: seq<nat>, bps: nat)
    requires |parts| > 0 && bps <= MAX_FEE_BPS
    ensures var p := Policy(bps, 0, None);
            SumOfFees(parts, p) <= Fee(Sum(parts), p) <= SumOfFees(parts, p) + |parts| - 1
  {
    var p := Policy(bps, 0, None);
    var front, last := parts[..|parts| - 1], parts[|parts| - 1];
    NoBounds(Sum(parts), bps);
    NoBounds(last, bps);
    if |front| > 0 {
      SplittingLosesLittle(front, bps);
      NoBounds(Sum(front), bps);
      ShareSplits(Sum(front), last, bps);
      FloorOfSum(Sum(front) * bps, last * bps);
    } else {
      assert SumOfFees(front, p) == 0 && Sum(front) == 0;
    }
  }

  lemma NoBounds(amount: nat, bps: nat)
    requires bps <= MAX_FEE_BPS
    ensures Fee(amount, Policy(bps, 0, None)) == Share(amount, bps)
  {
    ShareGrows(0, amount, bps);
  }
}
