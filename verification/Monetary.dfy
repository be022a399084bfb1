/**
 The monetary step at an epoch boundary. Rates are exact rationals; an amount of lovelace
 is the whole part of an exact product.
 */
module Monetary {
  import opened Base
  import opened Sums

  datatype Rational = Rational(numer: U64, denom: U64)

  datatype Params = Params(
    epochLength: U32,
    activeSlotsCoeff: Rational,
    decentralisation: Rational,
    monetaryExpansion: Rational,
    treasuryCut: Rational)

  datatype Pots = Pots(reserves: U64, treasury: U64, deposits: U64)

  datatype MonetaryResult = MonetaryResult(pots: Pots, stakeRewards: U64)

  datatype MonetaryError = NoTreasuryCut | NoStakeRewards

  /** The quotient, known to callers by the product that undoes it. */
  function Quotient(n: real, d: real): (q: real)
    requires d > 0.0
    ensures q * d == n
  {
    n / d
  }

  function AsReal(r: Rational): real
    requires r.denom > 0
  {
    Quotient(r.numer as real, r.denom as real)
  }

  /** A rate between zero and one. */
  predicate IsRate(r: Rational) {
    r.denom > 0 && r.numer <= r.denom
  }

  /** The rates are rates, and some blocks are expected in an epoch. */
  predicate ValidParams(p: Params) {
    && IsRate(p.decentralisation) && IsRate(p.monetaryExpansion) && IsRate(p.treasuryCut)
    && p.activeSlotsCoeff.denom > 0 && p.activeSlotsCoeff.numer > 0 && p.epochLength > 0
  }

  lemma ProductPositive(x: real, y: real)
    requires x > 0.0 && y > 0.0
    ensures x * y > 0.0
  {
  }

  /** Two factors compare as their products with the same positive number do. */
  lemma Compare(q: real, c: real, d: real, n: real, m: real)
    requires d > 0.0 && q * d == n && c * d == m
    ensures q > c <==> n > m
    ensures q >= c <==> n >= m
  {
    if q > c {
      ProductPositive(q - c, d);
      assert (q - c) * d == n - m;
    } else if q < c {
      ProductPositive(c - q, d);
      assert (c - q) * d == m - n;
    }
  }

  /** A quotient compares with zero and one as its terms compare with zero and each other. */
  lemma QuotientBounds(n: real, d: real)
    requires d > 0.0
    ensures 0.0 < n <==> 0.0 < Quotient(n, d)
    ensures 0.0 <= n <==> 0.0 <= Quotient(n, d)
    ensures n > d <==> Quotient(n, d) > 1.0
    ensures n >= d <==> Quotient(n, d) >= 1.0
  {
    Compare(Quotient(n, d), 0.0, d, n, 0.0);
    Compare(Quotient(n, d), 1.0, d, n, d);
  }

  lemma RateBounds(r: Rational)
    requires IsRate(r)
    ensures 0.0 <= AsReal(r) <= 1.0
    ensures r.numer < r.denom ==> AsReal(r) < 1.0
  {
    QuotientBounds(r.numer as real, r.denom as real);
  }

  lemma ShareBounds(x: real, rate: real)
    requires 0.0 <= x && 0.0 <= rate <= 1.0
    ensures 0.0 <= x * rate <= x
  {
    if x > 0.0 {
      Compare(1.0, rate, x, x, rate * x);
      Compare(rate, 0.0, x, rate * x, 0.0);
    }
  }

  /** At least four fifths of the slots are centralised: the block count is not looked at. */
  predicate MostlyCentralised(d: Rational) {
    d.numer * 10 >= 8 * d.denom
  }

  function Product3(x: real, y: real, z: real): (product: real)
    requires x > 0.0 && y > 0.0 && z > 0.0
    ensures product > 0.0
  {
    ProductPositive(x, y);
    ProductPositive(x * y, z);
    x * y * z
  }

  function ExpectedBlocks(p: Params): (expected: real)
    requires ValidParams(p) && !MostlyCentralised(p.decentralisation)
    ensures expected > 0.0
  {
    RateBounds(p.decentralisation);
    QuotientBounds(p.activeSlotsCoeff.numer as real, p.activeSlotsCoeff.denom as real);
    Product3(p.epochLength as real, AsReal(p.activeSlotsCoeff), 1.0 - AsReal(p.decentralisation))
  }

  /** The ratio of blocks produced to blocks expected, never above one. */
  function CalculateEta(p: Params, blocks: nat): (eta: real)
    requires ValidParams(p)
    ensures 0.0 <= eta <= 1.0
    ensures MostlyCentralised(p.decentralisation) ==> eta == 1.0
    ensures !MostlyCentralised(p.decentralisation) && blocks as real >= ExpectedBlocks(p) ==> eta == 1.0
    ensures !MostlyCentralised(p.decentralisation) && blocks as real <= ExpectedBlocks(p) ==>
              eta * ExpectedBlocks(p) == blocks as real
  {
    if MostlyCentralised(p.decentralisation) then 1.0
    else
      var expected := ExpectedBlocks(p);
      var ratio := Quotient(blocks as real, expected);
      QuotientBounds(blocks as real, expected);
      if ratio <= 1.0 then ratio else 1.0
  }

  /** The whole lovelace in a share of an amount: at most the share, and less than one below it. */
  function WholeShare(amount: nat, rate: real): (whole: nat)
    requires 0.0 <= rate <= 1.0
    ensures whole as real <= amount as real * rate < whole as real + 1.0
    ensures whole <= amount
  {
    var x := amount as real;
    ShareBounds(x, rate);
    var share := x * rate;
    assert share.Floor as real <= x;
    share.Floor
  }

  function CalculateMonetaryExpansion(p: Params, reserves: U64, eta: real): (expansion: nat)
    requires ValidParams(p) && 0.0 <= eta <= 1.0
    ensures expansion <= reserves
    ensures expansion as real <= reserves as real * (eta * AsReal(p.monetaryExpansion)) < expansion as real + 1.0
  {
    RateBounds(p.monetaryExpansion);
    ShareBounds(eta, AsReal(p.monetaryExpansion));
    WholeShare(reserves, eta * AsReal(p.monetaryExpansion))
  }

  // ---------------------------------------------------------------------------------
  // The same shares in whole numbers

  /** `q` is `n` over `d`, rounded down. */
  ghost predicate IsFloor(q: int, n: int, d: int) {
    q * d <= n < (q + 1) * d
  }

  lemma CastProduct(x: int, y: int)
    ensures (x * y) as real == x as real * y as real
  {
  }

  /** A whole part bounds a share exactly if it bounds the share's multiple by any positive number. */
  lemma FloorOfShare(whole: nat, share: real, n: int, d: int)
    requires d > 0 && whole as real <= share < whole as real + 1.0
    requires share * d as real == n as real
    ensures IsFloor(whole, n, d)
  {
    CastProduct(whole, d);
    CastProduct(whole + 1, d);
    Compare(share, whole as real, d as real, n as real, (whole * d) as real);
    Compare((whole + 1) as real, share, d as real, ((whole + 1) * d) as real, n as real);
  }

  lemma ScaledShare(x: real, rate: real, n: real, d: real)
    requires rate * d == n
    ensures x * rate * d == x * n
  {
    assert x * rate * d == x * (rate * d);
  }

  /** A rate's share of an amount is the amount times the numerator over the denominator, rounded down. */
  lemma WholeShareInIntegers(amount: nat, r: Rational)
    requires IsRate(r) && 0.0 <= AsReal(r) <= 1.0
    ensures IsFloor(WholeShare(amount, AsReal(r)), amount * r.numer, r.denom)
  {
    ScaledShare(amount as real, AsReal(r), r.numer as real, r.denom as real);
    CastProduct(amount, r.numer);
    FloorOfShare(WholeShare(amount, AsReal(r)), amount as real * AsReal(r), amount * r.numer, r.denom);
  }

  lemma ProductOfQuotients(x: real, y: real, z: real, n: real, d: real, m: real, c: real)
    requires y * d == n && z * c == m
    ensures x * y * z * (d * c) == x * n * m
  {
    assert x * y * z * (d * c) == x * (y * d) * (z * c);
  }

  lemma Complement(q: real, d: real, n: real)
    requires q * d == n
    ensures (1.0 - q) * d == d - n
  {
  }

  /** The blocks expected: epoch length times the active slot coefficient times what is not centralised. */
  lemma ExpectedBlocksExact(p: Params)
    requires ValidParams(p) && !MostlyCentralised(p.decentralisation)
    ensures var (f, d) := (p.activeSlotsCoeff, p.decentralisation);
            ExpectedBlocks(p) * (f.denom * d.denom) as real == (p.epochLength * f.numer * (d.denom - d.numer)) as real
  {
    var f, d := p.activeSlotsCoeff, p.decentralisation;
    var fn, fd, dn, dd := f.numer as real, f.denom as real, d.numer as real, d.denom as real;
    Complement(AsReal(d), dd, dn);
    ProductOfQuotients(p.epochLength as real, AsReal(f), 1.0 - AsReal(d), fn, fd, dd - dn, dd);
    CastProduct(f.denom, d.denom);
    CastProduct(p.epochLength, f.numer);
    CastProduct(p.epochLength * f.numer, d.denom - d.numer);
  }

  lemma EtaShare(x: real, eta: real, rho: real, made: real, expected: real, n: real, d: real)
    requires eta * expected == made && rho * d == n
    ensures x * (eta * rho) * (expected * d) == x * made * n
  {
    assert x * (eta * rho) * (expected * d) == x * (eta * expected) * (rho * d);
  }

  lemma EtaTimesNumer(eta: real, expected: real, blocks: real, numer: real, denom: real)
    requires eta * expected == blocks && expected * denom == numer
    ensures eta * numer == blocks * denom
  {
    assert eta * (expected * denom) == eta * expected * denom;
  }

  /** With fewer blocks than expected, reserves times rho times blocks made over blocks expected, rounded down. */
  lemma ExpansionBelowFull(p: Params, reserves: U64, eta: real, made: int, expected: int)
    requires ValidParams(p) && 0.0 <= eta <= 1.0 && expected > 0
    requires eta * expected as real == made as real
    ensures IsFloor(CalculateMonetaryExpansion(p, reserves, eta),
                    reserves * made * p.monetaryExpansion.numer, expected * p.monetaryExpansion.denom)
  {
    var rho := p.monetaryExpansion;
    var n, d := reserves * made * rho.numer, expected * rho.denom;
    EtaShare(reserves as real, eta, AsReal(rho), made as real, expected as real, rho.numer as real, rho.denom as real);
    CastProduct(reserves, made);
    CastProduct(reserves * made, rho.numer);
    CastProduct(expected, rho.denom);
    PositiveProduct(expected, rho.denom);
    FloorOfShare(CalculateMonetaryExpansion(p, reserves, eta), reserves as real * (eta * AsReal(rho)), n, d);
  }

  lemma PositiveProduct(x: int, y: int)
    requires x > 0 && y > 0
    ensures x * y > 0
  {
  }

  /** With enough blocks, or mostly centralised, reserves times rho, rounded down. */
  lemma ExpansionAtFull(p: Params, reserves: U64)
    requires ValidParams(p)
    ensures IsFloor(CalculateMonetaryExpansion(p, reserves, 1.0), reserves * p.monetaryExpansion.numer, p.monetaryExpansion.denom)
  {
    var rho := p.monetaryExpansion;
    RateBounds(rho);
    assert 1.0 * AsReal(rho) == AsReal(rho);
    WholeShareInIntegers(reserves, rho);
  }

  /** Eta is one or the ratio of two whole numbers. */
  ghost predicate EtaIs(eta: real, full: bool, made: int, expected: int) {
    if full then eta == 1.0 else expected > 0 && eta * expected as real == made as real
  }

  lemma EtaByCompare(p: Params, blocks: nat, denom: int, made: int, expected: int)
    requires ValidParams(p) && !MostlyCentralised(p.decentralisation)
    requires denom > 0 && made as real == blocks as real * denom as real && made >= 0
    requires ExpectedBlocks(p) * denom as real == expected as real
    ensures EtaIs(CalculateEta(p, blocks), made >= expected, made, expected)
  {
    Compare(blocks as real, ExpectedBlocks(p), denom as real, made as real, expected as real);
    if made < expected {
      EtaTimesNumer(CalculateEta(p, blocks), ExpectedBlocks(p), blocks as real, expected as real, denom as real);
    }
  }

  /** Eta from the parameters: made over expected, both over the same denominator, until it is one. */
  lemma EtaInIntegers(p: Params, blocks: nat)
    requires ValidParams(p)
    ensures var (f, d) := (p.activeSlotsCoeff, p.decentralisation);
            var made, expected := blocks * (f.denom * d.denom), p.epochLength * f.numer * (d.denom - d.numer);
            EtaIs(CalculateEta(p, blocks), d.numer * 10 >= 8 * d.denom || made >= expected, made, expected)
  {
    var f, d := p.activeSlotsCoeff, p.decentralisation;
    if !MostlyCentralised(d) {
      var denom, expected := f.denom * d.denom, p.epochLength * f.numer * (d.denom - d.numer);
      ExpectedBlocksExact(p);
      PositiveProduct(f.denom, d.denom);
      CastProduct(blocks, denom);
      EtaByCompare(p, blocks, denom, blocks * denom, expected);
    }
  }

  ghost predicate ExpandsAs(reserves: U64, rho: Rational, full: bool, made: int, expected: int, expansion: int) {
    if full then IsFloor(expansion, reserves * rho.numer, rho.denom)
    else IsFloor(expansion, reserves * made * rho.numer, expected * rho.denom)
  }

  lemma ExpansionByEta(p: Params, reserves: U64, eta: real, full: bool, made: int, expected: int)
    requires ValidParams(p) && 0.0 <= eta <= 1.0 && EtaIs(eta, full, made, expected)
    ensures ExpandsAs(reserves, p.monetaryExpansion, full, made, expected, CalculateMonetaryExpansion(p, reserves, eta))
  {
    if full {
      ExpansionAtFull(p, reserves);
    } else {
      ExpansionBelowFull(p, reserves, eta, made, expected);
    }
  }

  /**
   What an epoch's expansion is, in whole numbers: reserves times rho, scaled down by blocks
   made over blocks expected when fewer were made and less than four fifths is centralised.
   */
  ghost predicate ExpandsBy(p: Params, reserves: U64, blocks: nat, expansion: int) {
    var f, d := p.activeSlotsCoeff, p.decentralisation;
    var made, expected := blocks * (f.denom * d.denom), p.epochLength * f.numer * (d.denom - d.numer);
    ExpandsAs(reserves, p.monetaryExpansion, d.numer * 10 >= 8 * d.denom || made >= expected, made, expected, expansion)
  }

  lemma ExpansionInIntegers(p: Params, reserves: U64, blocks: nat)
    requires ValidParams(p)
    ensures ExpandsBy(p, reserves, blocks, CalculateMonetaryExpansion(p, reserves, CalculateEta(p, blocks)))
  {
    var f, d := p.activeSlotsCoeff, p.decentralisation;
    var made, expected := blocks * (f.denom * d.denom), p.epochLength * f.numer * (d.denom - d.numer);
    EtaInIntegers(p, blocks);
    ExpansionByEta(p, reserves, CalculateEta(p, blocks), d.numer * 10 >= 8 * d.denom || made >= expected, made, expected);
  }

  /** All that may flow through the pots fits the word. */
  predicate WithinSupply(pots: Pots, fees: U64) {
    pots.reserves + pots.treasury + fees <= U64_MAX
  }

  function Expansion(p: Params, pots: Pots, blocks: nat): nat
    requires ValidParams(p)
  {
    CalculateMonetaryExpansion(p, pots.reserves, CalculateEta(p, blocks))
  }

  function TreasuryCut(p: Params, pot: nat): (cut: nat)
    requires ValidParams(p)
    ensures cut <= pot
  {
    RateBounds(p.treasuryCut);
    WholeShare(pot, AsReal(p.treasuryCut))
  }

  lemma TreasuryCutInIntegers(p: Params, pot: nat)
    requires ValidParams(p)
    ensures IsFloor(TreasuryCut(p, pot), pot * p.treasuryCut.numer, p.treasuryCut.denom)
  {
    RateBounds(p.treasuryCut);
    WholeShareInIntegers(pot, p.treasuryCut);
  }

  function TreasuryIncrease(p: Params, pots: Pots, fees: U64, blocks: nat): (increase: nat)
    requires ValidParams(p)
    ensures increase <= Expansion(p, pots, blocks) + fees
  {
    TreasuryCut(p, Expansion(p, pots, blocks) + fees)
  }

  function StakeRewards(p: Params, pots: Pots, fees: U64, blocks: nat): (rewards: nat)
    requires ValidParams(p)
    ensures rewards <= pots.reserves + fees - TreasuryIncrease(p, pots, fees, blocks)
  {
    Expansion(p, pots, blocks) + fees - TreasuryIncrease(p, pots, fees, blocks)
  }

  /** The pots with new reserves and treasury, unless one of them leaves the word. */
  function InWord(pots: Pots, reserves: int, treasury: int): Option<Pots> {
    if 0 <= reserves <= U64_MAX && 0 <= treasury <= U64_MAX
    then Some(pots.(reserves := reserves, treasury := treasury))
    else None
  }

  /** The fees join the reserves and the treasury's share leaves them, unless a pot leaves the word on the way. */
  function Stepped(p: Params, pots: Pots, fees: U64, blocks: nat): Option<Pots>
    requires ValidParams(p)
  {
    var increase := TreasuryIncrease(p, pots, fees, blocks);
    if pots.reserves + fees > U64_MAX then None
    else InWord(pots, pots.reserves + fees - increase, pots.treasury + increase)
  }

  /** Within the supply a share of the reserves and fees moves to the treasury without leaving the word. */
  lemma MoveFits(pots: Pots, fees: U64, expansion: nat, increase: nat)
    requires WithinSupply(pots, fees) && expansion <= pots.reserves && increase <= expansion + fees
    ensures pots.reserves + fees - increase >= expansion + fees - increase >= 0
    ensures pots.reserves + fees - increase <= U64_MAX
    ensures pots.treasury + increase <= U64_MAX
    ensures expansion + fees - increase <= U64_MAX
  {
  }

  /**
   One epoch's step. No error is returned and nothing underflows: what leaves the reserves
   arrives in the treasury, the rest of the pot is owed to stakeholders, and the reserves
   still cover it. The expansion and the treasury's cut are the exact fractions of the
   parameters, each rounded down.
   */
  method CalculateMonetaryChange(p: Params, oldPots: Pots, fees: U64, blocks: nat)
    returns (r: Result<MonetaryResult, MonetaryError>)
    requires ValidParams(p) && WithinSupply(oldPots, fees)
    ensures r.Ok?
    ensures r.value.pots.reserves + r.value.pots.treasury == oldPots.reserves + oldPots.treasury + fees
    ensures r.value.pots.deposits == oldPots.deposits
    ensures r.value.pots.treasury - oldPots.treasury == TreasuryIncrease(p, oldPots, fees, blocks)
    ensures r.value.pots.treasury - oldPots.treasury + r.value.stakeRewards == Expansion(p, oldPots, blocks) + fees
    ensures Stepped(p, oldPots, fees, blocks) == Some(r.value.pots)
    ensures r.value.stakeRewards == StakeRewards(p, oldPots, fees, blocks)
    ensures r.value.stakeRewards <= r.value.pots.reserves
    ensures var increase := r.value.pots.treasury - oldPots.treasury;
            var pot := increase + r.value.stakeRewards;
            && IsFloor(increase, pot * p.treasuryCut.numer, p.treasuryCut.denom)
            && ExpandsBy(p, oldPots.reserves, blocks, pot - fees)
  {
    var newPots := oldPots.(reserves := oldPots.reserves + fees);
    var eta := CalculateEta(p, blocks);
    var expansion := CalculateMonetaryExpansion(p, oldPots.reserves, eta);
    var totalRewardPot := expansion + fees;
    var treasuryIncrease := TreasuryCut(p, totalRewardPot);
    MoveFits(oldPots, fees, expansion, treasuryIncrease);
    ExpansionInIntegers(p, oldPots.reserves, blocks);
    TreasuryCutInIntegers(p, totalRewardPot);
    if treasuryIncrease > U64_MAX {
      return Err(NoTreasuryCut);
    }
    newPots := newPots.(treasury := newPots.treasury + treasuryIncrease);
    newPots := newPots.(reserves := newPots.reserves - treasuryIncrease);
    var stakeRewards := totalRewardPot - treasuryIncrease;
    if stakeRewards < 0 || stakeRewards > U64_MAX {
      return Err(NoStakeRewards);
    }
    r := Ok(MonetaryResult(newPots, stakeRewards));
  }

  // ---------------------------------------------------------------------------------
  // Paying the rewards

  /** A reward, and whether its account was still registered and took it. */
  datatype Reward = Reward(amount: U64, accepted: bool)

  function Total(rewards: seq<Reward>): nat {
    if rewards == [] then 0 else Total(rewards[..|rewards| - 1]) + rewards[|rewards| - 1].amount
  }

  function Unpaid(rewards: seq<Reward>): nat {
    if rewards == [] then 0
    else
      var last := rewards[|rewards| - 1];
      Unpaid(rewards[..|rewards| - 1]) + if last.accepted then 0 else last.amount
  }

  lemma {:induction false} UnpaidWithinTotal(rewards: seq<Reward>)
    ensures Unpaid(rewards) <= Total(rewards)
  {
    if rewards != [] {
      UnpaidWithinTotal(rewards[..|rewards| - 1]);
    }
  }

  /** Every reward leaves the reserves; one that no account takes goes to the treasury. */
  function Settled(pots: Pots, rewards: seq<Reward>): Option<Pots> {
    InWord(pots, pots.reserves - Total(rewards), pots.treasury + Unpaid(rewards))
  }

  ghost function AmountTerm(rewards: seq<Reward>): int -> int {
    i => if 0 <= i < |rewards| then rewards[i].amount else 0
  }

  ghost function TurnedAway(rewards: seq<Reward>): set<int> {
    set i | 0 <= i < |rewards| && !rewards[i].accepted
  }

  lemma {:induction false} TotalByIndex(rewards: seq<Reward>)
    ensures Total(rewards) == SumOver(Below(|rewards|), AmountTerm(rewards))
  {
    if rewards != [] {
      var last := |rewards| - 1;
      var init := rewards[..last];
      TotalByIndex(init);
      SumExt(Below(last), AmountTerm(init), AmountTerm(rewards));
      assert Below(|rewards|) == Below(last) + {last};
      SumAdd(Below(last), AmountTerm(rewards), last);
    }
  }

  lemma {:induction false} UnpaidByIndex(rewards: seq<Reward>)
    ensures Unpaid(rewards) == SumOver(TurnedAway(rewards), AmountTerm(rewards))
  {
    if rewards != [] {
      var last := |rewards| - 1;
      var init := rewards[..last];
      UnpaidByIndex(init);
      SumExt(TurnedAway(init), AmountTerm(init), AmountTerm(rewards));
      assert TurnedAway(rewards) == TurnedAway(init) + (if rewards[last].accepted then {} else {last});
      if !rewards[last].accepted {
        SumAdd(TurnedAway(init), AmountTerm(rewards), last);
      } else {
        assert TurnedAway(rewards) == TurnedAway(init);
      }
    }
  }

  lemma {:induction false} UnpaidGrows(rewards: seq<Reward>, n: nat)
    requires n <= |rewards|
    ensures Unpaid(rewards[..n]) <= Unpaid(rewards)
    decreases |rewards|
  {
    if n == |rewards| {
      assert rewards[..n] == rewards;
    } else {
      var init := rewards[..|rewards| - 1];
      assert init[..n] == rewards[..n];
      UnpaidGrows(init, n);
    }
  }

  /** The payment loop: what accounts do not take is added to the treasury one by one, then the reserves pay for all. */
  method PayRewards(pots: Pots, rewards: seq<Reward>) returns (after: Pots)
    requires Settled(pots, rewards).Some?
    ensures Settled(pots, rewards) == Some(after)
    ensures after.reserves + after.treasury + (Total(rewards) - Unpaid(rewards)) == pots.reserves + pots.treasury
    ensures after.deposits == pots.deposits
    ensures after.reserves == pots.reserves - SumOver(Below(|rewards|), AmountTerm(rewards))
    ensures after.treasury == pots.treasury + SumOver(TurnedAway(rewards), AmountTerm(rewards))
  {
    after := pots;
    var drawn: nat := 0;
    for i := 0 to |rewards|
      invariant pots.treasury + Unpaid(rewards[..i]) <= U64_MAX
      invariant after == pots.(treasury := pots.treasury + Unpaid(rewards[..i]))
      invariant drawn == Total(rewards[..i])
    {
      var reward := rewards[i];
      UnpaidGrows(rewards, i + 1);
      assert rewards[..i + 1][..i] == rewards[..i];
      if !reward.accepted {
        after := after.(treasury := after.treasury + reward.amount);
      }
      drawn := drawn + reward.amount;
    }
    assert rewards[..|rewards|] == rewards;
    after := after.(reserves := after.reserves - drawn);
    TotalByIndex(rewards);
    UnpaidByIndex(rewards);
  }

  // ---------------------------------------------------------------------------------
  // Many epochs

  /** What an epoch brings: its parameters, fees and blocks, and the rewards paid out of what its step set aside. */
  datatype Epoch = Epoch(params: Params, fees: U64, blocks: nat, rewards: seq<Reward>)

  predicate AllValid(es: seq<Epoch>) {
    forall i :: 0 <= i < |es| ==> ValidParams(es[i].params)
  }

  function Fees(es: seq<Epoch>): nat {
    if es == [] then 0 else es[0].fees + Fees(es[1..])
  }

  /** What reached accounts. */
  function PaidOut(es: seq<Epoch>): int {
    if es == [] then 0 else Total(es[0].rewards) - Unpaid(es[0].rewards) + PaidOut(es[1..])
  }

  /** The pots after the step and after the epoch's rewards are settled, unless a pot leaves the word. */
  function AfterEpoch(pots: Pots, e: Epoch): Option<Pots>
    requires ValidParams(e.params)
  {
    match Stepped(e.params, pots, e.fees, e.blocks)
    case None => None
    case Some(next) => Settled(next, e.rewards)
  }

  function AfterEpochs(pots: Pots, es: seq<Epoch>): Option<Pots>
    requires AllValid(es)
    decreases |es|
  {
    if es == [] then Some(pots) else
    match AfterEpoch(pots, es[0])
    case None => None
    case Some(next) => AfterEpochs(next, es[1..])
  }

  /** Each epoch's rewards are at most the stake rewards its own step sets aside. */
  predicate Covered(pots: Pots, es: seq<Epoch>)
    requires AllValid(es)
    decreases |es|
  {
    es == [] ||
    (&& Total(es[0].rewards) <= StakeRewards(es[0].params, pots, es[0].fees, es[0].blocks)
     && (AfterEpoch(pots, es[0]).Some? ==> Covered(AfterEpoch(pots, es[0]).value, es[1..])))
  }

  /** One covered epoch leaves both pots in the word, and nothing is lost. */
  lemma EpochConserves(pots: Pots, e: Epoch)
    requires ValidParams(e.params) && WithinSupply(pots, e.fees)
    requires Total(e.rewards) <= StakeRewards(e.params, pots, e.fees, e.blocks)
    ensures AfterEpoch(pots, e).Some?
    ensures var after := AfterEpoch(pots, e).value;
            && after.reserves + after.treasury + (Total(e.rewards) - Unpaid(e.rewards)) == pots.reserves + pots.treasury + e.fees
            && after.treasury >= pots.treasury + Unpaid(e.rewards)
            && after.reserves >= pots.reserves - Expansion(e.params, pots, e.blocks)
            && after.deposits == pots.deposits
  {
    UnpaidWithinTotal(e.rewards);
  }

  /**
   Over any number of epochs whose fees fit the word together with the pots, no pot ever
   underflows or overflows, and reserves, treasury and what accounts were paid add up to
   what was there plus the fees.
   */
  lemma {:induction false} EpochsConserve(pots: Pots, es: seq<Epoch>)
    requires AllValid(es) && pots.reserves + pots.treasury + Fees(es) <= U64_MAX
    requires Covered(pots, es)
    ensures AfterEpochs(pots, es).Some?
    ensures var after := AfterEpochs(pots, es).value;
            && after.reserves + after.treasury + PaidOut(es) == pots.reserves + pots.treasury + Fees(es)
            && after.treasury >= pots.treasury
            && after.deposits == pots.deposits
    decreases |es|
  {
    if es != [] {
      EpochConserves(pots, es[0]);
      UnpaidWithinTotal(es[0].rewards);
      EpochsConserve(AfterEpoch(pots, es[0]).value, es[1..]);
    }
  }

  // ---------------------------------------------------------------------------------
  // The reserves decay no faster than the expansion rate

  /** A product grows with its second factor. */
  lemma ScaleMonotone(z: real, x: real, y: real)
    requires x <= y && z >= 0.0
    ensures z * x <= z * y
  {
    if z > 0.0 {
      Compare(y, x, z, z * y, z * x);
    }
  }

  /** What expansion at the full rate leaves of an amount. */
  function Remainder(p: Params, amount: nat): (left: nat)
    requires ValidParams(p)
    ensures left <= amount
  {
    RateBounds(p.monetaryExpansion);
    amount - WholeShare(amount, AsReal(p.monetaryExpansion))
  }

  lemma Distribute(x: real, y: real, z: real)
    ensures (y - x) * z == y * z - x * z
  {
  }

  lemma FloorWithin(x: real, y: real, n: int)
    requires y <= x + n as real
    ensures y.Floor <= x.Floor + n
  {
  }

  /** A share of more grows by at most what was added. */
  lemma ShareGrowth(x: real, y: real, rate: real)
    requires x <= y && 0.0 <= rate <= 1.0
    ensures y * rate <= x * rate + (y - x)
  {
    ShareBounds(y - x, rate);
    Distribute(x, y, rate);
  }

  lemma ShareOfMore(x: nat, y: nat, rate: real)
    requires x <= y && 0.0 <= rate <= 1.0
    ensures WholeShare(y, rate) <= WholeShare(x, rate) + (y - x)
  {
    ShareGrowth(x as real, y as real, rate);
    FloorWithin(x as real * rate, y as real * rate, y - x);
  }

  lemma RemainderMonotone(p: Params, x: nat, y: nat)
    requires ValidParams(p) && x <= y
    ensures Remainder(p, x) <= Remainder(p, y)
  {
    RateBounds(p.monetaryExpansion);
    ShareOfMore(x, y, AsReal(p.monetaryExpansion));
  }

  /** What expansion at every epoch's full rate would leave. */
  function RemainderAfter(es: seq<Epoch>, amount: nat): nat
    requires AllValid(es)
    decreases |es|
  {
    if es == [] then amount else RemainderAfter(es[1..], Remainder(es[0].params, amount))
  }

  lemma {:induction false} RemainderAfterMonotone(es: seq<Epoch>, x: nat, y: nat)
    requires AllValid(es) && x <= y
    ensures RemainderAfter(es, x) <= RemainderAfter(es, y)
    decreases |es|
  {
    if es != [] {
      RemainderMonotone(es[0].params, x, y);
      RemainderAfterMonotone(es[1..], Remainder(es[0].params, x), Remainder(es[0].params, y));
    }
  }

  lemma ShareAtLowerRate(amount: nat, eta: real, rho: real)
    requires 0.0 <= eta <= 1.0 && 0.0 <= rho <= 1.0
    ensures 0.0 <= eta * rho <= 1.0
    ensures WholeShare(amount, eta * rho) <= WholeShare(amount, rho)
  {
    ShareBounds(rho, eta);
    ScaleMonotone(amount as real, eta * rho, rho);
  }

  /** Whatever eta is, at most the expansion rate's share of the reserves expands. */
  lemma ExpansionWithinRate(p: Params, reserves: U64, eta: real)
    requires ValidParams(p) && 0.0 <= eta <= 1.0
    ensures reserves - CalculateMonetaryExpansion(p, reserves, eta) >= Remainder(p, reserves)
  {
    RateBounds(p.monetaryExpansion);
    ShareAtLowerRate(reserves, eta, AsReal(p.monetaryExpansion));
  }

  lemma EpochDecays(pots: Pots, e: Epoch)
    requires ValidParams(e.params) && WithinSupply(pots, e.fees)
    requires Total(e.rewards) <= StakeRewards(e.params, pots, e.fees, e.blocks)
    ensures AfterEpoch(pots, e).Some?
    ensures AfterEpoch(pots, e).value.reserves >= Remainder(e.params, pots.reserves)
  {
    EpochConserves(pots, e);
    ExpansionWithinRate(e.params, pots.reserves, CalculateEta(e.params, e.blocks));
  }

  /** However the epochs go, the reserves keep at least what expansion at each epoch's full rate would leave of them. */
  lemma {:induction false} ReservesDecay(pots: Pots, es: seq<Epoch>)
    requires AllValid(es) && pots.reserves + pots.treasury + Fees(es) <= U64_MAX
    requires Covered(pots, es)
    ensures AfterEpochs(pots, es).Some?
    ensures AfterEpochs(pots, es).value.reserves >= RemainderAfter(es, pots.reserves)
    decreases |es|
  {
    if es != [] {
      EpochConserves(pots, es[0]);
      var next := AfterEpoch(pots, es[0]).value;
      UnpaidWithinTotal(es[0].rewards);
      ReservesDecay(next, es[1..]);
      EpochDecays(pots, es[0]);
      RemainderAfterMonotone(es[1..], Remainder(es[0].params, pots.reserves), next.reserves);
    }
  }
}
