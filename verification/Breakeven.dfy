/** Why enough operations pay for the overhead (AggregationStrategy.ts, `#measureFeeInfo`): the fees
    that single bundles must pay add up to the cost of the aggregate. Prices in ether; the gas price
    is asked anew for each check, and the overhead contribution is computed with rounding. */
module Breakeven {
  import opened Operations
  import opened Aggregate
  import opened FilterRows
  import opened Strategy
  import opened AggregationRun
  import opened Rounding

  /** The network as the checks of one run find it. */
  datatype Network = Network(overheadGas: nat, price: BundleRow -> nat, measured: BundleRow -> Measured)

  /** The setting in which every check is CheckBundle with these answers. */
  function Measuring(round: RoundFn, config: Config, net: Network): Setting {
    Setting(net.overheadGas, config.maxGasPerBundle,
            row => CheckBundle(round, config.fees, net.overheadGas, net.price(row), net.measured(row),
                               |row.bundle.operations|))
  }

  function OperationCount(rows: seq<BundleRow>): nat {
    if rows == [] then 0 else |rows[0].bundle.operations| + OperationCount(rows[1..])
  }

  // ---- One contribution ----

  /** The exact share of the overhead. */
  function Share(overheadGas: int, breakeven: Positive, operations: nat): real {
    Times(overheadGas as real / breakeven, operations as real)
  }

  lemma ShareNotNegative(overheadGas: nat, breakeven: Positive)
    ensures overheadGas as real / breakeven >= 0.0
  {
  }

  lemma SharesAdd(overheadGas: int, breakeven: Positive, a: nat, b: nat)
    ensures Share(overheadGas, breakeven, a) + Share(overheadGas, breakeven, b) == Share(overheadGas, breakeven, a + b)
    ensures Share(overheadGas, breakeven, 0) == 0.0
  {
    var one := overheadGas as real / breakeven;
    Distribute(a as real, b as real, one);
    Commute(a as real, one);
    Commute(b as real, one);
    Commute((a + b) as real, one);
    assert (a + b) as real == a as real + b as real;
  }

  /** Rounding is too fine to matter: two roundings lose less than one of the units in which the share
      is counted. The breakeven count, a double itself, is num / den; for doubles twice eps is 2^-52. */
  ghost predicate Fine(eps: real, overheadGas: nat, breakeven: Positive, num: nat, den: nat, operations: nat) {
    && num > 0 && Times(breakeven, den as real) == num as real
    && Times(Times(2.0, eps), (overheadGas * operations * den) as real) < 1.0
  }

  /** For doubles fewer than 2^52 of those units will do. */
  lemma FineForDoubles(overheadGas: nat, breakeven: Positive, num: nat, den: nat, operations: nat)
    requires num > 0 && Times(breakeven, den as real) == num as real
    requires overheadGas * operations * den < 4503599627370496
    ensures Fine(DOUBLE_EPS, overheadGas, breakeven, num, den, operations)
  {
    var k := (overheadGas * operations * den) as real;
    assert Times(2.0, DOUBLE_EPS) == 1.0 / 4503599627370496.0;
    ByInverse(k, 4503599627370496.0);
    Commute(k, 1.0 / 4503599627370496.0);
  }

  lemma WholeProduct(a: nat, b: nat, c: nat)
    ensures Times(Times(a as real, b as real), c as real) == (a * b * c) as real
  {
  }

  /** The share in units of 1 / num. */
  lemma ShareInUnits(overheadGas: nat, breakeven: Positive, num: nat, den: nat, operations: nat)
    requires Times(breakeven, den as real) == num as real
    ensures Times(Share(overheadGas, breakeven, operations), num as real) == (overheadGas * operations * den) as real
  {
    var one, n := overheadGas as real / breakeven, operations as real;
    assert Times(one, breakeven) == overheadGas as real;
    Exchange(one, n, breakeven, den as real);
    Associate(Times(one, breakeven), n, den as real);
    WholeProduct(overheadGas, operations, den);
  }

  /** A contribution is at least the exact share of the overhead, for all that it is computed in
      doubles, and less than one unit more but for the rounding. */
  lemma ContributionCovers(round: RoundFn, eps: real, overheadGas: nat, breakeven: Positive, num: nat, den: nat,
                           operations: nat)
    requires Faithful(round, eps) && Fine(eps, overheadGas, breakeven, num, den, operations)
    ensures var share := Share(overheadGas, breakeven, operations);
            share <= OverheadContribution(round, overheadGas, breakeven, operations) as real
            < Times(Power(1.0 + eps, 2), share) + 1.0
  {
    var one, n := overheadGas as real / breakeven, operations as real;
    ShareNotNegative(overheadGas, breakeven);
    ComputedShare(round, eps, one, n);
    ContributionIsCeil(round, overheadGas, breakeven, operations);
    CeilCoversShare(eps, overheadGas, breakeven, num, den, operations, round(Times(round(one), n)),
                    OverheadContribution(round, overheadGas, breakeven, operations));
  }

  lemma ContributionIsCeil(round: RoundFn, overheadGas: int, breakeven: Positive, operations: nat)
    ensures var y := round(Times(round(overheadGas as real / breakeven), operations as real));
            y <= OverheadContribution(round, overheadGas, breakeven, operations) as real < y + 1.0
  {
    var one := round(overheadGas as real / breakeven);
    assert Times(one, operations as real) == one * operations as real;
    CeilCovers(round(one * operations as real));
  }

  lemma CeilCoversShare(eps: real, overheadGas: nat, breakeven: Positive, num: nat, den: nat, operations: nat,
                        y: real, c: int)
    requires 0.0 <= eps < 1.0 && Fine(eps, overheadGas, breakeven, num, den, operations)
    requires After(eps, 2, y, Share(overheadGas, breakeven, operations)) && y <= c as real < y + 1.0
    ensures var share := Share(overheadGas, breakeven, operations);
            share <= c as real < Times(Power(1.0 + eps, 2), share) + 1.0
  {
    var share := Share(overheadGas, breakeven, operations);
    AfterLoses(eps, 2, y, share);
    ShareInUnits(overheadGas, breakeven, num, den, operations);
    IntegerAbove(Times(2.0, eps), share, y, c, num, overheadGas * operations * den);
  }

  lemma ComputedShare(round: RoundFn, eps: real, one: real, n: real)
    requires Faithful(round, eps) && one >= 0.0 && n >= 0.0
    ensures After(eps, 2, round(Times(round(one), n)), Times(one, n))
  {
    AfterNone(eps, one);
    AfterRound(round, eps, 0, one, one);
    AfterNone(eps, n);
    AfterTimes(eps, 1, round(one), one, 0, n, n);
    AfterRound(round, eps, 1, Times(round(one), n), Times(one, n));
  }

  // ---- All of them ----

  /** The gas a row's required fee pays for. */
  function Need(round: RoundFn, s: Setting, breakeven: Positive, row: BundleRow): int {
    Marginal(s, row) + OverheadContribution(round, s.overheadGas, breakeven, |row.bundle.operations|)
  }

  function RequiredGas(round: RoundFn, s: Setting, breakeven: Positive, rows: seq<BundleRow>): int {
    if rows == [] then 0 else Need(round, s, breakeven, rows[0]) + RequiredGas(round, s, breakeven, rows[1..])
  }

  function Contributions(round: RoundFn, overheadGas: int, breakeven: Positive, rows: seq<BundleRow>): int {
    if rows == [] then 0
    else OverheadContribution(round, overheadGas, breakeven, |rows[0].bundle.operations|)
         + Contributions(round, overheadGas, breakeven, rows[1..])
  }

  lemma {:induction false} RequiredGasSplits(round: RoundFn, s: Setting, breakeven: Positive, rows: seq<BundleRow>)
    ensures RequiredGas(round, s, breakeven, rows)
            == Marginals(s, rows) + Contributions(round, s.overheadGas, breakeven, rows)
  {
    if rows == [] {
    } else {
      RequiredGasSplits(round, s, breakeven, rows[1..]);
    }
  }

  function RequiredFees(s: Setting, rows: seq<BundleRow>): int {
    if rows == [] then 0 else s.check(rows[0]).requiredFee + RequiredFees(s, rows[1..])
  }

  /** Each row was checked at this price, or at a higher one while it needs gas at all. */
  ghost predicate PricedFrom(round: RoundFn, config: Config, net: Network, p: nat, rows: seq<BundleRow>)
    requires config.fees.EtherFees?
  {
    forall r :: r in rows ==>
      net.price(r) == p
      || (net.price(r) > p
          && Need(round, Measuring(round, config, net), config.fees.breakevenOperationCount, r) >= 0)
  }

  lemma PriceSum(a: int, b: int, p: int)
    ensures (a + b) * p == a * p + b * p
  {
  }

  lemma PricedHigher(need: int, price: nat, p: nat)
    requires price == p || (price > p && need >= 0)
    ensures need * price >= need * p
  {
    if price > p {
      assert need * (price - p) >= 0;
    }
  }

  /** The fees required one by one come to at least that gas at the lowest price, and to exactly that
      if all prices are the same. */
  lemma {:induction false} RequiredFeesAddUp(round: RoundFn, config: Config, net: Network, p: nat, rows: seq<BundleRow>)
    requires config.fees.EtherFees? && PricedFrom(round, config, net, p, rows)
    ensures var s, breakeven := Measuring(round, config, net), config.fees.breakevenOperationCount;
            && RequiredFees(s, rows) >= RequiredGas(round, s, breakeven, rows) * p
            && ((forall r :: r in rows ==> net.price(r) == p) ==>
                  RequiredFees(s, rows) == RequiredGas(round, s, breakeven, rows) * p)
  {
    var s, breakeven := Measuring(round, config, net), config.fees.breakevenOperationCount;
    if rows == [] {
    } else {
      var first := rows[0];
      var need := Need(round, s, breakeven, first);
      RequiredFeesAddUp(round, config, net, p, rows[1..]);
      assert s.check(first).requiredFee == need * net.price(first);
      PricedHigher(need, net.price(first), p);
      PriceSum(need, RequiredGas(round, s, breakeven, rows[1..]), p);
    }
  }

  /** What a check says: it succeeds exactly if the simulation did and the fee it measured is at least the
      required one; without a fee configuration nothing is required and nothing counts as cost. */
  lemma CheckMeans(round: RoundFn, config: Config, net: Network, row: BundleRow)
    ensures var check := Measuring(round, config, net).check(row);
            && check.expectedFee == net.measured(row).fee && check.gasEstimate == net.measured(row).gasEstimate
            && (check.success <==>
                net.measured(row).success && (config.fees.NoFees? || check.expectedFee >= check.requiredFee))
            && (config.fees.EtherFees? ==>
                  check.requiredFee
                  == (check.gasEstimate - net.overheadGas
                      + OverheadContribution(round, net.overheadGas, config.fees.breakevenOperationCount,
                                             |row.bundle.operations|)) * net.price(row))
            && check.expectedMaxCost == (if config.fees.NoFees? then 0 else check.gasEstimate * net.price(row))
            && (config.fees.NoFees? ==> check.requiredFee == 0)
  {
  }

  lemma {:induction false} FeesCoverRequired(round: RoundFn, config: Config, net: Network, rows: seq<BundleRow>)
    requires config.fees.EtherFees?
    requires forall r :: r in rows ==> Measuring(round, config, net).check(r).success
    ensures var s := Measuring(round, config, net); Sum(FeesOf(s, rows)) >= RequiredFees(s, rows)
  {
    var s := Measuring(round, config, net);
    if rows == [] {
    } else {
      var fee := s.check(rows[0]).expectedFee;
      FeesCoverRequired(round, config, net, rows[1..]);
      CheckMeans(round, config, net, rows[0]);
      FeesConcat(s, [rows[0]], rows[1..]);
      assert rows == [rows[0]] + rows[1..];
      assert FeesOf(s, [rows[0]]) == [fee] && Sum([fee]) == fee;
    }
  }

  ghost predicate AllFine(eps: real, overheadGas: nat, breakeven: Positive, num: nat, den: nat, rows: seq<BundleRow>) {
    forall r :: r in rows ==> Fine(eps, overheadGas, breakeven, num, den, |r.bundle.operations|)
  }

  lemma Multiplied(k: real, a: real, b: real)
    ensures Times(k, a + b) == Times(k, a) + Times(k, b)
  {
    Distribute(a, b, k);
    Commute(a, k);
    Commute(b, k);
    Commute(a + b, k);
  }

  /** The contributions cover the overhead's share of every operation; rounding up costs less than one
      unit of gas for each bundle. */
  lemma {:induction false} SharesCoverOverhead(round: RoundFn, eps: real, overheadGas: nat, breakeven: Positive,
                                               num: nat, den: nat, rows: seq<BundleRow>)
    requires Faithful(round, eps) && AllFine(eps, overheadGas, breakeven, num, den, rows)
    ensures Contributions(round, overheadGas, breakeven, rows) as real
            >= Share(overheadGas, breakeven, OperationCount(rows))
    ensures Contributions(round, overheadGas, breakeven, rows) as real
            <= Times(Power(1.0 + eps, 2), Share(overheadGas, breakeven, OperationCount(rows))) + |rows| as real
  {
    if rows == [] {
      SharesAdd(overheadGas, breakeven, 0, 0);
      assert Times(Power(1.0 + eps, 2), 0.0) == 0.0;
    } else {
      var n := |rows[0].bundle.operations|;
      assert rows[0] in rows;
      SharesCoverOverhead(round, eps, overheadGas, breakeven, num, den, rows[1..]);
      ContributionCovers(round, eps, overheadGas, breakeven, num, den, n);
      SharesAdd(overheadGas, breakeven, n, OperationCount(rows[1..]));
      Multiplied(Power(1.0 + eps, 2), Share(overheadGas, breakeven, n),
                 Share(overheadGas, breakeven, OperationCount(rows[1..])));
    }
  }

  lemma EnoughOperations(overheadGas: nat, breakeven: Positive, operations: nat)
    requires operations as real >= breakeven
    ensures Share(overheadGas, breakeven, operations) >= overheadGas as real
  {
    var one := overheadGas as real / breakeven;
    ShareNotNegative(overheadGas, breakeven);
    Widen(breakeven, operations as real, one);
    Commute(breakeven, one);
    Commute(operations as real, one);
    assert Times(one, breakeven) == overheadGas as real;
  }

  lemma {:induction false} IncludedSucceed(s: Setting, rows: seq<BundleRow>, gas: int)
    ensures forall r :: r in Chosen(s, Included, rows, gas) ==> s.check(r).success
  {
    if rows == [] {
    } else {
      IncludedSucceed(s, rows[1..], GasWith(s, rows[0], gas));
    }
  }

  lemma Ordered(a: int, b: int, p: nat)
    requires a >= b
    ensures a * p >= b * p
  {
  }

  lemma RequiredGasIncludesOverhead(round: RoundFn, eps: real, s: Setting, breakeven: Positive, num: nat, den: nat,
                                    rows: seq<BundleRow>)
    requires Faithful(round, eps) && s.overheadGas >= 0 && AllFine(eps, s.overheadGas, breakeven, num, den, rows)
    requires OperationCount(rows) as real >= breakeven
    ensures RequiredGas(round, s, breakeven, rows) >= s.overheadGas + Marginals(s, rows)
  {
    RequiredGasSplits(round, s, breakeven, rows);
    SharesCoverOverhead(round, eps, s.overheadGas, breakeven, num, den, rows);
    EnoughOperations(s.overheadGas, breakeven, OperationCount(rows));
  }

  /** What the main result asks of the included rows: enough operations, priced from p, and none with
      so many that doubles would miss a unit of its share. */
  ghost predicate BreaksEven(round: RoundFn, eps: real, config: Config, net: Network, num: nat, den: nat, p: nat,
                             included: seq<BundleRow>)
    requires config.fees.EtherFees?
  {
    && Faithful(round, eps)
    && AllFine(eps, net.overheadGas, config.fees.breakevenOperationCount, num, den, included)
    && PricedFrom(round, config, net, p, included)
    && OperationCount(included) as real >= config.fees.breakevenOperationCount
  }

  /** Once the included rows have enough operations to break even, their fees pay for the overhead
      and all their gas. */
  lemma FeesCoverAggregateGas(round: RoundFn, eps: real, config: Config, net: Network, num: nat, den: nat, p: nat,
                              tried: seq<BundleRow>)
    requires config.fees.EtherFees?
    requires BreaksEven(round, eps, config, net, num, den, p,
                        Chosen(Measuring(round, config, net), Included, tried, net.overheadGas))
    ensures var s := Measuring(round, config, net);
            Sum(FeesOf(s, Chosen(s, Included, tried, net.overheadGas))) >= GasAfter(s, tried, net.overheadGas) * p
  {
    var s, breakeven := Measuring(round, config, net), config.fees.breakevenOperationCount;
    var included := Chosen(s, Included, tried, net.overheadGas);
    IncludedSucceed(s, tried, net.overheadGas);
    FeesCoverRequired(round, config, net, included);
    RequiredFeesAddUp(round, config, net, p, included);
    RequiredGasIncludesOverhead(round, eps, s, breakeven, num, den, included);
    GasIsSum(s, tried, net.overheadGas);
    Ordered(RequiredGas(round, s, breakeven, included), GasAfter(s, tried, net.overheadGas), p);
  }

  lemma {:induction false} AggregateHasAllOperations(m: SignatureMonoid, rows: seq<BundleRow>)
    ensures |Total(m, BundlesOf(rows)).operations| == OperationCount(rows)
  {
    if rows == [] {
    } else {
      AggregateHasAllOperations(m, rows[1..]);
      assert BundlesOf(rows)[1..] == BundlesOf(rows[1..]);
    }
  }

  lemma CostGrows(gas: int, low: int, price: nat, p: nat)
    requires gas <= low && (price == p || (price < p && low >= 0))
    ensures gas * price <= low * p
  {
    Ordered(low, gas, price);
    if price < p {
      assert low * (p - price) >= 0;
    }
  }

  /** The surprise that loss prevention guards against: if the aggregate has enough operations to
      break even, is priced no higher than its parts and still loses, then it needs more gas than its
      parts were measured to need. */
  lemma LossMeansGasGrew(round: RoundFn, eps: real, m: SignatureMonoid, config: Config, net: Network, num: nat,
                         den: nat, p: nat, filtered: seq<BundleRow>, aggregate: Measured, price: nat)
    requires Laws(m) && RowsPaired(filtered) && config.fees.EtherFees?
    requires var s := Measuring(round, config, net);
             var tried := RowsTried(s, config.bundleCheckingConcurrency, filtered);
             var included := Chosen(s, Included, tried, net.overheadGas);
             var bundle := BuiltUp(m, s, config.bundleCheckingConcurrency, filtered);
             && bundle.Some? && BreaksEven(round, eps, config, net, num, den, p, included)
             && (price == p || (price < p && GasAfter(s, tried, net.overheadGas) >= 0))
             && Sum(FeesOf(s, included))
                < CheckBundle(round, config.fees, 0, price, aggregate, |bundle.value.operations|).expectedMaxCost
    ensures var s := Measuring(round, config, net);
            aggregate.gasEstimate
            > GasAfter(s, RowsTried(s, config.bundleCheckingConcurrency, filtered), net.overheadGas)
  {
    var s := Measuring(round, config, net);
    var tried := RowsTried(s, config.bundleCheckingConcurrency, filtered);
    FeesCoverAggregateGas(round, eps, config, net, num, den, p, tried);
    if aggregate.gasEstimate <= GasAfter(s, tried, net.overheadGas) {
      CostGrows(aggregate.gasEstimate, GasAfter(s, tried, net.overheadGas), price, p);
    }
  }

  /** An aggregate is returned under loss prevention just when the fees pay for its gas at its price. */
  lemma ReturnedAggregatePays(round: RoundFn, config: Config, aggregate: Measured, price: nat, operations: nat,
                              included: seq<BundleRow>, failed: seq<BundleRow>, bundle: Bundle, fee: int,
                              result: Result)
    requires PreventsLosses(config.fees) && included != []
    requires IsResult(config.fees, included, failed, bundle, fee,
                      CheckBundle(round, config.fees, 0, price, aggregate, operations).expectedMaxCost, result)
    ensures result.aggregateBundle.Some? <==> fee >= aggregate.gasEstimate * price
    ensures result.aggregateBundle.Some? ==> result.expectedMaxCost == aggregate.gasEstimate * price
  {
    ResultMeans(config.fees, included, failed, bundle, fee,
                CheckBundle(round, config.fees, 0, price, aggregate, operations).expectedMaxCost, result);
  }

  /** Loss prevention counts the operations of the aggregate, which are those of the included rows. */
  lemma AggregateBreaksEven(m: SignatureMonoid, s: Setting, concurrency: nat, filtered: seq<BundleRow>)
    requires Laws(m) && RowsPaired(filtered) && BuiltUp(m, s, concurrency, filtered).Some?
    ensures |BuiltUp(m, s, concurrency, filtered).value.operations|
            == OperationCount(Chosen(s, Included, RowsTried(s, concurrency, filtered), s.overheadGas))
  {
    BuiltUpExactly(m, s, concurrency, filtered);
    AggregateHasAllOperations(m, Chosen(s, Included, RowsTried(s, concurrency, filtered), s.overheadGas));
  }
}
