/** L1 fees on Optimism: the L2 gas that EthereumService.ts sets aside for them, computed with rounding,
    and the fee that getOptimismL1Fee.ts finds was charged. */
module OptimismFee {
  import opened Bytes
  import opened Rounding
  import Strategy
  import PseudoFloat

  /** Parameters of the gas price oracle. */
  datatype Oracle = Oracle(l1BaseFee: nat, overhead: nat, scalar: nat, decimals: nat)

  function CallDataGas(bytes: seq<Byte>): nat {
    if bytes == [] then 0
    else CallDataGas(bytes[..|bytes| - 1]) + if bytes[|bytes| - 1] == 0 then 4 else 16
  }

  function ZeroBytes(bytes: seq<Byte>): nat {
    if bytes == [] then 0 else ZeroBytes(bytes[..|bytes| - 1]) + if bytes[|bytes| - 1] == 0 then 1 else 0
  }

  lemma {:induction false} CallDataGasCounts(bytes: seq<Byte>)
    ensures ZeroBytes(bytes) <= |bytes|
    ensures CallDataGas(bytes) == 4 * ZeroBytes(bytes) + 16 * (|bytes| - ZeroBytes(bytes))
  {
    if bytes == [] {
    } else {
      CallDataGasCounts(bytes[..|bytes| - 1]);
    }
  }

  /** What a unit of L1 gas costs. */
  function L1GasPrice(oracle: Oracle): real {
    Times(oracle.l1BaseFee as real, oracle.scalar as real / PseudoFloat.Pow10(oracle.decimals) as real)
  }

  function Factor(percentIncrease: real): real {
    1.0 + percentIncrease / 100.0
  }

  /** `feeRatio`, one rounding for each operation. */
  function FeeRatio(round: RoundFn, oracle: Oracle, percentIncrease: real, baseFeePerGas: nat): real
    requires baseFeePerGas > 0
  {
    var scalarNum := round(oracle.scalar as real / PseudoFloat.Pow10(oracle.decimals) as real);
    var factor := round(1.0 + round(percentIncrease / 100.0));
    var adjustedL1BaseFee := round(Times(round(Times(oracle.l1BaseFee as real, scalarNum)), factor));
    round(adjustedL1BaseFee / baseFeePerGas as real)
  }

  function L2GasFor(round: RoundFn, l1Gas: nat, oracle: Oracle, percentIncrease: real, baseFeePerGas: nat): int
    requires baseFeePerGas > 0
  {
    Strategy.Ceil(round(Times(FeeRatio(round, oracle, percentIncrease, baseFeePerGas), l1Gas as real)))
  }

  function Fee(l1Gas: nat, oracle: Oracle): int {
    l1Gas * oracle.l1BaseFee * oracle.scalar / PseudoFloat.Pow10(oracle.decimals)
  }

  method EstimateOptimismL2GasNeededForL1Gas(round: RoundFn, txBytes: seq<Byte>, oracle: Oracle,
                                             percentIncrease: real, baseFeePerGas: nat) returns (l2Gas: int)
    requires baseFeePerGas > 0
    ensures l2Gas == L2GasFor(round, CallDataGas(txBytes) + oracle.overhead, oracle, percentIncrease, baseFeePerGas)
  {
    var l1Gas := 0;
    for i := 0 to |txBytes|
      invariant l1Gas == CallDataGas(txBytes[..i])
    {
      assert txBytes[..i + 1][..i] == txBytes[..i];
      l1Gas := l1Gas + if txBytes[i] == 0 then 4 else 16;
    }
    assert txBytes[..|txBytes|] == txBytes;
    var scalarNum := round(oracle.scalar as real / PseudoFloat.Pow10(oracle.decimals) as real);
    l1Gas := l1Gas + oracle.overhead;
    var factor := round(1.0 + round(percentIncrease / 100.0));
    var adjustedL1BaseFee := round(Times(round(Times(oracle.l1BaseFee as real, scalarNum)), factor));
    var feeRatio := round(adjustedL1BaseFee / baseFeePerGas as real);
    l2Gas := Strategy.Ceil(round(Times(feeRatio, l1Gas as real)));
  }

  method GetOptimismL1Fee(rawTx: seq<Byte>, oracle: Oracle) returns (l1Fee: int)
    ensures l1Fee == Fee(CallDataGas(rawTx) + oracle.overhead, oracle)
  {
    var l1Gas := 0;
    for i := 0 to |rawTx|
      invariant l1Gas == CallDataGas(rawTx[..i])
    {
      assert rawTx[..i + 1][..i] == rawTx[..i];
      if rawTx[i] == 0 {
        l1Gas := l1Gas + 4;
      } else {
        l1Gas := l1Gas + 16;
      }
    }
    assert rawTx[..|rawTx|] == rawTx;
    l1Gas := l1Gas + oracle.overhead;
    l1Fee := l1Gas * oracle.l1BaseFee * oracle.scalar / PseudoFloat.Pow10(oracle.decimals);
  }

  lemma FloorBelow(a: int, b: nat)
    requires b > 0
    ensures (a / b) as real <= a as real / b as real < (a / b) as real + 1.0
  {
    var q, unit := a / b, b as real;
    assert q * b <= a < (q + 1) * b;
    assert q as real * unit <= a as real < (q + 1) as real * unit;
    DivideBoth(q as real, a as real, unit);
    DivideBelow((q + 1) as real, a as real, unit);
  }

  lemma DivideBelow(x: real, y: real, b: real)
    requires b > 0.0 && y < x * b
    ensures y / b < x
  {
    assert (x * b - y) / b == x - y / b;
  }

  lemma DivideBoth(x: real, y: real, b: real)
    requires b > 0.0 && x * b <= y
    ensures x <= y / b
  {
    assert (y - x * b) / b == y / b - x;
  }

  lemma WholeProduct(a: int, b: int)
    ensures Times(a as real, b as real) == (a * b) as real
  {
  }

  lemma ExactFee(gas: nat, fee: nat, scalar: nat, unit: nat)
    requires unit > 0
    ensures (gas * fee * scalar) as real / unit as real
            == Times(gas as real, Times(fee as real, scalar as real / unit as real))
  {
    var i := 1.0 / unit as real;
    WholeProduct(gas, fee);
    WholeProduct(gas * fee, scalar);
    ByInverse((gas * fee * scalar) as real, unit as real);
    ByInverse(scalar as real, unit as real);
    Associate(Times(gas as real, fee as real), scalar as real, i);
    Associate(gas as real, fee as real, Times(scalar as real, i));
  }

  /** The charged fee is the exact one, rounded down. */
  lemma FeeIsRoundedDown(l1Gas: nat, oracle: Oracle)
    ensures Fee(l1Gas, oracle) as real <= Times(l1Gas as real, L1GasPrice(oracle)) < Fee(l1Gas, oracle) as real + 1.0
  {
    FloorBelow(l1Gas * oracle.l1BaseFee * oracle.scalar, PseudoFloat.Pow10(oracle.decimals));
    ExactFee(l1Gas, oracle.l1BaseFee, oracle.scalar, PseudoFloat.Pow10(oracle.decimals));
  }

  // ---- What is set aside ----

  lemma FactorComputed(round: RoundFn, eps: real, percentIncrease: real)
    requires Faithful(round, eps) && percentIncrease >= 0.0
    ensures After(eps, 2, round(1.0 + round(percentIncrease / 100.0)), Factor(percentIncrease))
  {
    var x := percentIncrease / 100.0;
    AfterNone(eps, x);
    AfterRound(round, eps, 0, x, x);
    NearPlusOne(Power(1.0 - eps, 1), Power(1.0 + eps, 1), round(x), x);
    AfterRound(round, eps, 1, 1.0 + round(x), 1.0 + x);
  }

  lemma PriceComputed(round: RoundFn, eps: real, oracle: Oracle)
    requires Faithful(round, eps)
    ensures var scalarNum := round(oracle.scalar as real / PseudoFloat.Pow10(oracle.decimals) as real);
            After(eps, 2, round(Times(oracle.l1BaseFee as real, scalarNum)), L1GasPrice(oracle))
  {
    var fee, s := oracle.l1BaseFee as real, oracle.scalar as real / PseudoFloat.Pow10(oracle.decimals) as real;
    AfterNone(eps, s);
    AfterRound(round, eps, 0, s, s);
    AfterNone(eps, fee);
    AfterTimes(eps, 0, fee, fee, 1, round(s), s);
    AfterRound(round, eps, 1, Times(fee, round(s)), Times(fee, s));
  }

  lemma RatioComputed(round: RoundFn, eps: real, oracle: Oracle, percentIncrease: real, baseFeePerGas: nat)
    requires Faithful(round, eps) && percentIncrease >= 0.0 && baseFeePerGas > 0
    ensures After(eps, 6, FeeRatio(round, oracle, percentIncrease, baseFeePerGas),
                  Times(L1GasPrice(oracle), Factor(percentIncrease)) / baseFeePerGas as real)
  {
    var scalarNum := round(oracle.scalar as real / PseudoFloat.Pow10(oracle.decimals) as real);
    var price, factor := round(Times(oracle.l1BaseFee as real, scalarNum)), round(1.0 + round(percentIncrease / 100.0));
    var exact := Times(L1GasPrice(oracle), Factor(percentIncrease));
    PriceComputed(round, eps, oracle);
    FactorComputed(round, eps, percentIncrease);
    AfterTimes(eps, 2, price, L1GasPrice(oracle), 2, factor, Factor(percentIncrease));
    AfterRound(round, eps, 4, Times(price, factor), exact);
    var adjusted := round(Times(price, factor));
    NearDivided(Power(1.0 - eps, 5), Power(1.0 + eps, 5), adjusted, exact, baseFeePerGas as real);
    AfterRound(round, eps, 5, adjusted / baseFeePerGas as real, exact / baseFeePerGas as real);
  }

  /** The exact fee, increased by the percentage. */
  function Adjusted(l1Gas: nat, oracle: Oracle, percentIncrease: real): real {
    Times(Times(L1GasPrice(oracle), Factor(percentIncrease)), l1Gas as real)
  }

  lemma DividedBack(x: real, base: real, gas: real)
    requires base > 0.0
    ensures Times(Times(x / base, gas), base) == Times(x, gas)
  {
    Associate(x / base, gas, base);
    Commute(gas, base);
    Associate(x / base, base, gas);
    assert Times(x / base, base) == x;
  }

  /** What the set-aside gas is worth, from both sides: the adjusted exact fee, but for seven roundings,
      and less than one unit of gas more. */
  lemma EstimateIsTight(round: RoundFn, eps: real, l1Gas: nat, oracle: Oracle, percentIncrease: real,
                        baseFeePerGas: nat)
    requires Faithful(round, eps) && percentIncrease >= 0.0 && baseFeePerGas > 0
    ensures var adjusted := Adjusted(l1Gas, oracle, percentIncrease);
            var worth := L2GasFor(round, l1Gas, oracle, percentIncrease, baseFeePerGas) * baseFeePerGas;
            Times(Power(1.0 - eps, 7), adjusted) <= worth as real
            < Times(Power(1.0 + eps, 7), adjusted) + baseFeePerGas as real
  {
    var base, gas := baseFeePerGas as real, l1Gas as real;
    var exact := Times(L1GasPrice(oracle), Factor(percentIncrease)) / base;
    var ratio := FeeRatio(round, oracle, percentIncrease, baseFeePerGas);
    var y := round(Times(ratio, gas));
    RatioComputed(round, eps, oracle, percentIncrease, baseFeePerGas);
    AfterNone(eps, gas);
    AfterTimes(eps, 6, ratio, exact, 0, gas, gas);
    AfterRound(round, eps, 6, Times(ratio, gas), Times(exact, gas));
    NearScaled(Power(1.0 - eps, 7), Power(1.0 + eps, 7), y, Times(exact, gas), base);
    DividedBack(Times(L1GasPrice(oracle), Factor(percentIncrease)), base, gas);
    CeilWorth(y, base);
    WholeProduct(L2GasFor(round, l1Gas, oracle, percentIncrease, baseFeePerGas), baseFeePerGas);
  }

  lemma CeilWorth(y: real, base: real)
    requires base > 0.0
    ensures Times(y, base) <= Times(Strategy.Ceil(y) as real, base) < Times(y, base) + base
  {
    var c := Strategy.Ceil(y) as real;
    Strategy.CeilCovers(y);
    Widen(y, c, base);
    Distribute(y, c, base);
    Distribute(y + 1.0, c, base);
    Distribute(y, 1.0, base);
    ByOne(base);
    Positive(y + 1.0 - c, base);
  }

  lemma Positive(a: real, b: real)
    requires a > 0.0 && b > 0.0
    ensures Times(a, b) > 0.0
  {
  }

  /** In exact arithmetic there are no roundings, and the percentage may be negative. */
  lemma EstimateIsTightExactly(l1Gas: nat, oracle: Oracle, percentIncrease: real, baseFeePerGas: nat)
    requires baseFeePerGas > 0
    ensures var adjusted := Adjusted(l1Gas, oracle, percentIncrease);
            var l2Gas := L2GasFor((x: real) => x, l1Gas, oracle, percentIncrease, baseFeePerGas);
            adjusted <= (l2Gas * baseFeePerGas) as real < adjusted + baseFeePerGas as real
  {
    var base, gas, exact := baseFeePerGas as real, l1Gas as real, (x: real) => x;
    var ratio := Times(L1GasPrice(oracle), Factor(percentIncrease)) / base;
    assert FeeRatio(exact, oracle, percentIncrease, baseFeePerGas) == ratio;
    CeilWorth(Times(ratio, gas), base);
    DividedBack(Times(L1GasPrice(oracle), Factor(percentIncrease)), base, gas);
    WholeProduct(L2GasFor(exact, l1Gas, oracle, percentIncrease, baseFeePerGas), baseFeePerGas);
  }

  /** The rounding does not eat up the increase, or is worth less than one wei. */
  predicate Enough(eps: real, l1Gas: nat, oracle: Oracle, percentIncrease: real) {
    || Times(Power(1.0 - eps, 7), Factor(percentIncrease)) >= 1.0
    || Times(Times(7.0, eps), Adjusted(l1Gas, oracle, percentIncrease)) < 1.0
  }

  /** For doubles: an increase of a 10^-13th percent will do, or a fee below 2^50 wei. */
  lemma EnoughForDoubles(l1Gas: nat, oracle: Oracle, percentIncrease: real)
    requires percentIncrease >= 0.0
    requires percentIncrease >= 0.0000000000001
             || Adjusted(l1Gas, oracle, percentIncrease) < 1125899906842624.0
    ensures Enough(DOUBLE_EPS, l1Gas, oracle, percentIncrease)
  {
    var p, x := Power(1.0 - DOUBLE_EPS, 7), percentIncrease / 100.0;
    if percentIncrease >= 0.0000000000001 {
      LossIsSmall(DOUBLE_EPS, 7);
      assert Times(7.0, DOUBLE_EPS) == 7.0 / 9007199254740992.0;
      ProductOrdered(1.0 - Times(7.0, DOUBLE_EPS), p, 1.000000000000001, Factor(percentIncrease));
      assert Times(1.0 - Times(7.0, DOUBLE_EPS), 1.000000000000001) >= 1.0;
    } else {
      AdjustedIsMore(l1Gas, oracle, percentIncrease);
      assert Times(7.0, DOUBLE_EPS) == 7.0 / 9007199254740992.0;
      Widen(Adjusted(l1Gas, oracle, percentIncrease), 1125899906842624.0, Times(7.0, DOUBLE_EPS));
      Commute(Adjusted(l1Gas, oracle, percentIncrease), Times(7.0, DOUBLE_EPS));
      Commute(1125899906842624.0, Times(7.0, DOUBLE_EPS));
      assert Times(Times(7.0, DOUBLE_EPS), 1125899906842624.0) < 1.0;
    }
  }

  /** The exact fee is not more than the adjusted one. */
  lemma AdjustedIsMore(l1Gas: nat, oracle: Oracle, percentIncrease: real)
    requires percentIncrease >= 0.0
    ensures var exact := Times(l1Gas as real, L1GasPrice(oracle));
            0.0 <= exact <= Adjusted(l1Gas, oracle, percentIncrease) == Times(Factor(percentIncrease), exact)
  {
    var price, factor, gas := L1GasPrice(oracle), Factor(percentIncrease), l1Gas as real;
    Commute(price, factor);
    Associate(factor, price, gas);
    Commute(price, gas);
    PriceIsNotNegative(oracle);
    ProductNotNegative(gas, price);
    Widen(1.0, factor, Times(gas, price));
    ByOne(Times(gas, price));
  }

  lemma PriceIsNotNegative(oracle: Oracle)
    ensures L1GasPrice(oracle) >= 0.0
  {
    var unit := PseudoFloat.Pow10(oracle.decimals) as real;
    ByInverse(oracle.scalar as real, unit);
    ProductNotNegative(oracle.scalar as real, 1.0 / unit);
    ProductNotNegative(oracle.l1BaseFee as real, oracle.scalar as real / unit);
  }

  /** Over the same bytes and prices the gas set aside pays for the fee. */
  lemma EstimateCoversFee(round: RoundFn, eps: real, bytes: seq<Byte>, oracle: Oracle, percentIncrease: real,
                          baseFeePerGas: nat)
    requires Faithful(round, eps) && percentIncrease >= 0.0 && baseFeePerGas > 0
    requires Enough(eps, CallDataGas(bytes) + oracle.overhead, oracle, percentIncrease)
    ensures var l1Gas := CallDataGas(bytes) + oracle.overhead;
            L2GasFor(round, l1Gas, oracle, percentIncrease, baseFeePerGas) * baseFeePerGas >= Fee(l1Gas, oracle)
  {
    var l1Gas := CallDataGas(bytes) + oracle.overhead;
    var exact := Times(l1Gas as real, L1GasPrice(oracle));
    EstimateIsTight(round, eps, l1Gas, oracle, percentIncrease, baseFeePerGas);
    FeeIsRoundedDown(l1Gas, oracle);
    AdjustedIsMore(l1Gas, oracle, percentIncrease);
    LowEnough(eps, Factor(percentIncrease), exact);
  }

  /** Either way what is lost is less than one wei. */
  lemma LowEnough(eps: real, factor: real, exact: real)
    requires 0.0 <= eps < 1.0 && exact >= 0.0 && factor >= 1.0 && Times(factor, exact) >= exact
    requires Times(Power(1.0 - eps, 7), factor) >= 1.0 || Times(Times(7.0, eps), Times(factor, exact)) < 1.0
    ensures Times(Power(1.0 - eps, 7), Times(factor, exact)) > exact - 1.0
  {
    var p, a := Power(1.0 - eps, 7), Times(factor, exact);
    LossIsSmall(eps, 7);
    if Times(p, factor) >= 1.0 {
      Associate(p, factor, exact);
      Widen(1.0, Times(p, factor), exact);
      ByOne(exact);
    } else {
      Widen(1.0 - Times(7.0, eps), p, a);
      Distribute(1.0, Times(7.0, eps), a);
      ByOne(a);
    }
  }
}
