/** Choosing what goes into the next aggregate bundle (AggregationStrategy.ts). Whatever the network
    answers - measured fees, gas estimates, the gas price - is an arbitrary input; fees are paid in
    ether, and the one place that computes in doubles takes the rounding as a parameter. */
module Strategy {
  import opened Wrappers
  import opened Operations
  import opened Aggregate
  import opened FilterRows
  import Rounding

  type Positive = x: real | x > 0.0 witness 1.0

  datatype Fees = NoFees | EtherFees(allowLosses: bool, breakevenOperationCount: Positive)

  datatype Config = Config(maxGasPerBundle: int, bundleCheckingConcurrency: nat, fees: Fees)

  // ---- Checking one bundle ----

  /** What a simulation of the bundle reports. */
  datatype Measured = Measured(success: bool, fee: int, gasEstimate: int)

  datatype Check = Check(success: bool, gasEstimate: int, expectedFee: int, requiredFee: int, expectedMaxCost: int)

  function Ceil(x: real): int {
    -((-x).Floor)
  }

  lemma CeilCovers(x: real)
    ensures x <= Ceil(x) as real < x + 1.0
  {
  }

  /** The share of the overhead that this many operations have to carry. */
  function OverheadContribution(round: Rounding.RoundFn, overheadGas: int, breakeven: Positive, operations: nat): int {
    Ceil(round(round(overheadGas as real / breakeven) * operations as real))
  }

  function RequiredFee(round: Rounding.RoundFn, overheadGas: int, maxFeePerGas: nat, breakeven: Positive,
                       gasEstimate: int, operations: nat): int
  {
    (gasEstimate - overheadGas + OverheadContribution(round, overheadGas, breakeven, operations)) * maxFeePerGas
  }

  function CheckBundle(round: Rounding.RoundFn, fees: Fees, overheadGas: int, maxFeePerGas: nat, measured: Measured,
                       operations: nat): Check
  {
    match fees
    case NoFees => Check(measured.success, measured.gasEstimate, measured.fee, 0, 0)
    case EtherFees(_, breakeven) =>
      var required := RequiredFee(round, overheadGas, maxFeePerGas, breakeven, measured.gasEstimate, operations);
      Check(measured.success && measured.fee >= required, measured.gasEstimate, measured.fee, required,
            measured.gasEstimate * maxFeePerGas)
  }

  // ---- One pass over candidate rows ----

  /** The setting of one run: the overhead, the cap and how each row's check turns out. */
  datatype Setting = Setting(overheadGas: int, maxGasPerBundle: int, check: BundleRow -> Check)

  datatype Outcome = Included | Failed | ExceedsGas

  function Marginal(s: Setting, row: BundleRow): int {
    s.check(row).gasEstimate - s.overheadGas
  }

  function Decide(s: Setting, row: BundleRow, gas: int): Outcome {
    if !s.check(row).success then Failed
    else if gas + Marginal(s, row) > s.maxGasPerBundle then ExceedsGas
    else Included
  }

  /** The gas once this row has been considered. */
  function GasWith(s: Setting, row: BundleRow, gas: int): int {
    if Decide(s, row, gas) == Included then gas + Marginal(s, row) else gas
  }

  function GasAfter(s: Setting, rows: seq<BundleRow>, gas: int): int {
    if rows == [] then gas else GasAfter(s, rows[1..], GasWith(s, rows[0], gas))
  }

  /** The rows with this outcome, in order, when all are considered in order from this much gas. */
  function Chosen(s: Setting, outcome: Outcome, rows: seq<BundleRow>, gas: int): seq<BundleRow> {
    if rows == [] then []
    else
      (if Decide(s, rows[0], gas) == outcome then [rows[0]] else [])
      + Chosen(s, outcome, rows[1..], GasWith(s, rows[0], gas))
  }

  /** The rows whose check does not succeed, in order. */
  function Unsuccessful(s: Setting, rows: seq<BundleRow>): seq<BundleRow> {
    if rows == [] then []
    else (if s.check(rows[0]).success then [] else [rows[0]]) + Unsuccessful(s, rows[1..])
  }

  /** They are exactly the rows that fail, whatever the gas. */
  lemma {:induction false} FailedAreUnsuccessful(s: Setting, rows: seq<BundleRow>, gas: int)
    ensures Chosen(s, Failed, rows, gas) == Unsuccessful(s, rows)
  {
    if rows == [] {
    } else {
      FailedAreUnsuccessful(s, rows[1..], GasWith(s, rows[0], gas));
    }
  }

  lemma {:induction false} GasSplits(s: Setting, a: seq<BundleRow>, b: seq<BundleRow>, gas: int)
    ensures GasAfter(s, a + b, gas) == GasAfter(s, b, GasAfter(s, a, gas))
  {
    if a == [] {
      assert a + b == b;
    } else {
      assert (a + b)[1..] == a[1..] + b;
      GasSplits(s, a[1..], b, GasWith(s, a[0], gas));
    }
  }

  lemma {:induction false} ChosenSplits(s: Setting, a: seq<BundleRow>, b: seq<BundleRow>, gas: int, outcome: Outcome)
    ensures Chosen(s, outcome, a + b, gas) == Chosen(s, outcome, a, gas) + Chosen(s, outcome, b, GasAfter(s, a, gas))
  {
    if a == [] {
      assert a + b == b;
    } else {
      assert (a + b)[1..] == a[1..] + b;
      ChosenSplits(s, a[1..], b, GasWith(s, a[0], gas), outcome);
    }
  }

  lemma PassSplits(s: Setting, a: seq<BundleRow>, b: seq<BundleRow>, gas: int, outcome: Outcome)
    ensures GasAfter(s, a + b, gas) == GasAfter(s, b, GasAfter(s, a, gas))
    ensures Chosen(s, outcome, a + b, gas) == Chosen(s, outcome, a, gas) + Chosen(s, outcome, b, GasAfter(s, a, gas))
  {
    GasSplits(s, a, b, gas);
    ChosenSplits(s, a, b, gas, outcome);
  }

  lemma PassNext(s: Setting, rows: seq<BundleRow>, i: nat, gas: int, outcome: Outcome)
    requires i < |rows|
    ensures var before := GasAfter(s, rows[..i], gas);
            var first := Decide(s, rows[i], before);
            && GasAfter(s, rows[..i + 1], gas) == (if first == Included then before + Marginal(s, rows[i]) else before)
            && Chosen(s, outcome, rows[..i + 1], gas)
               == Chosen(s, outcome, rows[..i], gas) + if first == outcome then [rows[i]] else []
  {
    assert rows[..i + 1] == rows[..i] + [rows[i]];
    PassSplits(s, rows[..i], [rows[i]], gas, outcome);
    assert [rows[i]][1..] == [];
  }

  // ---- Rounds ----

  function FeesOf(s: Setting, rows: seq<BundleRow>): (fees: seq<int>)
    ensures |fees| == |rows|
    ensures forall i :: 0 <= i < |rows| ==> fees[i] == s.check(rows[i]).expectedFee
  {
    seq(|rows|, i requires 0 <= i < |rows| => s.check(rows[i]).expectedFee)
  }

  function Sum(values: seq<int>): int {
    if values == [] then 0 else Sum(values[..|values| - 1]) + values[|values| - 1]
  }

  function BundlesOf(rows: seq<BundleRow>): (bundles: seq<Bundle>)
    ensures |bundles| == |rows|
    ensures forall i :: 0 <= i < |rows| ==> bundles[i] == rows[i].bundle
  {
    seq(|rows|, i requires 0 <= i < |rows| => rows[i].bundle)
  }

  datatype Round = Round(aggregateBundle: Option<Bundle>, aggregateGas: int, includedRows: seq<BundleRow>,
                         expectedFees: seq<int>, failedRows: seq<BundleRow>, remainingEligibleRows: seq<BundleRow>)

  function Candidates(concurrency: nat, eligibleRows: seq<BundleRow>): (n: nat)
    ensures n <= |eligibleRows|
  {
    if concurrency <= |eligibleRows| then concurrency else |eligibleRows|
  }

  /** What one round makes of the first few eligible rows. The aggregate is None where the library
      fails. */
  function RoundOf(m: SignatureMonoid, s: Setting, concurrency: nat, bundle: Bundle, gas: int,
                   eligibleRows: seq<BundleRow>)
    : Round
  {
    var n := Candidates(concurrency, eligibleRows);
    var included := Chosen(s, Included, eligibleRows[..n], gas);
    Round(AggregateAll(m, [bundle] + BundlesOf(included)), GasAfter(s, eligibleRows[..n], gas), included,
          FeesOf(s, included), Chosen(s, Failed, eligibleRows[..n], gas), eligibleRows[n..])
  }

  /** One round: the first few eligible rows are checked and considered in order. */
  method AugmentAggregateBundle(m: SignatureMonoid, s: Setting, concurrency: nat, previousAggregateBundle: Bundle,
                                previousAggregateGas: int, eligibleRows: seq<BundleRow>) returns (round: Round)
    ensures round == RoundOf(m, s, concurrency, previousAggregateBundle, previousAggregateGas, eligibleRows)
    ensures var n := if concurrency <= |eligibleRows| then concurrency else |eligibleRows|;
            && round.remainingEligibleRows == eligibleRows[n..]
            && round.failedRows == Unsuccessful(s, eligibleRows[..n])
            && (forall r :: r in round.includedRows ==> r in eligibleRows[..n])
  {
    var n := Candidates(concurrency, eligibleRows);
    var candidateRows := eligibleRows[..n];
    var aggregateGas := previousAggregateGas;
    var includedRows: seq<BundleRow> := [];
    var expectedFees: seq<int> := [];
    var failedRows: seq<BundleRow> := [];
    for i := 0 to |candidateRows|
      invariant includedRows == Chosen(s, Included, candidateRows[..i], previousAggregateGas)
      invariant failedRows == Chosen(s, Failed, candidateRows[..i], previousAggregateGas)
      invariant aggregateGas == GasAfter(s, candidateRows[..i], previousAggregateGas)
      invariant expectedFees == FeesOf(s, includedRows)
    {
      PassNext(s, candidateRows, i, previousAggregateGas, Included);
      PassNext(s, candidateRows, i, previousAggregateGas, Failed);
      var row := candidateRows[i];
      var check := s.check(row);
      if !check.success {
        failedRows := failedRows + [row];
        continue;
      }
      var newAggregateGas := aggregateGas + (check.gasEstimate - s.overheadGas);
      if newAggregateGas > s.maxGasPerBundle {
        continue;
      }
      aggregateGas := newAggregateGas;
      includedRows := includedRows + [row];
      expectedFees := expectedFees + [check.expectedFee];
    }
    assert candidateRows[..|candidateRows|] == candidateRows;
    FailedAreUnsuccessful(s, candidateRows, previousAggregateGas);
    ChosenAreRows(s, Included, candidateRows, previousAggregateGas);
    round := Round(AggregateAll(m, [previousAggregateBundle] + BundlesOf(includedRows)), aggregateGas, includedRows,
                   expectedFees, failedRows, eligibleRows[n..]);
  }

  datatype Accumulated = Accumulated(aggregateBundle: Bundle, aggregateGas: int, includedRows: seq<BundleRow>,
                                     failedRows: seq<BundleRow>, expectedFee: int)

  /** The assignments at the end of a round. */
  function Absorb(a: Accumulated, round: Round): Accumulated
    requires round.aggregateBundle.Some?
  {
    Accumulated(round.aggregateBundle.value, round.aggregateGas, a.includedRows + round.includedRows,
                a.failedRows + round.failedRows, a.expectedFee + Sum(round.expectedFees))
  }

  /** Round after round until one includes nothing; None where the library fails in some round. */
  function AllRounds(m: SignatureMonoid, s: Setting, concurrency: nat, eligibleRows: seq<BundleRow>, a: Accumulated)
    : Option<Accumulated>
    decreases |eligibleRows|
  {
    var round := RoundOf(m, s, concurrency, a.aggregateBundle, a.aggregateGas, eligibleRows);
    if round.aggregateBundle.None? then None
    else if round.includedRows == [] then Some(Absorb(a, round))
    else AllRounds(m, s, concurrency, round.remainingEligibleRows, Absorb(a, round))
  }

  function Initially(m: SignatureMonoid, s: Setting): Accumulated {
    Accumulated(Total(m, []), s.overheadGas, [], [], 0)
  }

  method AccumulateRounds(m: SignatureMonoid, s: Setting, concurrency: nat, filteredRows: seq<BundleRow>)
    returns (result: Option<Accumulated>)
    ensures result == AllRounds(m, s, concurrency, filteredRows, Initially(m, s))
  {
    var a := Initially(m, s);
    var eligibleRows := filteredRows;
    while true
      invariant AllRounds(m, s, concurrency, eligibleRows, a)
                == AllRounds(m, s, concurrency, filteredRows, Initially(m, s))
      decreases |eligibleRows|
    {
      var round := AugmentAggregateBundle(m, s, concurrency, a.aggregateBundle, a.aggregateGas, eligibleRows);
      if round.aggregateBundle.None? {
        return None;
      }
      a := Absorb(a, round);
      eligibleRows := round.remainingEligibleRows;
      if |round.includedRows| == 0 {
        break;
      }
    }
    result := Some(a);
  }

  // ---- What the rounds amount to ----

  /** How many rows are tried. */
  function Tried(s: Setting, concurrency: nat, rows: seq<BundleRow>, gas: int): (k: nat)
    ensures k <= |rows|
    decreases |rows|
  {
    var n := Candidates(concurrency, rows);
    if Chosen(s, Included, rows[..n], gas) == [] then n
    else n + Tried(s, concurrency, rows[n..], GasAfter(s, rows[..n], gas))
  }

  /** The bundles included round by round; the last round includes none. */
  function Rounds(s: Setting, concurrency: nat, rows: seq<BundleRow>, gas: int): (rounds: seq<seq<Bundle>>)
    ensures rounds != []
    decreases |rows|
  {
    var n := Candidates(concurrency, rows);
    var included := Chosen(s, Included, rows[..n], gas);
    [BundlesOf(included)]
    + if included == [] then [] else Rounds(s, concurrency, rows[n..], GasAfter(s, rows[..n], gas))
  }

  /** The bundles of all rounds, aggregated round by round. */
  function BuiltUp(m: SignatureMonoid, s: Setting, concurrency: nat, rows: seq<BundleRow>): Option<Bundle> {
    Incremental(m, Total(m, []), Rounds(s, concurrency, rows, s.overheadGas))
  }

  function RowsTried(s: Setting, concurrency: nat, rows: seq<BundleRow>): seq<BundleRow> {
    rows[..Tried(s, concurrency, rows, s.overheadGas)]
  }

  lemma {:induction false} SumConcat(a: seq<int>, b: seq<int>)
    ensures Sum(a + b) == Sum(a) + Sum(b)
  {
    if b == [] {
      assert a + b == a;
    } else {
      assert (a + b)[..|a + b| - 1] == a + b[..|b| - 1];
      SumConcat(a, b[..|b| - 1]);
    }
  }

  /** With SumConcat this says what a sum is. */
  lemma SumOne(x: int)
    ensures Sum([x]) == x && Sum([]) == 0
  {
    assert [x][..0] == [];
  }

  lemma FeesConcat(s: Setting, a: seq<BundleRow>, b: seq<BundleRow>)
    ensures Sum(FeesOf(s, a + b)) == Sum(FeesOf(s, a)) + Sum(FeesOf(s, b))
  {
    assert FeesOf(s, a + b) == FeesOf(s, a) + FeesOf(s, b);
    SumConcat(FeesOf(s, a), FeesOf(s, b));
  }

  /** What a pass over the rows tried adds to `run`'s variables. */
  ghost predicate OnePass(s: Setting, before: Accumulated, tried: seq<BundleRow>, after: Accumulated) {
    && after.includedRows == before.includedRows + Chosen(s, Included, tried, before.aggregateGas)
    && after.failedRows == before.failedRows + Chosen(s, Failed, tried, before.aggregateGas)
    && after.aggregateGas == GasAfter(s, tried, before.aggregateGas)
    && after.expectedFee == before.expectedFee + Sum(FeesOf(s, Chosen(s, Included, tried, before.aggregateGas)))
  }

  lemma PassesJoin(s: Setting, a: Accumulated, first: seq<BundleRow>, b: Accumulated, second: seq<BundleRow>,
                   c: Accumulated)
    requires OnePass(s, a, first, b) && OnePass(s, b, second, c)
    ensures OnePass(s, a, first + second, c)
  {
    GasSplits(s, first, second, a.aggregateGas);
    ChosenJoin(s, a.includedRows, first, second, a.aggregateGas, Included);
    ChosenJoin(s, a.failedRows, first, second, a.aggregateGas, Failed);
    ChosenSplits(s, first, second, a.aggregateGas, Included);
    FeesConcat(s, Chosen(s, Included, first, a.aggregateGas), Chosen(s, Included, second, b.aggregateGas));
  }

  lemma ChosenJoin(s: Setting, before: seq<BundleRow>, first: seq<BundleRow>, second: seq<BundleRow>, gas: int,
                   outcome: Outcome)
    ensures before + Chosen(s, outcome, first, gas) + Chosen(s, outcome, second, GasAfter(s, first, gas))
            == before + Chosen(s, outcome, first + second, gas)
  {
    ChosenSplits(s, first, second, gas, outcome);
  }

  lemma SplitPrefix(rows: seq<BundleRow>, n: nat, k: nat)
    requires n + k <= |rows|
    ensures rows[..n] + rows[n..][..k] == rows[..n + k]
  {
  }

  lemma RoundIsOnePass(m: SignatureMonoid, s: Setting, concurrency: nat, rows: seq<BundleRow>, a: Accumulated)
    requires RoundOf(m, s, concurrency, a.aggregateBundle, a.aggregateGas, rows).aggregateBundle.Some?
    ensures OnePass(s, a, rows[..Candidates(concurrency, rows)],
                    Absorb(a, RoundOf(m, s, concurrency, a.aggregateBundle, a.aggregateGas, rows)))
  {
  }

  /** The rounds make one pass over the rows tried. */
  lemma {:induction false} RoundsAreOnePass(m: SignatureMonoid, s: Setting, concurrency: nat, rows: seq<BundleRow>,
                                            a: Accumulated)
    requires AllRounds(m, s, concurrency, rows, a).Some?
    ensures OnePass(s, a, rows[..Tried(s, concurrency, rows, a.aggregateGas)],
                    AllRounds(m, s, concurrency, rows, a).value)
    decreases |rows|
  {
    var n := Candidates(concurrency, rows);
    var round := RoundOf(m, s, concurrency, a.aggregateBundle, a.aggregateGas, rows);
    RoundIsOnePass(m, s, concurrency, rows, a);
    FirstRound(m, s, concurrency, rows, a);
    if round.includedRows != [] {
      var next := Absorb(a, round);
      var more := Tried(s, concurrency, rows[n..], next.aggregateGas);
      RoundsAreOnePass(m, s, concurrency, rows[n..], next);
      SplitPrefix(rows, n, more);
      PassesJoin(s, a, rows[..n], next, rows[n..][..more], AllRounds(m, s, concurrency, rows[n..], next).value);
    }
  }

  /** One round, then the others if it included anything. */
  lemma FirstRound(m: SignatureMonoid, s: Setting, concurrency: nat, rows: seq<BundleRow>, a: Accumulated)
    requires AllRounds(m, s, concurrency, rows, a).Some?
    ensures var n := Candidates(concurrency, rows);
            var round := RoundOf(m, s, concurrency, a.aggregateBundle, a.aggregateGas, rows);
            && round.aggregateBundle.Some?
            && AllRounds(m, s, concurrency, rows, a)
               == (if round.includedRows == [] then Some(Absorb(a, round))
                   else AllRounds(m, s, concurrency, rows[n..], Absorb(a, round)))
            && Tried(s, concurrency, rows, a.aggregateGas)
               == n + if round.includedRows == [] then 0 else Tried(s, concurrency, rows[n..], round.aggregateGas)
  {
  }

  /** The bundle they build is what aggregating round by round gives. */
  lemma {:induction false} RoundsBuild(m: SignatureMonoid, s: Setting, concurrency: nat, rows: seq<BundleRow>,
                                       a: Accumulated)
    ensures Incremental(m, a.aggregateBundle, Rounds(s, concurrency, rows, a.aggregateGas))
            == match AllRounds(m, s, concurrency, rows, a)
               case None => None
               case Some(after) => Some(after.aggregateBundle)
    decreases |rows|
  {
    var n := Candidates(concurrency, rows);
    var round := RoundOf(m, s, concurrency, a.aggregateBundle, a.aggregateGas, rows);
    var rounds := Rounds(s, concurrency, rows, a.aggregateGas);
    assert rounds[0] == BundlesOf(round.includedRows);
    if round.aggregateBundle.None? || round.includedRows == [] {
    } else {
      assert rounds[1..] == Rounds(s, concurrency, rows[n..], round.aggregateGas);
      RoundsBuild(m, s, concurrency, rows[n..], Absorb(a, round));
    }
  }

  lemma FlattenFirst(first: seq<Bundle>, others: seq<seq<Bundle>>)
    ensures Flatten([first] + others) == first + Flatten(others)
  {
    assert ([first] + others)[1..] == others;
  }

  lemma BundlesConcat(a: seq<BundleRow>, b: seq<BundleRow>)
    ensures BundlesOf(a + b) == BundlesOf(a) + BundlesOf(b)
  {
  }

  /** All rounds together include what one pass over the rows tried includes. */
  lemma {:induction false} RoundsInclude(s: Setting, concurrency: nat, rows: seq<BundleRow>, gas: int)
    ensures Flatten(Rounds(s, concurrency, rows, gas))
            == BundlesOf(Chosen(s, Included, rows[..Tried(s, concurrency, rows, gas)], gas))
    decreases |rows|
  {
    var n, tried := Candidates(concurrency, rows), Tried(s, concurrency, rows, gas);
    var included := Chosen(s, Included, rows[..n], gas);
    if included == [] {
      FlattenFirst([], []);
    } else {
      var next, others := GasAfter(s, rows[..n], gas), rows[n..][..tried - n];
      RoundsInclude(s, concurrency, rows[n..], next);
      FlattenFirst(BundlesOf(included), Rounds(s, concurrency, rows[n..], next));
      SplitPrefix(rows, n, tried - n);
      ChosenSplits(s, rows[..n], others, gas, Included);
      BundlesConcat(included, Chosen(s, Included, others, next));
    }
  }

  /** What `run` has when its rounds are over: one pass over the rows tried, and the bundle built up. */
  lemma RunSummary(m: SignatureMonoid, s: Setting, concurrency: nat, rows: seq<BundleRow>)
    ensures match AllRounds(m, s, concurrency, rows, Initially(m, s))
            case None => BuiltUp(m, s, concurrency, rows).None?
            case Some(a) =>
              var tried := RowsTried(s, concurrency, rows);
              && BuiltUp(m, s, concurrency, rows) == Some(a.aggregateBundle)
              && a.includedRows == Chosen(s, Included, tried, s.overheadGas)
              && a.failedRows == Chosen(s, Failed, tried, s.overheadGas)
              && a.aggregateGas == GasAfter(s, tried, s.overheadGas)
              && a.expectedFee == Sum(FeesOf(s, a.includedRows))
  {
    RoundsBuild(m, s, concurrency, rows, Initially(m, s));
    if AllRounds(m, s, concurrency, rows, Initially(m, s)).Some? {
      RoundsAreOnePass(m, s, concurrency, rows, Initially(m, s));
    }
  }

  /** The bundle built up is the aggregate of all included rows at once. */
  lemma BuiltUpIsOneShot(m: SignatureMonoid, s: Setting, concurrency: nat, rows: seq<BundleRow>)
    requires Laws(m) && RowsPaired(rows)
    requires BuiltUp(m, s, concurrency, rows).Some?
    ensures BuiltUp(m, s, concurrency, rows)
            == AggregateAll(m, BundlesOf(Chosen(s, Included, RowsTried(s, concurrency, rows), s.overheadGas)))
  {
    var included := Chosen(s, Included, RowsTried(s, concurrency, rows), s.overheadGas);
    RoundsInclude(s, concurrency, rows, s.overheadGas);
    ChosenAreRows(s, Included, RowsTried(s, concurrency, rows), s.overheadGas);
    BundlesPaired(included);
    RunAggregatesOnce(m, Rounds(s, concurrency, rows, s.overheadGas));
  }

  /** Exactly when the rounds succeed, and what they build: no included bundle is rejected, and no
      round starts from bundles that add up to the identity signature. */
  lemma BuiltUpExactly(m: SignatureMonoid, s: Setting, concurrency: nat, rows: seq<BundleRow>)
    requires Laws(m) && RowsPaired(rows)
    ensures var bundles := BundlesOf(Chosen(s, Included, RowsTried(s, concurrency, rows), s.overheadGas));
            var rounds := Rounds(s, concurrency, rows, s.overheadGas);
            && Flatten(rounds) == bundles
            && BuiltUp(m, s, concurrency, rows)
               == if SomeRejected(m, bundles)
                     || exists k :: 0 <= k < |rounds| && Rejected(m, Total(m, Flatten(rounds[..k]))) then None
                  else Some(Total(m, bundles))
  {
    var included := Chosen(s, Included, RowsTried(s, concurrency, rows), s.overheadGas);
    var rounds := Rounds(s, concurrency, rows, s.overheadGas);
    RoundsInclude(s, concurrency, rows, s.overheadGas);
    ChosenAreRows(s, Included, RowsTried(s, concurrency, rows), s.overheadGas);
    BundlesPaired(included);
    IncrementalIsOneShot(m, [], rounds);
    NeverStuckMeans(m, [], rounds);
    assert [] + Flatten(rounds) == Flatten(rounds);
    assert forall k :: 0 <= k < |rounds| ==> [] + Flatten(rounds[..k]) == Flatten(rounds[..k]);
  }

  /** In the bundle `run` returns every included row's operations stand in order, each under its own
      sender's key, and nothing else. */
  lemma BuiltUpHolds(m: SignatureMonoid, s: Setting, concurrency: nat, rows: seq<BundleRow>)
    requires Laws(m) && RowsPaired(rows) && BuiltUp(m, s, concurrency, rows).Some?
    ensures IsAggregate(m, BundlesOf(Chosen(s, Included, RowsTried(s, concurrency, rows), s.overheadGas)),
                        BuiltUp(m, s, concurrency, rows).value)
  {
    var included := Chosen(s, Included, RowsTried(s, concurrency, rows), s.overheadGas);
    BuiltUpIsOneShot(m, s, concurrency, rows);
    ChosenAreRows(s, Included, RowsTried(s, concurrency, rows), s.overheadGas);
    BundlesPaired(included);
    AggregateHolds(m, BundlesOf(included));
  }

  lemma BundlesPaired(rows: seq<BundleRow>)
    requires RowsPaired(rows)
    ensures AllPaired(BundlesOf(rows))
  {
    forall b | b in BundlesOf(rows)
      ensures Paired(b)
    {
      var r :| r in rows && r.bundle == b;
      assert Paired(r.bundle);
    }
  }

  lemma {:induction false} ChosenAreRows(s: Setting, outcome: Outcome, rows: seq<BundleRow>, gas: int)
    ensures forall r :: r in Chosen(s, outcome, rows, gas) ==> r in rows
  {
    if rows == [] {
    } else {
      ChosenAreRows(s, outcome, rows[1..], GasWith(s, rows[0], gas));
    }
  }
}
