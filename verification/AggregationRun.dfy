/** A whole run of the strategy (AggregationStrategy.ts, `run` and `#preventLosses`) and what it
    conserves. */
module AggregationRun {
  import opened Wrappers
  import opened Operations
  import opened Aggregate
  import opened FilterRows
  import opened Strategy

  // ---- Conservation ----

  ghost predicate Distinct(rows: seq<BundleRow>) {
    forall i, j :: 0 <= i < j < |rows| ==> rows[i] != rows[j]
  }

  function Count(rows: seq<BundleRow>, r: BundleRow): nat {
    multiset(rows)[r]
  }

  lemma CountSplit(a: seq<BundleRow>, b: seq<BundleRow>, r: BundleRow)
    ensures Count(a + b, r) == Count(a, r) + Count(b, r)
  {
  }

  lemma CountOne(row: BundleRow, r: BundleRow)
    ensures Count([row], r) == if row == r then 1 else 0
    ensures Count([], r) == 0
  {
  }

  lemma CountStep(s: Setting, outcome: Outcome, rows: seq<BundleRow>, gas: int, r: BundleRow)
    requires rows != []
    ensures Count(Chosen(s, outcome, rows, gas), r)
            == (if Decide(s, rows[0], gas) == outcome && rows[0] == r then 1 else 0)
               + Count(Chosen(s, outcome, rows[1..], GasWith(s, rows[0], gas)), r)
  {
    CountOne(rows[0], r);
    CountSplit(if Decide(s, rows[0], gas) == outcome then [rows[0]] else [],
               Chosen(s, outcome, rows[1..], GasWith(s, rows[0], gas)), r);
  }

  lemma {:induction false} CountsAdd(s: Setting, rows: seq<BundleRow>, gas: int, r: BundleRow)
    ensures Count(Chosen(s, Included, rows, gas), r) + Count(Chosen(s, Failed, rows, gas), r)
            + Count(Chosen(s, ExceedsGas, rows, gas), r) == Count(rows, r)
  {
    if rows == [] {
    } else {
      CountsAdd(s, rows[1..], GasWith(s, rows[0], gas), r);
      CountStep(s, Included, rows, gas, r);
      CountStep(s, Failed, rows, gas, r);
      CountStep(s, ExceedsGas, rows, gas, r);
      CountOne(rows[0], r);
      CountSplit([rows[0]], rows[1..], r);
      assert rows == [rows[0]] + rows[1..];
    }
  }

  /** Every row tried is included, failed or skipped for gas, and exactly one of these. */
  lemma Partition(s: Setting, rows: seq<BundleRow>, gas: int)
    ensures multiset(Chosen(s, Included, rows, gas)) + multiset(Chosen(s, Failed, rows, gas))
            + multiset(Chosen(s, ExceedsGas, rows, gas)) == multiset(rows)
  {
    var parts := multiset(Chosen(s, Included, rows, gas)) + multiset(Chosen(s, Failed, rows, gas))
                 + multiset(Chosen(s, ExceedsGas, rows, gas));
    forall r: BundleRow
      ensures parts[r] == multiset(rows)[r]
    {
      CountsAdd(s, rows, gas, r);
    }
  }

  lemma {:induction false} KeepInIgnoresOthers(rows: seq<BundleRow>, a: set<BundleRow>, b: set<BundleRow>)
    requires forall r :: r in rows ==> (r in a <==> r in b)
    ensures KeepIn(rows, a) == KeepIn(rows, b)
  {
    if rows == [] {
    } else {
      KeepInIgnoresOthers(rows[1..], a, b);
    }
  }

  /** Each of the three keeps the order. */
  lemma {:induction false} ChosenInOrder(s: Setting, outcome: Outcome, rows: seq<BundleRow>, gas: int)
    requires Distinct(rows)
    ensures Sublist(Chosen(s, outcome, rows, gas), rows)
  {
    if rows == [] {
    } else {
      var next := GasWith(s, rows[0], gas);
      var chosen, others := Chosen(s, outcome, rows, gas), Chosen(s, outcome, rows[1..], next);
      ChosenInOrder(s, outcome, rows[1..], next);
      ChosenAreRows(s, outcome, rows[1..], next);
      KeepInIgnoresOthers(rows[1..], Members(others), Members(chosen));
    }
  }

  lemma {:induction false} SublistsAreDistinct(rows: seq<BundleRow>, kept: set<BundleRow>)
    requires Distinct(rows)
    ensures Distinct(KeepIn(rows, kept))
  {
    if rows == [] {
    } else {
      SublistsAreDistinct(rows[1..], kept);
    }
  }

  function Marginals(s: Setting, rows: seq<BundleRow>): int {
    if rows == [] then 0 else Marginal(s, rows[0]) + Marginals(s, rows[1..])
  }

  /** The gas accumulated is what the included rows add. */
  lemma {:induction false} GasIsSum(s: Setting, rows: seq<BundleRow>, gas: int)
    ensures GasAfter(s, rows, gas) == gas + Marginals(s, Chosen(s, Included, rows, gas))
  {
    if rows == [] {
    } else {
      var next := GasWith(s, rows[0], gas);
      GasIsSum(s, rows[1..], next);
      var others := Chosen(s, Included, rows[1..], next);
      assert ([rows[0]] + others)[1..] == others && [] + others == others;
    }
  }

  /** What becomes of a row whose check succeeds, wherever it stands: it is included if and only if its
      gas still fits on top of that of the rows included before it, and otherwise only skipped. */
  lemma IncludedIfItFits(s: Setting, before: seq<BundleRow>, row: BundleRow, after: seq<BundleRow>, gas: int)
    requires s.check(row).success
    ensures var own := s.check(row).gasEstimate - s.overheadGas;
            var used := gas + Marginals(s, Chosen(s, Included, before, gas));
            var fits := used + own <= s.maxGasPerBundle;
            && Chosen(s, Included, before + [row] + after, gas)
               == Chosen(s, Included, before, gas) + (if fits then [row] else [])
                  + Chosen(s, Included, after, if fits then used + own else used)
            && Chosen(s, Failed, before + [row] + after, gas) == Unsuccessful(s, before) + Unsuccessful(s, after)
  {
    var used := GasAfter(s, before, gas);
    GasIsSum(s, before, gas);
    PassOne(s, row, used);
    PassSplits(s, before, [row], gas, Included);
    ChosenSplits(s, before + [row], after, gas, Included);
    UnsuccessfulAround(s, before, row, after);
    FailedAreUnsuccessful(s, before + [row] + after, gas);
  }

  lemma PassOne(s: Setting, row: BundleRow, gas: int)
    ensures GasAfter(s, [row], gas) == GasWith(s, row, gas)
    ensures Chosen(s, Included, [row], gas) == if Decide(s, row, gas) == Included then [row] else []
  {
    assert [row][1..] == [];
  }

  lemma UnsuccessfulAround(s: Setting, before: seq<BundleRow>, row: BundleRow, after: seq<BundleRow>)
    requires s.check(row).success
    ensures Unsuccessful(s, before + [row] + after) == Unsuccessful(s, before) + Unsuccessful(s, after)
  {
    UnsuccessfulSplits(s, before + [row], after);
    UnsuccessfulSplits(s, before, [row]);
    assert [row][1..] == [] && Unsuccessful(s, [row]) == [];
    assert Unsuccessful(s, before) + [] == Unsuccessful(s, before);
  }

  lemma {:induction false} UnsuccessfulSplits(s: Setting, a: seq<BundleRow>, b: seq<BundleRow>)
    ensures Unsuccessful(s, a + b) == Unsuccessful(s, a) + Unsuccessful(s, b)
  {
    if a == [] {
      assert a + b == b;
    } else {
      assert (a + b)[1..] == a[1..] + b;
      UnsuccessfulSplits(s, a[1..], b);
    }
  }

  /** Whatever is included stays within the cap, even if some row lowers the total. */
  lemma {:induction false} CapHolds(s: Setting, rows: seq<BundleRow>, gas: int)
    requires Chosen(s, Included, rows, gas) != []
    ensures GasAfter(s, rows, gas) <= s.maxGasPerBundle
  {
    var next := GasWith(s, rows[0], gas);
    if Chosen(s, Included, rows[1..], next) != [] {
      CapHolds(s, rows[1..], next);
    } else {
      GasIsSum(s, rows[1..], next);
    }
  }

  lemma SplitSlice(rows: seq<BundleRow>, n: nat, from: nat, to: nat)
    requires from <= to && n + to <= |rows|
    ensures rows[n..][from..to] == rows[n + from..n + to]
  {
  }

  /** Rows are left untried only after a full round that included nothing. */
  lemma {:induction false} StopsAfterABarrenRound(s: Setting, concurrency: nat, rows: seq<BundleRow>, gas: int)
    returns (last: nat)
    requires Tried(s, concurrency, rows, gas) < |rows|
    ensures last + concurrency == Tried(s, concurrency, rows, gas)
    ensures Chosen(s, Included, rows[last..last + concurrency], GasAfter(s, rows[..last], gas)) == []
    decreases |rows|
  {
    var n := Candidates(concurrency, rows);
    if Chosen(s, Included, rows[..n], gas) == [] {
      last := 0;
      assert rows[..0] == [] && rows[0..concurrency] == rows[..n];
    } else {
      var k := StopsAfterABarrenRound(s, concurrency, rows[n..], GasAfter(s, rows[..n], gas));
      last := n + k;
      SplitPrefix(rows, n, k);
      GasSplits(s, rows[..n], rows[n..][..k], gas);
      SplitSlice(rows, n, k, k + concurrency);
    }
  }

  lemma FirstRoundIncludes(s: Setting, concurrency: nat, rows: seq<BundleRow>, gas: int)
    requires concurrency < Tried(s, concurrency, rows, gas)
    ensures concurrency < |rows| && Chosen(s, Included, rows[..concurrency], gas) != []
    ensures Tried(s, concurrency, rows, gas)
            == concurrency + Tried(s, concurrency, rows[concurrency..], GasAfter(s, rows[..concurrency], gas))
  {
  }

  /** There is a further round only after one that included something: so does every round but the last. */
  lemma {:induction false} EarlierRoundsInclude(s: Setting, concurrency: nat, rows: seq<BundleRow>, gas: int, i: nat,
                                                from: nat)
    requires from == i * concurrency && from + concurrency < Tried(s, concurrency, rows, gas)
    ensures Chosen(s, Included, rows[from..from + concurrency], GasAfter(s, rows[..from], gas)) != []
    decreases i, 1
  {
    if i == 0 {
      FirstRoundIncludes(s, concurrency, rows, gas);
      assert rows[..0] == [] && rows[0..concurrency] == rows[..concurrency];
    } else {
      OneRoundBack(i, concurrency);
      LaterRoundIncludes(s, concurrency, rows, gas, i, from - concurrency);
    }
  }

  lemma OneRoundBack(i: nat, concurrency: nat)
    requires i > 0
    ensures i * concurrency == (i - 1) * concurrency + concurrency && (i - 1) * concurrency >= 0
  {
  }

  lemma {:induction false} LaterRoundIncludes(s: Setting, concurrency: nat, rows: seq<BundleRow>, gas: int, i: nat,
                                              before: nat)
    requires i > 0 && before == (i - 1) * concurrency
    requires before + concurrency + concurrency < Tried(s, concurrency, rows, gas)
    ensures Chosen(s, Included, rows[before + concurrency..before + concurrency + concurrency],
                   GasAfter(s, rows[..before + concurrency], gas)) != []
    decreases i, 0
  {
    FirstRoundIncludes(s, concurrency, rows, gas);
    var next := GasAfter(s, rows[..concurrency], gas);
    EarlierRoundsInclude(s, concurrency, rows[concurrency..], next, i - 1, before);
    SplitSlice(rows, concurrency, before, before + concurrency);
    SplitPrefix(rows, concurrency, before);
    GasSplits(s, rows[..concurrency], rows[concurrency..][..before], gas);
  }

  // ---- Loss prevention ----

  datatype Result = Result(aggregateBundle: Option<Bundle>, includedRows: seq<BundleRow>, expectedFee: int,
                           expectedMaxCost: int, failedRows: seq<BundleRow>)

  /** A result without an aggregate. */
  function NothingToSubmit(failedRows: seq<BundleRow>): Result {
    Result(None, [], 0, 0, failedRows)
  }

  ghost predicate IsHalf(sample: seq<BundleRow>, rows: seq<BundleRow>) {
    |sample| == |rows| / 2 && multiset(sample) <= multiset(rows)
  }

  lemma FirstHalf(shuffled: seq<BundleRow>, rows: seq<BundleRow>)
    requires multiset(shuffled) == multiset(rows)
    ensures |shuffled| == |rows| && IsHalf(shuffled[..|shuffled| / 2], rows)
  {
    assert |multiset(shuffled)| == |shuffled| && |multiset(rows)| == |rows|;
    assert shuffled == shuffled[..|shuffled| / 2] + shuffled[|shuffled| / 2..];
  }

  predicate Loses(result: Result) {
    result.aggregateBundle.Some? && result.expectedFee < result.expectedMaxCost
  }

  /** A loss is never submitted; with enough operations to break even, half of the included rows are
      marked as failed instead. */
  method PreventLosses(result: Result, shuffle: seq<BundleRow> -> seq<BundleRow>, breakevenOperationCount: Positive)
    returns (after: Result)
    requires forall rows :: multiset(shuffle(rows)) == multiset(rows)
    ensures !Loses(after)
    ensures !Loses(result) ==> after == result
    ensures Loses(result) ==>
              if |result.aggregateBundle.value.operations| as real < breakevenOperationCount
              then after == NothingToSubmit(result.failedRows)
              else exists sample :: IsHalf(sample, result.includedRows)
                                    && after == NothingToSubmit(result.failedRows + sample)
  {
    if result.aggregateBundle.None? || result.expectedFee >= result.expectedMaxCost {
      return result;
    }
    if |result.aggregateBundle.value.operations| as real < breakevenOperationCount {
      return NothingToSubmit(result.failedRows);
    }
    var failureSample := shuffle(result.includedRows);
    FirstHalf(failureSample, result.includedRows);
    failureSample := failureSample[..|failureSample| / 2];
    after := NothingToSubmit(result.failedRows + failureSample);
  }

  // ---- The run ----

  ghost predicate PreventsLosses(fees: Fees) {
    fees.EtherFees? && !fees.allowLosses
  }

  /** What `run` returns when its rounds included and failed these rows and the aggregate is expected
      to cost this much. */
  ghost predicate IsResult(fees: Fees, included: seq<BundleRow>, failed: seq<BundleRow>, bundle: Bundle, fee: int,
                           cost: int, result: Result) {
    if included == [] then result == NothingToSubmit(failed)
    else if !PreventsLosses(fees) || fee >= cost then result == Result(Some(bundle), included, fee, cost, failed)
    else if |bundle.operations| as real < fees.breakevenOperationCount then result == NothingToSubmit(failed)
    else exists sample :: IsHalf(sample, included) && result == NothingToSubmit(failed + sample)
  }

  /** Loss prevention makes progress exactly when there are two rows to choose from: a lone row that
      loses at breakeven is dropped without being marked as failed. */
  lemma LoneRowIsNeverFailed(fees: Fees, included: seq<BundleRow>, failed: seq<BundleRow>, bundle: Bundle, fee: int,
                             cost: int, result: Result)
    requires PreventsLosses(fees) && included != [] && fee < cost
    requires |bundle.operations| as real >= fees.breakevenOperationCount
    requires IsResult(fees, included, failed, bundle, fee, cost, result)
    ensures result.aggregateBundle.None? && result.includedRows == []
    ensures result.failedRows == failed <==> |included| <= 1
    ensures |result.failedRows| == |failed| + |included| / 2
  {
    var sample :| IsHalf(sample, included) && result == NothingToSubmit(failed + sample);
    assert |result.failedRows| == |failed| + |included| / 2;
  }

  /** When there is an aggregate to submit, and what stands in the result then and otherwise. */
  lemma ResultMeans(fees: Fees, included: seq<BundleRow>, failed: seq<BundleRow>, bundle: Bundle, fee: int, cost: int,
                    result: Result)
    requires IsResult(fees, included, failed, bundle, fee, cost, result)
    ensures result.aggregateBundle.Some? <==>
            included != [] && (fee >= cost || fees.NoFees? || fees.allowLosses)
    ensures result.aggregateBundle.Some? ==>
              result.aggregateBundle.value == bundle && result.includedRows == included && result.failedRows == failed
              && result.expectedFee == fee && result.expectedMaxCost == cost
    ensures result.aggregateBundle.None? ==>
              result.includedRows == [] && result.expectedFee == 0 && result.expectedMaxCost == 0
    ensures failed <= result.failedRows
    ensures result.aggregateBundle.None? && result.failedRows != failed ==>
              |bundle.operations| as real >= fees.breakevenOperationCount
              && (forall r :: r in result.failedRows[|failed|..] ==> r in included)
  {
    if result.failedRows != failed {
      var sample :| IsHalf(sample, included) && result == NothingToSubmit(failed + sample);
      assert result.failedRows[|failed|..] == sample;
      forall r | r in sample
        ensures r in included
      {
        assert r in multiset(sample) && r in multiset(included);
      }
    }
  }

  /** `filterAnswers` are what the checks report to conflict removal, `expectedMaxCost` what the final
      check of an aggregate reports, `shuffle` the random order of the failure sample. */
  method Run(m: SignatureMonoid, s: Setting, concurrency: nat, fees: Fees, eligibleRows: seq<BundleRow>,
             filterAnswers: Answers, expectedMaxCost: Bundle -> int,
             shuffle: seq<BundleRow> -> seq<BundleRow>)
    returns (result: Option<Result>)
    requires RowsPaired(eligibleRows)
    requires forall rows :: multiset(shuffle(rows)) == multiset(rows)
    ensures var filtered := Filtered(eligibleRows, filterAnswers);
            var tried := RowsTried(s, concurrency, filtered);
            var included := Chosen(s, Included, tried, s.overheadGas);
            match BuiltUp(m, s, concurrency, filtered)
            case None => result.None?
            case Some(bundle) =>
              && result.Some?
              && IsResult(fees, included, Unsuccessful(s, tried), bundle,
                          Sum(FeesOf(s, included)), expectedMaxCost(bundle), result.value)
  {
    var filtered := FilterAllRows(eligibleRows, filterAnswers);
    var accumulated := AccumulateRounds(m, s, concurrency, filtered);
    RunSummary(m, s, concurrency, filtered);
    FailedAreUnsuccessful(s, RowsTried(s, concurrency, filtered), s.overheadGas);
    if accumulated.None? {
      return None;
    }
    var a := accumulated.value;
    if |a.includedRows| == 0 {
      return Some(NothingToSubmit(a.failedRows));
    }
    var full := Result(Some(a.aggregateBundle), a.includedRows, a.expectedFee,
                       expectedMaxCost(a.aggregateBundle), a.failedRows);
    if fees.EtherFees? && !fees.allowLosses {
      full := PreventLosses(full, shuffle, fees.breakevenOperationCount);
    }
    result := Some(full);
  }

  lemma DistinctIsMultiset(rows: seq<BundleRow>)
    ensures Distinct(rows) <==> forall r :: multiset(rows)[r] <= 1
  {
    if Distinct(rows) {
      MultisetOfDistinct(rows);
    } else {
      var i, j :| 0 <= i < j < |rows| && rows[i] == rows[j];
      assert rows == rows[..j] + [rows[j]] + rows[j + 1..];
      assert rows[i] in rows[..j];
      assert multiset(rows)[rows[j]] >= 2;
    }
  }

  lemma {:induction false} MultisetOfDistinct(rows: seq<BundleRow>)
    requires Distinct(rows)
    ensures forall r :: multiset(rows)[r] <= 1
  {
    if rows == [] {
    } else {
      MultisetOfDistinct(rows[1..]);
      assert rows == [rows[0]] + rows[1..];
      assert rows[0] !in rows[1..];
    }
  }

  ghost predicate Settles(result: Result, rows: seq<BundleRow>) {
    && Distinct(result.includedRows + result.failedRows)
    && forall r :: r in result.includedRows + result.failedRows ==> r in rows
  }

  lemma PassSettles(s: Setting, tried: seq<BundleRow>)
    requires Distinct(tried)
    ensures var included, failed := Chosen(s, Included, tried, s.overheadGas), Chosen(s, Failed, tried, s.overheadGas);
            multiset(included + failed) <= multiset(tried)
  {
    Partition(s, tried, s.overheadGas);
  }

  lemma Narrow(part: seq<BundleRow>, rows: seq<BundleRow>)
    requires multiset(part) <= multiset(rows) && Distinct(rows)
    ensures Distinct(part) && forall r :: r in part ==> r in rows
  {
    DistinctIsMultiset(rows);
    DistinctIsMultiset(part);
    forall r | r in part
      ensures r in rows
    {
      assert r in multiset(part);
    }
  }

  /** Whatever the run decides, no row is both included and failed, none is listed twice and none is
      invented. Its result never loses, if losses are to be prevented. */
  lemma RunSettles(s: Setting, fees: Fees, tried: seq<BundleRow>, bundle: Bundle, cost: int, result: Result)
    requires Distinct(tried)
    requires var included := Chosen(s, Included, tried, s.overheadGas);
             IsResult(fees, included, Unsuccessful(s, tried), bundle, Sum(FeesOf(s, included)), cost, result)
    ensures Settles(result, tried)
    ensures PreventsLosses(fees) ==> !Loses(result)
    ensures result.aggregateBundle.Some? ==> GasAfter(s, tried, s.overheadGas) <= s.maxGasPerBundle
  {
    var included, failed := Chosen(s, Included, tried, s.overheadGas), Chosen(s, Failed, tried, s.overheadGas);
    PassSettles(s, tried);
    FailedAreUnsuccessful(s, tried, s.overheadGas);
    if included != [] {
      CapHolds(s, tried, s.overheadGas);
    }
    assert multiset(result.includedRows + result.failedRows) <= multiset(included + failed);
    Narrow(result.includedRows + result.failedRows, tried);
  }

  /** The same for the rows `run` was given, and whatever it includes is free of conflicts. */
  lemma RunIsSafe(s: Setting, concurrency: nat, fees: Fees, eligibleRows: seq<BundleRow>,
                  filterAnswers: Answers, bundle: Bundle, cost: int, result: Result)
    requires RowsPaired(eligibleRows) && Distinct(eligibleRows)
    requires var tried := RowsTried(s, concurrency, Filtered(eligibleRows, filterAnswers));
             var included := Chosen(s, Included, tried, s.overheadGas);
             IsResult(fees, included, Unsuccessful(s, tried), bundle, Sum(FeesOf(s, included)), cost, result)
    ensures Settles(result, eligibleRows)
    ensures forall a, b :: a in result.includedRows && b in result.includedRows ==> !Conflict(a, b)
    ensures PreventsLosses(fees) ==> !Loses(result)
    ensures result.aggregateBundle.Some? ==>
              GasAfter(s, RowsTried(s, concurrency, Filtered(eligibleRows, filterAnswers)), s.overheadGas)
              <= s.maxGasPerBundle
  {
    var filtered := Filtered(eligibleRows, filterAnswers);
    var tried := RowsTried(s, concurrency, filtered);
    FilteredInOrder(eligibleRows, filterAnswers);
    SublistsAreDistinct(eligibleRows, Members(filtered));
    RunSettles(s, fees, tried, bundle, cost, result);
    assert forall r :: r in tried ==> r in filtered;
    assert forall r :: r in result.includedRows ==> r in result.includedRows + result.failedRows;
    forall a, b | a in result.includedRows && b in result.includedRows
      ensures !Conflict(a, b)
    {
      NoConflictsLeft(eligibleRows, filterAnswers, a, b);
    }
  }
}
