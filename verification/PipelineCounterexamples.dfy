/** Runs of the strategy that get nowhere: rounds whose signatures cancel, and a lone row that loses at
    breakeven. */
module PipelineCounterexamples {
  import opened Wrappers
  import opened Bytes
  import opened Operations
  import opened Aggregate
  import opened FilterRows
  import opened Strategy
  import opened AggregationRun
  import Breakeven
  import Rounding

  /** Addition modulo 2^256. */
  function AddWords(a: Word, b: Word): Word {
    if a + b < TWO_256 then a + b else a + b - TWO_256
  }

  function AddSignatures(a: Signature, b: Signature): Signature {
    [AddWords(a[0], b[0]), AddWords(a[1], b[1])]
  }

  const ZERO_SIGNATURE: Signature := [0, 0]

  /** A concrete signature group. */
  const SUM := SignatureMonoid(ZERO_SIGNATURE, AddSignatures)

  lemma SumLaws()
    ensures Laws(SUM)
  {
    forall a: Signature, b: Signature, c: Signature
      ensures AddSignatures(AddSignatures(a, b), c) == AddSignatures(a, AddSignatures(b, c))
    {
      var left, right := AddSignatures(AddSignatures(a, b), c), AddSignatures(a, AddSignatures(b, c));
      assert left[0] == right[0] && left[1] == right[1];
    }
    forall a: Signature
      ensures AddSignatures(ZERO_SIGNATURE, a) == a && AddSignatures(a, ZERO_SIGNATURE) == a
    {
      assert AddSignatures(ZERO_SIGNATURE, a)[0] == a[0] && AddSignatures(ZERO_SIGNATURE, a)[1] == a[1];
    }
  }

  /** A bundle of one operation with this signature. */
  function Signed(n: Word): (b: Bundle)
    ensures Paired(b)
  {
    Bundle([[n, n, n, n]], [Operation(0, 0, [])], [n, 0])
  }

  const A := Signed(1)
  const B := Signed(TWO_256 - 1)

  lemma SignaturesCancel()
    ensures SUM.add(A.signature, B.signature) == SUM.zero
    ensures A.signature != SUM.zero && B.signature != SUM.zero
  {
    assert A.signature[0] == 1 && B.signature[0] == TWO_256 - 1;
  }

  /** Every row succeeds and there is room for all of them. */
  const EASY := Setting(0, 100, _ => Check(true, 1, 1, 1, 1))

  const TWO_ROWS := [BundleRow(1, A), BundleRow(2, B)]

  lemma TwoAreIncluded()
    ensures Chosen(EASY, Included, TWO_ROWS, 0) == TWO_ROWS
    ensures Rounds(EASY, 2, TWO_ROWS, 0) == [[A, B], []]
  {
    var first, second := TWO_ROWS[0], TWO_ROWS[1];
    assert TWO_ROWS[1..] == [second] && [second][1..] == [];
    assert Chosen(EASY, Included, [second], 1) == [second];
    assert TWO_ROWS[..2] == TWO_ROWS && TWO_ROWS[2..] == [];
    assert BundlesOf(TWO_ROWS) == [A, B];
    assert Rounds(EASY, 2, [], GasAfter(EASY, TWO_ROWS, 0)) == [[]];
  }

  /** Two rows whose signatures cancel: both are included in the first round and aggregate, but the
      empty round that follows fails, and with it the run; at once they aggregate. */
  lemma RoundsCanFail()
    ensures Laws(SUM) && RowsPaired(TWO_ROWS)
    ensures BundlesOf(Chosen(EASY, Included, TWO_ROWS, EASY.overheadGas)) == [A, B]
    ensures AggregateAll(SUM, [A, B]).Some?
    ensures BuiltUp(SUM, EASY, 2, TWO_ROWS).None?
  {
    SumLaws();
    SignaturesCancel();
    TwoAreIncluded();
    CancelAtOnce(SUM, A, B);
  }

  lemma CancelAtOnce(m: SignatureMonoid, a: Bundle, b: Bundle)
    requires Laws(m) && Paired(a) && Paired(b) && a.operations != []
    requires a.signature != m.zero && b.signature != m.zero && m.add(a.signature, b.signature) == m.zero
    ensures AggregateAll(m, [a, b]).Some?
    ensures Incremental(m, Total(m, []), [[a, b], []]).None?
  {
    CancellingRounds(m, a, b, []);
    OneRound(m, [], [a, b]);
    assert [] + [a, b] == [a, b];
  }

  // ---- A lone row ----

  const ROW := BundleRow(1, A)

  /** One operation is enough to break even, and losses are to be prevented. */
  const CONFIG := Config(100, 1, EtherFees(false, 1.0))

  /** The numbers here are exact in doubles. */
  const EXACT: Rounding.RoundFn := (x: real) => x

  /** Simulated by itself the row pays its 5 units of gas at a price of 1; 2 of them are overhead. */
  const ALONE := Breakeven.Measuring(EXACT, CONFIG, Breakeven.Network(2, _ => 1, _ => Measured(true, 5, 5)))

  /** As an aggregate it needs one unit more. */
  const AGGREGATE_COST := CheckBundle(EXACT, CONFIG.fees, 0, 1, Measured(true, 5, 6), 1).expectedMaxCost

  lemma RowPasses()
    ensures ALONE.check(ROW) == Check(true, 5, 5, 5, 5)
    ensures AGGREGATE_COST == 6
  {
    var breakeven: Positive := 1.0;
    assert |A.operations| == 1;
    assert OverheadContribution(EXACT, 2, breakeven, 1) == 2 by {
      assert 2 as real / breakeven * 1 as real == 2.0;
    }
    assert RequiredFee(EXACT, 2, 1, breakeven, 5, 1) == 5;
    assert ALONE.check(ROW) == CheckBundle(EXACT, CONFIG.fees, 2, 1, Measured(true, 5, 5), 1);
  }

  lemma RowIsIncluded()
    ensures RowsTried(ALONE, 1, [ROW]) == [ROW]
    ensures Chosen(ALONE, Included, [ROW], 2) == [ROW] && Chosen(ALONE, Failed, [ROW], 2) == []
    ensures Sum(FeesOf(ALONE, [ROW])) == 5
  {
    RowPasses();
    assert [ROW][1..] == [] && [ROW][..1] == [ROW];
    assert FeesOf(ALONE, [ROW]) == [5];
  }

  lemma RowSurvives(answers: Answers)
    ensures RowsPaired([ROW]) && Filtered([ROW], answers) == [ROW]
  {
    FilteredInOrder([ROW], answers);
    FilteredIsNotEmpty([ROW], answers);
    assert Members(Filtered([ROW], answers)) <= {ROW};
    assert Filtered([ROW], answers)[0] == ROW;
  }

  /** The run of that row: it is included, its aggregate has enough operations and loses, and the run
      returns neither an aggregate nor a failed row, so that next time is the same again. */
  lemma LoneRowIsStuck(answers: Answers, result: Result)
    requires RowsPaired([ROW])
    requires var tried := RowsTried(ALONE, 1, Filtered([ROW], answers));
             var included := Chosen(ALONE, Included, tried, ALONE.overheadGas);
             IsResult(CONFIG.fees, included, Unsuccessful(ALONE, tried), A,
                      Sum(FeesOf(ALONE, included)), AGGREGATE_COST, result)
    ensures BuiltUp(SUM, ALONE, 1, Filtered([ROW], answers)) == Some(A)
    ensures |A.operations| as real >= CONFIG.fees.breakevenOperationCount
    ensures Sum(FeesOf(ALONE, [ROW])) < AGGREGATE_COST
    ensures result == NothingToSubmit([])
  {
    RowSurvives(answers);
    RowIsIncluded();
    RowPasses();
    RowBuilds();
    FailedAreUnsuccessful(ALONE, [ROW], 2);
    LoneRowIsNeverFailed(CONFIG.fees, [ROW], [], A, 5, 6, result);
  }

  lemma RowBuilds()
    ensures BuiltUp(SUM, ALONE, 1, [ROW]) == Some(A)
  {
    SumLaws();
    RowIsIncluded();
    SignaturesCancel();
    OneBuilds(SUM, ALONE, ROW);
  }

  lemma RoundsOfOne(s: Setting, row: BundleRow)
    requires Chosen(s, Included, [row], s.overheadGas) == [row]
    ensures Rounds(s, 1, [row], s.overheadGas) == [[row.bundle], []]
  {
    assert [row][..1] == [row] && [row][1..] == [];
    assert BundlesOf([row]) == [row.bundle];
    assert Rounds(s, 1, [], GasAfter(s, [row], s.overheadGas)) == [[]];
  }

  lemma TotalOfOne(m: SignatureMonoid, b: Bundle)
    requires Laws(m)
    ensures Total(m, [b]) == b
  {
    assert [b][1..] == [];
    assert b.senderPublicKeys + [] == b.senderPublicKeys && b.operations + [] == b.operations;
  }

  lemma NotRejected(m: SignatureMonoid, b: Bundle)
    requires b.signature != m.zero
    ensures !SomeRejected(m, [b]) && !Rejected(m, b) && !SomeRejected(m, []) && !Rejected(m, Total(m, []))
  {
  }

  lemma OneFirst(m: SignatureMonoid, b: Bundle)
    requires Laws(m) && Paired(b) && b.signature != m.zero
    ensures AggregateAll(m, [Total(m, [])] + [b]) == Some(Total(m, [b]))
  {
    NotRejected(m, b);
    OneRound(m, [], [b]);
    assert [] + [b] == [b];
  }

  lemma NoneNext(m: SignatureMonoid, b: Bundle, total: Bundle)
    requires Laws(m) && Paired(b) && total == Total(m, [b]) && total.signature != m.zero
    ensures AggregateAll(m, [total] + []) == Some(total)
  {
    NotRejected(m, total);
    OneRound(m, [b], []);
    assert [b] + [] == [b];
  }

  lemma TwoRounds(m: SignatureMonoid, start: Bundle, b: Bundle)
    requires AggregateAll(m, [start] + [b]) == Some(b) && AggregateAll(m, [b] + []) == Some(b)
    ensures Incremental(m, start, [[b], []]) == Some(b)
  {
    var rounds, last: seq<seq<Bundle>> := [[b], []], [[]];
    assert rounds[1..] == last && last[1..] == [];
    assert Incremental(m, b, []) == Some(b);
  }

  lemma OneBuilds(m: SignatureMonoid, s: Setting, row: BundleRow)
    requires Laws(m) && Paired(row.bundle) && row.bundle.signature != m.zero
    requires Chosen(s, Included, [row], s.overheadGas) == [row]
    ensures BuiltUp(m, s, 1, [row]) == Some(row.bundle)
  {
    RoundsOfOne(s, row);
    TotalOfOne(m, row.bundle);
    OneFirst(m, row.bundle);
    NoneNext(m, row.bundle, row.bundle);
    TwoRounds(m, Total(m, []), row.bundle);
  }
}
