/** Conflict removal (AggregationStrategy.ts, `#filterRows` and `#pickBest`): of the rows that use
    the same public key and nonce only the one paying the highest excess fee stays. */
module FilterRows {
  import opened Bytes
  import opened Operations

  /** A row of the table; ids are unique, so equal rows are the same row. */
  datatype BundleRow = BundleRow(id: nat, bundle: Bundle)

  datatype Pair = Pair(key: PublicKey, nonce: Word)

  /** Rows only ever hold such bundles: `BundleService.add` rejects the others. */
  predicate RowsPaired(rows: seq<BundleRow>) {
    forall r :: r in rows ==> Paired(r.bundle)
  }

  /** One entry per operation, in order. */
  function Pairs(row: BundleRow): (pairs: seq<Pair>)
    requires Paired(row.bundle)
    ensures |pairs| == |row.bundle.operations|
  {
    seq(|row.bundle.operations|, i requires 0 <= i < |row.bundle.operations| =>
      Pair(row.bundle.senderPublicKeys[i], row.bundle.operations[i].nonce))
  }

  predicate Uses(row: BundleRow, pair: Pair) {
    Paired(row.bundle) && pair in Pairs(row)
  }

  predicate SameKeyAndNonce(a: Bundle, i: nat, b: Bundle, j: nat)
    requires Paired(a) && Paired(b)
    requires i < |a.operations| && j < |b.operations|
  {
    a.senderPublicKeys[i] == b.senderPublicKeys[j] && a.operations[i].nonce == b.operations[j].nonce
  }

  /** Two different rows have operations of the same key and nonce. */
  ghost predicate Conflict(a: BundleRow, b: BundleRow)
    requires Paired(a.bundle) && Paired(b.bundle)
  {
    && a != b
    && exists i: nat, j: nat ::
         i < |a.bundle.operations| && j < |b.bundle.operations| && SameKeyAndNonce(a.bundle, i, b.bundle, j)
  }

  /** They use the same pair. */
  lemma ConflictIsSharedUse(a: BundleRow, b: BundleRow)
    requires Paired(a.bundle) && Paired(b.bundle)
    ensures Conflict(a, b) <==> a != b && exists p :: Uses(a, p) && Uses(b, p)
  {
    if Conflict(a, b) {
      var i: nat, j: nat :| i < |a.bundle.operations| && j < |b.bundle.operations|
                            && SameKeyAndNonce(a.bundle, i, b.bundle, j);
      assert Pairs(a)[i] == Pairs(b)[j];
      assert Uses(a, Pairs(a)[i]) && Uses(b, Pairs(b)[j]);
    }
    if p :| Uses(a, p) && Uses(b, p) {
      var i :| 0 <= i < |Pairs(a)| && Pairs(a)[i] == p;
      var j :| 0 <= j < |Pairs(b)| && Pairs(b)[j] == p;
      assert SameKeyAndNonce(a.bundle, i, b.bundle, j);
    }
  }

  /** The rows that are in the set, in order. */
  function KeepIn(rows: seq<BundleRow>, kept: set<BundleRow>): (r: seq<BundleRow>)
    ensures forall x :: x in r <==> x in rows && x in kept
    ensures |r| <= |rows|
  {
    if rows == [] then []
    else if rows[0] in kept then [rows[0]] + KeepIn(rows[1..], kept)
    else KeepIn(rows[1..], kept)
  }

  lemma {:induction false} KeepInTwice(rows: seq<BundleRow>, a: set<BundleRow>, b: set<BundleRow>)
    ensures KeepIn(KeepIn(rows, a), b) == KeepIn(rows, a * b)
  {
    if rows == [] {
    } else {
      KeepInTwice(rows[1..], a, b);
      var others := KeepIn(rows[1..], a);
      assert ([rows[0]] + others)[1..] == others;
    }
  }

  lemma {:induction false} KeepInAll(rows: seq<BundleRow>, kept: set<BundleRow>)
    requires forall r :: r in rows ==> r in kept
    ensures KeepIn(rows, kept) == rows
  {
    if rows == [] {
    } else {
      KeepInAll(rows[1..], kept);
    }
  }

  function Members(rows: seq<BundleRow>): set<BundleRow> {
    set r | r in rows
  }

  /** Order is kept and nothing is duplicated or invented. */
  ghost predicate Sublist(part: seq<BundleRow>, whole: seq<BundleRow>) {
    part == KeepIn(whole, Members(part))
  }

  /** a comes up before b does. */
  predicate Before<T(==)>(s: seq<T>, a: T, b: T) {
    s != [] && (s[0] == a || (s[0] != b && Before(s[1..], a, b)))
  }

  lemma {:induction false} BeforeSnoc<T>(s: seq<T>, last: T, a: T, b: T)
    ensures Before(s + [last], a, b) <==> Before(s, a, b) || (a !in s && b !in s && last == a)
  {
    if s == [] {
      assert ([last])[1..] == [] && [] + [last] == [last];
    } else {
      assert (s + [last])[1..] == s[1..] + [last];
      BeforeSnoc(s[1..], last, a, b);
      BeforeMeans(s[1..], a, b);
    }
  }

  lemma {:induction false} BeforeMeans<T>(s: seq<T>, a: T, b: T)
    ensures Before(s, a, b) ==> a in s
    ensures a in s && b !in s ==> Before(s, a, b)
  {
    if s == [] {
    } else {
      BeforeMeans(s[1..], a, b);
    }
  }

  lemma {:induction false} BeforeAt<T>(s: seq<T>, k: nat, b: T)
    requires k < |s| && b !in s[..k]
    ensures Before(s, s[k], b)
  {
    if k > 0 {
      assert s[0] in s[..k];
      assert s[1..][..k - 1] == s[1..k] && forall x :: x in s[1..k] ==> x in s[..k];
      BeforeAt(s[1..], k - 1, b);
    }
  }

  lemma {:induction false} KeepInKeepsBefore(rows: seq<BundleRow>, kept: set<BundleRow>, a: BundleRow, b: BundleRow)
    requires a in kept && b in kept
    ensures Before(KeepIn(rows, kept), a, b) <==> Before(rows, a, b)
  {
    if rows == [] {
    } else {
      KeepInKeepsBefore(rows[1..], kept, a, b);
      assert ([rows[0]] + KeepIn(rows[1..], kept))[1..] == KeepIn(rows[1..], kept);
    }
  }

  // ---- Grouping by key and nonce ----

  /** A JavaScript Map: the keys in insertion order and what they map to. */
  datatype Index = Index(order: seq<Pair>, rows: map<Pair, seq<BundleRow>>)

  function RowsFor(index: Index, pair: Pair): seq<BundleRow> {
    if pair in index.rows then index.rows[pair] else []
  }

  function AddUse(index: Index, pair: Pair, row: BundleRow): Index {
    Index(if pair in index.rows then index.order else index.order + [pair],
          index.rows[pair := RowsFor(index, pair) + [row]])
  }

  function AddUses(index: Index, pairs: seq<Pair>, row: BundleRow): Index {
    if pairs == [] then index
    else AddUse(AddUses(index, pairs[..|pairs| - 1], row), pairs[|pairs| - 1], row)
  }

  function IndexAll(rows: seq<BundleRow>): Index
    requires RowsPaired(rows)
  {
    if rows == [] then Index([], map[])
    else
      var last := rows[|rows| - 1];
      AddUses(IndexAll(rows[..|rows| - 1]), Pairs(last), last)
  }

  ghost predicate Listed(index: Index) {
    forall p :: p in index.order <==> p in index.rows
  }

  lemma AddUseRecords(index: Index, pair: Pair, row: BundleRow)
    requires Listed(index)
    ensures Listed(AddUse(index, pair, row))
    ensures forall p, r :: r in RowsFor(AddUse(index, pair, row), p) <==>
                           r in RowsFor(index, p) || (r == row && p == pair)
  {
  }

  lemma {:induction false} AddUsesRecords(index: Index, pairs: seq<Pair>, row: BundleRow)
    requires Listed(index)
    ensures Listed(AddUses(index, pairs, row))
    ensures forall p, r :: r in RowsFor(AddUses(index, pairs, row), p) <==>
                           r in RowsFor(index, p) || (r == row && p in pairs)
  {
    if pairs == [] {
    } else {
      var front, last := pairs[..|pairs| - 1], pairs[|pairs| - 1];
      AddUsesRecords(index, front, row);
      AddUseRecords(AddUses(index, front, row), last, row);
      assert pairs == front + [last];
    }
  }

  /** The group of a pair holds exactly the rows that use it. */
  ghost predicate Indexes(index: Index, rows: seq<BundleRow>) {
    && Listed(index)
    && forall p, r :: r in RowsFor(index, p) <==> r in rows && Uses(r, p)
  }

  lemma {:induction false} IndexRecords(rows: seq<BundleRow>)
    requires RowsPaired(rows)
    ensures Indexes(IndexAll(rows), rows)
  {
    if rows == [] {
    } else {
      var front, last := rows[..|rows| - 1], rows[|rows| - 1];
      assert rows == front + [last];
      IndexRecords(front);
      AddUsesRecords(IndexAll(front), Pairs(last), last);
    }
  }

  /** Every use of a pair, row by row and operation by operation. */
  function PairsOfAll(rows: seq<BundleRow>): seq<Pair>
    requires RowsPaired(rows)
  {
    if rows == [] then [] else PairsOfAll(rows[..|rows| - 1]) + Pairs(rows[|rows| - 1])
  }

  ghost predicate Distinct<T(!new)>(s: seq<T>) {
    forall i, j :: 0 <= i < j < |s| ==> s[i] != s[j]
  }

  /** The order is that of the first uses. */
  ghost predicate OrderedBy(order: seq<Pair>, uses: seq<Pair>) {
    && Distinct(order)
    && (forall p :: p in order <==> p in uses)
    && forall p, q :: p != q ==> (Before(order, p, q) <==> Before(uses, p, q))
  }

  lemma OneMoreUse(index: Index, pair: Pair, row: BundleRow, uses: seq<Pair>)
    requires Listed(index) && OrderedBy(index.order, uses)
    ensures OrderedBy(AddUse(index, pair, row).order, uses + [pair])
  {
    var order := AddUse(index, pair, row).order;
    forall p, q | p != q
      ensures Before(order, p, q) <==> Before(uses + [pair], p, q)
    {
      BeforeSnoc(index.order, pair, p, q);
      BeforeSnoc(uses, pair, p, q);
    }
  }

  lemma {:induction false} MoreUses(index: Index, pairs: seq<Pair>, row: BundleRow, uses: seq<Pair>)
    requires Listed(index) && OrderedBy(index.order, uses)
    ensures OrderedBy(AddUses(index, pairs, row).order, uses + pairs)
  {
    if pairs == [] {
      assert uses + pairs == uses;
    } else {
      var front, last := pairs[..|pairs| - 1], pairs[|pairs| - 1];
      MoreUses(index, front, row, uses);
      AddUsesRecords(index, front, row);
      OneMoreUse(AddUses(index, front, row), last, row, uses + front);
      assert uses + pairs == (uses + front) + [last];
    }
  }

  /** The groups come in the order in which their pairs are first used. */
  lemma {:induction false} GroupsInOrder(rows: seq<BundleRow>)
    requires RowsPaired(rows)
    ensures OrderedBy(IndexAll(rows).order, PairsOfAll(rows))
  {
    if rows == [] {
    } else {
      var front, last := rows[..|rows| - 1], rows[|rows| - 1];
      GroupsInOrder(front);
      IndexRecords(front);
      MoreUses(IndexAll(front), Pairs(last), last, PairsOfAll(front));
    }
  }

  lemma {:induction false} AddUsesInOrder(index: Index, pairs: seq<Pair>, row: BundleRow, p: Pair, a: BundleRow,
                                          b: BundleRow)
    requires a != b
    ensures Before(RowsFor(AddUses(index, pairs, row), p), a, b) <==>
            || Before(RowsFor(index, p), a, b)
            || (a !in RowsFor(index, p) && b !in RowsFor(index, p) && row == a && p in pairs)
    ensures forall r :: r in RowsFor(AddUses(index, pairs, row), p) <==>
                        r in RowsFor(index, p) || (r == row && p in pairs)
  {
    if pairs == [] {
    } else {
      var front, last := pairs[..|pairs| - 1], pairs[|pairs| - 1];
      var before := AddUses(index, front, row);
      assert pairs == front + [last];
      AddUsesInOrder(index, front, row, p, a, b);
      if p == last {
        BeforeSnoc(RowsFor(before, p), row, a, b);
      }
      BeforeMeans(RowsFor(index, p), a, b);
    }
  }

  /** The rows of a group come in the order of the rows given. */
  lemma {:induction false} RowsInOrder(rows: seq<BundleRow>, p: Pair, a: BundleRow, b: BundleRow)
    requires RowsPaired(rows)
    requires a != b && Uses(a, p) && Uses(b, p)
    ensures Before(RowsFor(IndexAll(rows), p), a, b) <==> Before(rows, a, b)
  {
    if rows == [] {
    } else {
      var front, last := rows[..|rows| - 1], rows[|rows| - 1];
      assert rows == front + [last];
      RowsInOrder(front, p, a, b);
      IndexRecords(front);
      AddUsesInOrder(IndexAll(front), Pairs(last), last, p, a, b);
      BeforeSnoc(front, last, a, b);
    }
  }

  // ---- Picking and dropping ----

  /** The first index of a largest value. */
  function FirstLargest(values: seq<int>): (k: nat)
    requires values != []
    ensures k < |values|
    ensures forall i :: 0 <= i < |values| ==> values[i] <= values[k]
    ensures forall i :: 0 <= i < k ==> values[i] < values[k]
  {
    if |values| == 1 then 0
    else
      var k := FirstLargest(values[..|values| - 1]);
      if values[|values| - 1] > values[k] then |values| - 1 else k
  }

  function ExcessFees(rows: seq<BundleRow>, excess: BundleRow -> int): (fees: seq<int>)
    ensures |fees| == |rows|
  {
    seq(|rows|, i requires 0 <= i < |rows| => excess(rows[i]))
  }

  function Best(rows: seq<BundleRow>, excess: BundleRow -> int): (best: BundleRow)
    requires rows != []
    ensures best in rows
    ensures forall r :: r in rows && r != best ==> Outranks(rows, excess, best, r)
  {
    var fees := ExcessFees(rows, excess);
    var k := FirstLargest(fees);
    FirstLargestOutranks(rows, excess, k);
    rows[k]
  }

  /** It pays more, or as much and comes up first. */
  predicate Outranks(rows: seq<BundleRow>, excess: BundleRow -> int, a: BundleRow, b: BundleRow) {
    excess(a) > excess(b) || (excess(a) == excess(b) && Before(rows, a, b))
  }

  lemma FirstLargestOutranks(rows: seq<BundleRow>, excess: BundleRow -> int, k: nat)
    requires rows != [] && k == FirstLargest(ExcessFees(rows, excess))
    ensures forall r :: r in rows && r != rows[k] ==> Outranks(rows, excess, rows[k], r)
  {
    var fees := ExcessFees(rows, excess);
    assert forall i :: 0 <= i < |rows| ==> fees[i] == excess(rows[i]);
    forall r | r in rows && r != rows[k] && excess(r) == excess(rows[k])
      ensures Before(rows, rows[k], r)
    {
      BeforeAt(rows, k, r);
    }
  }

  method PickBest(rows: seq<BundleRow>, excess: BundleRow -> int) returns (best: BundleRow)
    requires rows != []
    ensures best == Best(rows, excess)
  {
    var excessFees := ExcessFees(rows, excess);
    var bestExcessFee := excessFees[0];
    var bestExcessFeeIndex := 0;
    for i := 1 to |excessFees|
      invariant bestExcessFeeIndex == FirstLargest(excessFees[..i])
      invariant bestExcessFee == excessFees[bestExcessFeeIndex]
    {
      assert excessFees[..i + 1][..i] == excessFees[..i];
      if excessFees[i] > bestExcessFee {
        bestExcessFee := excessFees[i];
        bestExcessFeeIndex := i;
      }
    }
    assert excessFees[..|excessFees|] == excessFees;
    best := rows[bestExcessFeeIndex];
  }

  /** One group: its rows that are still there, and of those all but the best are dropped. */
  function DropLosers(filtered: seq<BundleRow>, group: seq<BundleRow>, excess: BundleRow -> int): seq<BundleRow> {
    var present := KeepIn(group, Members(filtered));
    if |present| <= 1 then filtered
    else KeepIn(filtered, Members(filtered) - (Members(present) - {Best(present, excess)}))
  }

  /** What the check of a row says it pays and has to pay. */
  datatype Answer = Answer(expectedFee: int, requiredFee: int)

  /** Each group asks afresh. */
  type Answers = (nat, BundleRow) -> Answer

  /** The excess fees by one group's checks. */
  function AskedBy(answers: Answers, group: nat): BundleRow -> int {
    r => answers(group, r).expectedFee - answers(group, r).requiredFee
  }

  /** After the first k groups. */
  function FilterGroups(index: Index, rows: seq<BundleRow>, answers: Answers, k: nat): seq<BundleRow>
    requires k <= |index.order|
  {
    if k == 0 then rows
    else
      DropLosers(FilterGroups(index, rows, answers, k - 1), RowsFor(index, index.order[k - 1]), AskedBy(answers, k - 1))
  }

  function Filtered(rows: seq<BundleRow>, answers: Answers): seq<BundleRow>
    requires RowsPaired(rows)
  {
    var index := IndexAll(rows);
    FilterGroups(index, rows, answers, |index.order|)
  }

  method FilterAllRows(rows: seq<BundleRow>, answers: Answers) returns (filteredRows: seq<BundleRow>)
    requires RowsPaired(rows)
    ensures filteredRows == Filtered(rows, answers)
  {
    var rowsByKeyAndNonce := GroupRows(rows);
    filteredRows := rows;
    for k := 0 to |rowsByKeyAndNonce.order|
      invariant filteredRows == FilterGroups(rowsByKeyAndNonce, rows, answers, k)
    {
      var rowGroup := RowsFor(rowsByKeyAndNonce, rowsByKeyAndNonce.order[k]);
      filteredRows := DropConflicting(filteredRows, rowGroup, AskedBy(answers, k));
    }
  }

  /** The body of that loop. */
  method DropConflicting(filteredRows: seq<BundleRow>, group: seq<BundleRow>, excess: BundleRow -> int)
    returns (result: seq<BundleRow>)
    ensures result == DropLosers(filteredRows, group, excess)
  {
    var rowGroup := KeepIn(group, Members(filteredRows));
    if |rowGroup| <= 1 {
      return filteredRows;
    }
    var bestRow := PickBest(rowGroup, excess);
    var conflictingRows := Members(rowGroup) - {bestRow};
    result := KeepIn(filteredRows, Members(filteredRows) - conflictingRows);
  }

  lemma AddUsesSnoc(index: Index, pairs: seq<Pair>, row: BundleRow, i: nat)
    requires i < |pairs|
    ensures AddUses(index, pairs[..i + 1], row) == AddUse(AddUses(index, pairs[..i], row), pairs[i], row)
  {
    assert pairs[..i + 1][..i] == pairs[..i];
  }

  lemma IndexAllSnoc(rows: seq<BundleRow>, n: nat)
    requires RowsPaired(rows) && n < |rows|
    ensures IndexAll(rows[..n + 1]) == AddUses(IndexAll(rows[..n]), Pairs(rows[n]), rows[n])
  {
    assert rows[..n + 1][..n] == rows[..n];
  }

  /** The two loops that fill the map. */
  method GroupRows(rows: seq<BundleRow>) returns (rowsByKeyAndNonce: Index)
    requires RowsPaired(rows)
    ensures rowsByKeyAndNonce == IndexAll(rows)
  {
    rowsByKeyAndNonce := Index([], map[]);
    for n := 0 to |rows|
      invariant rowsByKeyAndNonce == IndexAll(rows[..n])
    {
      var row := rows[n];
      var pairs := Pairs(row);
      for i := 0 to |pairs|
        invariant rowsByKeyAndNonce == AddUses(IndexAll(rows[..n]), pairs[..i], row)
      {
        AddUsesSnoc(IndexAll(rows[..n]), pairs, row, i);
        rowsByKeyAndNonce := AddUse(rowsByKeyAndNonce, pairs[i], row);
      }
      assert pairs[..|pairs|] == pairs;
      IndexAllSnoc(rows, n);
    }
    assert rows[..|rows|] == rows;
  }

  // ---- What is left ----

  /** What is left after each group. */
  function Stages(index: Index, rows: seq<BundleRow>, answers: Answers): nat -> seq<BundleRow> {
    (k: nat) => if k <= |index.order| then FilterGroups(index, rows, answers, k) else []
  }

  lemma DropKeepsOrder(rows: seq<BundleRow>, filtered: seq<BundleRow>, group: seq<BundleRow>, excess: BundleRow -> int)
    requires Sublist(filtered, rows)
    ensures Sublist(DropLosers(filtered, group, excess), rows)
  {
    var present := KeepIn(group, Members(filtered));
    if |present| > 1 {
      var kept := Members(filtered) - (Members(present) - {Best(present, excess)});
      KeepInTwice(rows, Members(filtered), kept);
      assert Members(filtered) * kept == Members(KeepIn(filtered, kept));
    }
  }

  lemma {:induction false} FilterKeepsOrder(index: Index, rows: seq<BundleRow>, answers: Answers,
                                            k: nat)
    requires k <= |index.order|
    ensures Sublist(FilterGroups(index, rows, answers, k), rows)
  {
    if k == 0 {
      KeepInAll(rows, Members(rows));
    } else {
      FilterKeepsOrder(index, rows, answers, k - 1);
      DropKeepsOrder(rows, FilterGroups(index, rows, answers, k - 1), RowsFor(index, index.order[k - 1]),
                     AskedBy(answers, k - 1));
    }
  }

  /** What is left is a subsequence of the rows given. */
  lemma FilteredInOrder(rows: seq<BundleRow>, answers: Answers)
    requires RowsPaired(rows)
    ensures Sublist(Filtered(rows, answers), rows)
  {
    FilterKeepsOrder(IndexAll(rows), rows, answers, |IndexAll(rows).order|);
  }

  /** What one group's step does to membership. */
  lemma DropStep(filtered: seq<BundleRow>, group: seq<BundleRow>, excess: BundleRow -> int)
    ensures var result := DropLosers(filtered, group, excess);
            && (forall r :: r in result ==> r in filtered)
            && (forall r, s :: r in result && s in result && r in group && s in group ==> r == s)
            && (forall r :: r in filtered && r !in result ==>
                  exists b :: b in result && b in group && b != r && r in group && Outranks(group, excess, b, r))
  {
    var present := KeepIn(group, Members(filtered));
    var result := DropLosers(filtered, group, excess);
    if |present| <= 1 {
      assert forall r :: r in filtered && r in group ==> r in present;
      assert forall r, s :: r in present && s in present ==> r == s;
    } else {
      var b := Best(present, excess);
      assert b in result && b in group;
      forall r | r in filtered && r !in result
        ensures r in present && r != b && Outranks(group, excess, b, r)
      {
        KeepInKeepsBefore(group, Members(filtered), b, r);
      }
    }
  }

  ghost predicate Settled(filtered: seq<BundleRow>, pair: Pair) {
    forall r, s :: r in filtered && s in filtered && Uses(r, pair) && Uses(s, pair) ==> r == s
  }

  lemma GroupHasAll(index: Index, rows: seq<BundleRow>, pair: Pair, r: BundleRow)
    requires Indexes(index, rows) && r in rows && Uses(r, pair)
    ensures r in RowsFor(index, pair)
  {
  }

  lemma LastGroupSettled(index: Index, rows: seq<BundleRow>, answers: Answers, k: nat)
    requires Indexes(index, rows) && 0 < k <= |index.order|
    ensures Settled(FilterGroups(index, rows, answers, k), index.order[k - 1])
    ensures forall r :: r in FilterGroups(index, rows, answers, k) ==> r in FilterGroups(index, rows, answers, k - 1)
  {
    var before, after := FilterGroups(index, rows, answers, k - 1), FilterGroups(index, rows, answers, k);
    var pair := index.order[k - 1];
    FilterKeepsOrder(index, rows, answers, k - 1);
    DropStep(before, RowsFor(index, pair), AskedBy(answers, k - 1));
    assert forall r :: r in after ==> r in before && r in rows;
    forall r | r in after && Uses(r, pair)
      ensures r in RowsFor(index, pair)
    {
      GroupHasAll(index, rows, pair, r);
    }
    OneOfGroup(after, RowsFor(index, pair), pair);
  }

  lemma OneOfGroup(filtered: seq<BundleRow>, group: seq<BundleRow>, pair: Pair)
    requires forall r :: r in filtered && Uses(r, pair) ==> r in group
    requires forall r, s :: r in filtered && s in filtered && r in group && s in group ==> r == s
    ensures Settled(filtered, pair)
  {
  }

  ghost predicate SettlesAt(stage: nat -> seq<BundleRow>, pair: Pair, i: nat) {
    Settled(stage(i + 1), pair) && forall r :: r in stage(i + 1) ==> r in stage(i)
  }

  /** Once its group is processed a pair is used by at most one row. */
  lemma {:induction false} GroupsSettled(stage: nat -> seq<BundleRow>, order: seq<Pair>, k: nat)
    requires k <= |order|
    requires forall i :: 0 <= i < k ==> SettlesAt(stage, order[i], i)
    ensures forall i :: 0 <= i < k ==> Settled(stage(k), order[i])
  {
    if k == 0 {
    } else {
      GroupsSettled(stage, order, k - 1);
      assert SettlesAt(stage, order[k - 1], k - 1);
      SettledStays(stage(k - 1), stage(k), order, k - 1);
    }
  }

  lemma SettledStays(before: seq<BundleRow>, after: seq<BundleRow>, order: seq<Pair>, k: nat)
    requires k <= |order|
    requires forall i :: 0 <= i < k ==> Settled(before, order[i])
    requires forall r :: r in after ==> r in before
    ensures forall i :: 0 <= i < k ==> Settled(after, order[i])
  {
  }

  lemma GroupSettles(index: Index, rows: seq<BundleRow>, answers: Answers, i: nat)
    requires Indexes(index, rows) && i < |index.order|
    ensures SettlesAt(Stages(index, rows, answers), index.order[i], i)
  {
    LastGroupSettled(index, rows, answers, i + 1);
  }

  lemma AllGroupsSettled(index: Index, rows: seq<BundleRow>, answers: Answers)
    requires Indexes(index, rows)
    ensures forall i :: 0 <= i < |index.order| ==>
              Settled(FilterGroups(index, rows, answers, |index.order|), index.order[i])
  {
    var stage := Stages(index, rows, answers);
    forall i | 0 <= i < |index.order|
      ensures SettlesAt(stage, index.order[i], i)
    {
      GroupSettles(index, rows, answers, i);
    }
    GroupsSettled(stage, index.order, |index.order|);
  }

  /** No two rows that are left conflict, whatever the checks answered. */
  lemma NoConflictsLeft(rows: seq<BundleRow>, answers: Answers, a: BundleRow, b: BundleRow)
    requires RowsPaired(rows)
    requires a in Filtered(rows, answers) && b in Filtered(rows, answers)
    ensures a in rows && b in rows && !Conflict(a, b)
  {
    var index := IndexAll(rows);
    IndexRecords(rows);
    AllGroupsSettled(index, rows, answers);
    FilteredInOrder(rows, answers);
    ConflictIsSharedUse(a, b);
    forall p | Uses(a, p) && Uses(b, p)
      ensures a == b
    {
      assert a in RowsFor(index, p);
      var i :| 0 <= i < |index.order| && index.order[i] == p;
      assert Settled(Filtered(rows, answers), index.order[i]);
    }
  }

  /** Whether a group decided between two rows in favour of the second. */
  type Decision = (nat, BundleRow, BundleRow) -> bool

  /** Two different rows are in this group. */
  predicate Meet(index: Index, group: nat, a: BundleRow, b: BundleRow) {
    && group < |index.order|
    && a != b && Uses(a, index.order[group]) && Uses(b, index.order[group])
  }

  /** They are, and in this group's check the second pays more, or as much and comes first. */
  predicate Link(index: Index, answers: Answers, group: nat, a: BundleRow, b: BundleRow) {
    && Meet(index, group, a, b)
    && Outranks(RowsFor(index, index.order[group]), AskedBy(answers, group), b, a)
  }

  lemma LinkIsConflict(index: Index, answers: Answers, group: nat, a: BundleRow, b: BundleRow)
    requires Link(index, answers, group, a, b)
    ensures Conflict(a, b)
  {
    ConflictIsSharedUse(a, b);
  }

  function Links(index: Index, answers: Answers): Decision {
    (group: nat, a: BundleRow, b: BundleRow) => Link(index, answers, group, a, b)
  }

  /** A chain of such rows, in the order of the groups that decided. */
  ghost predicate Climbs(chain: seq<BundleRow>, groups: seq<nat>, link: Decision) {
    && |chain| == |groups| + 1
    && (forall i :: 0 <= i < |groups| ==> link(groups[i], chain[i], chain[i + 1]))
    && (forall i, j :: 0 <= i < j < |groups| ==> groups[i] < groups[j])
  }

  lemma ClimbsFurther(chain: seq<BundleRow>, groups: seq<nat>, link: Decision, group: nat, next: BundleRow)
    requires Climbs(chain, groups, link) && forall g :: g in groups ==> g < group
    requires link(group, chain[|groups|], next)
    ensures Climbs(chain + [next], groups + [group], link)
  {
    assert forall i :: 0 <= i < |groups| ==> groups[i] in groups;
  }

  /** A row that loses in a group loses to a survivor of the group that pays at least as much. */
  lemma LoserHasWinner(index: Index, rows: seq<BundleRow>, answers: Answers, k: nat, r: BundleRow)
    returns (winner: BundleRow)
    requires Indexes(index, rows) && 0 < k <= |index.order|
    requires r in FilterGroups(index, rows, answers, k - 1) && r !in FilterGroups(index, rows, answers, k)
    ensures winner in FilterGroups(index, rows, answers, k)
    ensures Link(index, answers, k - 1, r, winner)
  {
    var before, pair := FilterGroups(index, rows, answers, k - 1), index.order[k - 1];
    DropStep(before, RowsFor(index, pair), AskedBy(answers, k - 1));
    winner :| winner in FilterGroups(index, rows, answers, k) && winner in RowsFor(index, pair) && winner != r
              && r in RowsFor(index, pair) && Outranks(RowsFor(index, pair), AskedBy(answers, k - 1), winner, r);
    assert Uses(r, pair) && Uses(winner, pair);
  }

  ghost predicate LosersAreLinked(stage: nat -> seq<BundleRow>, link: Decision, i: nat) {
    forall x :: x in stage(i) && x !in stage(i + 1) ==> exists winner :: winner in stage(i + 1) && link(i, x, winner)
  }

  /** If whoever drops out at a stage is linked to somebody who stays, every row reaches the last
      stage along a chain. */
  lemma {:induction false} ChainToSurvivor(stage: nat -> seq<BundleRow>, link: Decision, k: nat, r: BundleRow)
    returns (chain: seq<BundleRow>, groups: seq<nat>)
    requires forall i :: 0 <= i < k ==> LosersAreLinked(stage, link, i)
    requires forall i: nat, x :: i <= k && x in stage(i) ==> x in stage(0)
    requires r in stage(0)
    ensures Climbs(chain, groups, link) && chain[0] == r
    ensures forall x :: x in chain ==> x in stage(0)
    ensures forall g :: g in groups ==> g < k
    ensures chain[|groups|] in stage(k)
  {
    if k == 0 {
      chain, groups := [r], [];
    } else {
      chain, groups := ChainToSurvivor(stage, link, k - 1, r);
      var last := chain[|groups|];
      if last !in stage(k) {
        assert LosersAreLinked(stage, link, k - 1);
        var winner :| winner in stage(k) && link(k - 1, last, winner);
        ClimbsFurther(chain, groups, link, k - 1, winner);
        chain, groups := chain + [winner], groups + [k - 1];
      }
    }
  }

  lemma GroupLinksLosers(index: Index, rows: seq<BundleRow>, answers: Answers, i: nat)
    requires Indexes(index, rows) && i < |index.order|
    ensures LosersAreLinked(Stages(index, rows, answers), Links(index, answers), i)
  {
    var stage, link := Stages(index, rows, answers), Links(index, answers);
    forall x | x in stage(i) && x !in stage(i + 1)
      ensures exists winner :: winner in stage(i + 1) && link(i, x, winner)
    {
      var winner := LoserHasWinner(index, rows, answers, i + 1, x);
      assert winner in stage(i + 1) && link(i, x, winner);
    }
  }

  /** Whatever the checks answer from group to group, every row reaches a survivor along such a
      chain of the rows given. */
  lemma EveryRowReachesASurvivor(rows: seq<BundleRow>, answers: Answers, r: BundleRow)
    returns (chain: seq<BundleRow>, groups: seq<nat>)
    requires RowsPaired(rows)
    requires r in rows
    ensures Climbs(chain, groups, Links(IndexAll(rows), answers)) && chain[0] == r
    ensures chain[|groups|] in Filtered(rows, answers)
    ensures forall x :: x in chain ==> x in rows
    ensures forall g :: g in groups ==> g < |IndexAll(rows).order|
  {
    var index := IndexAll(rows);
    var stage, link := Stages(index, rows, answers), Links(index, answers);
    IndexRecords(rows);
    forall i | 0 <= i < |index.order|
      ensures LosersAreLinked(stage, link, i)
    {
      GroupLinksLosers(index, rows, answers, i);
    }
    forall i: nat, x | i <= |index.order| && x in stage(i)
      ensures x in stage(0)
    {
      FilterKeepsOrder(index, rows, answers, i);
    }
    chain, groups := ChainToSurvivor(stage, link, |index.order|, r);
  }

  lemma {:induction false} NeverFalls(values: seq<int>, i: nat, j: nat)
    requires forall k :: 0 <= k < |values| - 1 ==> values[k] <= values[k + 1]
    requires i <= j < |values|
    ensures values[i] <= values[j]
  {
    if i < j {
      NeverFalls(values, i, j - 1);
    }
  }

  /** If the answers for its rows do not depend on the group, the excess fee never falls from any row of a chain
      to any later one. */
  lemma StableClimb(chain: seq<BundleRow>, groups: seq<nat>, index: Index, answers: Answers,
                    excess: BundleRow -> int, i: nat, j: nat)
    requires Climbs(chain, groups, Links(index, answers)) && i <= j < |chain|
    requires forall g, x {:trigger answers(g, x)} ::
               g in groups && x in chain ==> answers(g, x).expectedFee - answers(g, x).requiredFee == excess(x)
    ensures excess(chain[i]) <= excess(chain[j])
  {
    var fees := ExcessFees(chain, excess);
    forall k | 0 <= k < |fees| - 1
      ensures fees[k] <= fees[k + 1]
    {
      LinkAt(chain, groups, index, answers, k);
    }
    NeverFalls(fees, i, j);
  }

  lemma LinkAt(chain: seq<BundleRow>, groups: seq<nat>, index: Index, answers: Answers, i: nat)
    requires Climbs(chain, groups, Links(index, answers)) && i < |groups|
    ensures Link(index, answers, groups[i], chain[i], chain[i + 1])
    ensures groups[i] in groups && chain[i] in chain && chain[i + 1] in chain
    ensures var loser, winner := answers(groups[i], chain[i]), answers(groups[i], chain[i + 1]);
            loser.expectedFee - loser.requiredFee <= winner.expectedFee - winner.requiredFee
  {
    var link := Links(index, answers);
    assert link(groups[i], chain[i], chain[i + 1]);
  }

  /** A row survives if in every group it pays more than every row it meets there, or as much and comes
      before it in the rows given. */
  lemma FirstBestSurvives(rows: seq<BundleRow>, answers: Answers, r: BundleRow)
    requires RowsPaired(rows)
    requires r in rows
    requires forall g: nat, x {:trigger answers(g, x)} ::
               x in rows && Meet(IndexAll(rows), g, r, x) ==> Outranks(rows, AskedBy(answers, g), r, x)
    ensures r in Filtered(rows, answers)
  {
    var chain, groups := EveryRowReachesASurvivor(rows, answers, r);
    if groups != [] {
      var index := IndexAll(rows);
      LinkAt(chain, groups, index, answers, 0);
      RowsInOrder(rows, index.order[groups[0]], chain[1], r);
      NotBoth(rows, AskedBy(answers, groups[0]), r, chain[1]);
    }
  }

  /** In particular a row that conflicts with none survives. */
  lemma UnrivalledSurvives(rows: seq<BundleRow>, answers: Answers, r: BundleRow)
    requires RowsPaired(rows)
    requires r in rows && forall x :: x in rows ==> !Conflict(r, x)
    ensures r in Filtered(rows, answers)
  {
    var index := IndexAll(rows);
    forall g: nat, x | x in rows
      ensures !Meet(index, g, r, x)
    {
      ConflictIsSharedUse(r, x);
    }
    FirstBestSurvives(rows, answers, r);
  }

  lemma NotBoth(rows: seq<BundleRow>, excess: BundleRow -> int, a: BundleRow, b: BundleRow)
    requires a != b
    ensures !(Outranks(rows, excess, a, b) && Outranks(rows, excess, b, a))
  {
    BeforeOneWay(rows, a, b);
  }

  lemma {:induction false} BeforeOneWay<T>(s: seq<T>, a: T, b: T)
    requires a != b
    ensures !(Before(s, a, b) && Before(s, b, a))
  {
    if s == [] {
    } else {
      BeforeOneWay(s[1..], a, b);
    }
  }

  lemma {:induction false} SomethingIsLeft(index: Index, rows: seq<BundleRow>, answers: Answers, k: nat)
    requires k <= |index.order|
    requires rows != []
    ensures FilterGroups(index, rows, answers, k) != []
  {
    if k == 0 {
    } else {
      var before := FilterGroups(index, rows, answers, k - 1);
      SomethingIsLeft(index, rows, answers, k - 1);
      DropStep(before, RowsFor(index, index.order[k - 1]), AskedBy(answers, k - 1));
      assert before[0] in before;
    }
  }

  /** Something is always left, whatever the checks answered. */
  lemma FilteredIsNotEmpty(rows: seq<BundleRow>, answers: Answers)
    requires RowsPaired(rows)
    ensures Filtered(rows, answers) == [] <==> rows == []
  {
    FilteredInOrder(rows, answers);
    if rows != [] {
      SomethingIsLeft(IndexAll(rows), rows, answers, |IndexAll(rows).order|);
    }
  }
}
