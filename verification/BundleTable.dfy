/** The bundle table (BundleTable.ts): rows in id order, with their numbers stored as padded hex
    text, which is also what the eligibility query compares. */
module BundleTable {
  import opened Wrappers
  import opened Bytes
  import HexText

  datatype Status = Pending | Confirmed | Failed

  /** `content` stands for the text columns the table only carries: the bundle, its hash, error,
      receipt and aggregate hash. */
  datatype Row = Row(id: nat, status: Status, eligibleAfter: Word, nextEligibilityDelay: Word, content: string)

  datatype RawRow = RawRow(id: nat, status: Status, eligibleAfter: string, nextEligibilityDelay: string,
                              content: string)

  function ToRawRow(row: Row): RawRow {
    RawRow(row.id, row.status, HexText.ToUint256Hex(row.eligibleAfter),
           HexText.ToUint256Hex(row.nextEligibilityDelay), row.content)
  }

  /** None where the text is not a number the row could have held. */
  function FromRawRow(raw: RawRow): Option<Row> {
    var eligibleAfter :- HexText.ReadHex(raw.eligibleAfter);
    var delay :- HexText.ReadHex(raw.nextEligibilityDelay);
    if eligibleAfter < TWO_256 && delay < TWO_256
    then Some(Row(raw.id, raw.status, eligibleAfter, delay, raw.content)) else None
  }

  lemma RowRoundTrip(row: Row)
    ensures FromRawRow(ToRawRow(row)) == Some(row)
  {
    HexText.ReadUint256Hex(row.eligibleAfter);
    HexText.ReadUint256Hex(row.nextEligibilityDelay);
  }

  ghost predicate Stores(raws: seq<RawRow>, rows: seq<Row>) {
    |raws| == |rows| && forall i :: 0 <= i < |rows| ==> raws[i] == ToRawRow(rows[i])
  }

  function FromRawRows(raws: seq<RawRow>): Option<seq<Row>> {
    if raws == [] then Some([])
    else
      var first :- FromRawRow(raws[0]);
      var others :- FromRawRows(raws[1..]);
      Some([first] + others)
  }

  /** `SELECT ... WHERE passes ORDER BY id LIMIT limit` over rows kept in id order. */
  function Select(raws: seq<RawRow>, passes: RawRow -> bool, limit: nat): seq<RawRow> {
    if raws == [] || limit == 0 then []
    else if passes(raws[0]) then [raws[0]] + Select(raws[1..], passes, limit - 1)
    else Select(raws[1..], passes, limit)
  }

  /** `eligibleAfter <= text AND status = 'pending'`. */
  function IsEligible(blockNumber: Word): RawRow -> bool {
    (raw: RawRow) => raw.status == Pending && HexText.TextLe(raw.eligibleAfter, HexText.ToUint256Hex(blockNumber))
  }

  /** The pending rows whose delay has passed, in id order. */
  function Eligible(rows: seq<Row>, blockNumber: Word): (r: seq<Row>)
    ensures forall row :: row in r <==> row in rows && row.status == Pending && row.eligibleAfter <= blockNumber
  {
    if rows == [] then []
    else if rows[0].status == Pending && rows[0].eligibleAfter <= blockNumber
    then [rows[0]] + Eligible(rows[1..], blockNumber)
    else Eligible(rows[1..], blockNumber)
  }

  function Take(s: seq, limit: nat): seq {
    if |s| <= limit then s else s[..limit]
  }

  lemma TakeFirst(first: Row, others: seq<Row>, limit: nat)
    requires limit > 0
    ensures Take([first] + others, limit) == [first] + Take(others, limit - 1)
  {
  }

  lemma {:induction false} SelectMatches(raws: seq<RawRow>, rows: seq<Row>, passes: RawRow -> bool,
                                         blockNumber: Word, limit: nat, stores: (RawRow, Row) -> bool)
    requires |raws| == |rows|
    requires forall i :: 0 <= i < |rows| ==> stores(raws[i], rows[i])
    requires forall i :: 0 <= i < |rows| ==>
               (passes(raws[i]) <==> rows[i].status == Pending && rows[i].eligibleAfter <= blockNumber)
    ensures var selected, expected := Select(raws, passes, limit), Take(Eligible(rows, blockNumber), limit);
            |selected| == |expected| && forall i :: 0 <= i < |selected| ==> stores(selected[i], expected[i])
    decreases |rows|
  {
    if rows == [] || limit == 0 {
    } else {
      var first, left := passes(raws[0]), if passes(raws[0]) then limit - 1 else limit;
      SelectMatches(raws[1..], rows[1..], passes, blockNumber, left, stores);
      TakeFirst(rows[0], Eligible(rows[1..], blockNumber), limit);
      assert Select(raws, passes, limit)
             == (if first then [raws[0]] else []) + Select(raws[1..], passes, left);
      assert Take(Eligible(rows, blockNumber), limit)
             == (if first then [rows[0]] else []) + Take(Eligible(rows[1..], blockNumber), left);
    }
  }

  lemma {:induction false} StoredRowsRead(raws: seq<RawRow>, rows: seq<Row>)
    requires Stores(raws, rows)
    ensures FromRawRows(raws) == Some(rows)
    decreases |rows|
  {
    if rows == [] {
    } else {
      RowRoundTrip(rows[0]);
      StoredRowsRead(raws[1..], rows[1..]);
      assert rows == [rows[0]] + rows[1..];
    }
  }

  /** Comparing text selects exactly the first `limit` eligible rows. */
  lemma SelectIsFirstEligible(raws: seq<RawRow>, rows: seq<Row>, blockNumber: Word, limit: nat)
    requires Stores(raws, rows)
    ensures FromRawRows(Select(raws, IsEligible(blockNumber), limit))
            == Some(Take(Eligible(rows, blockNumber), limit))
  {
    forall i | 0 <= i < |rows|
      ensures IsEligible(blockNumber)(raws[i]) <==>
              rows[i].status == Pending && rows[i].eligibleAfter <= blockNumber
    {
      HexText.TextOrderIsNumberOrder(rows[i].eligibleAfter, blockNumber);
    }
    SelectMatches(raws, rows, IsEligible(blockNumber), blockNumber, limit, (raw, row) => raw == ToRawRow(row));
    StoredRowsRead(Select(raws, IsEligible(blockNumber), limit), Take(Eligible(rows, blockNumber), limit));
  }

  lemma {:induction false} EligibleInOrder(rows: seq<Row>, nextId: nat, blockNumber: Word)
    requires Ascending(rows, nextId)
    ensures Ascending(Eligible(rows, blockNumber), nextId)
  {
    if rows == [] {
    } else {
      var others := Eligible(rows[1..], blockNumber);
      EligibleInOrder(rows[1..], nextId, blockNumber);
      if rows[0].status == Pending && rows[0].eligibleAfter <= blockNumber {
        FirstInOrder(rows, others, nextId);
      }
    }
  }

  lemma FirstInOrder(rows: seq<Row>, others: seq<Row>, nextId: nat)
    requires rows != [] && Ascending(rows, nextId) && Ascending(others, nextId)
    requires forall row :: row in others ==> row in rows[1..]
    ensures Ascending([rows[0]] + others, nextId)
  {
    forall i | 0 <= i < |others|
      ensures rows[0].id < others[i].id
    {
      assert others[i] in rows[1..];
    }
  }

  /** Pending rows whose time has come, by ascending id, at most that many; what is left over is later and only
      left over because there are that many already. */
  ghost predicate FirstEligible(found: seq<Row>, rows: seq<Row>, blockNumber: Word, limit: nat) {
    && |found| <= limit
    && (forall i, j :: 0 <= i < j < |found| ==> found[i].id < found[j].id)
    && (forall row :: row in found ==> row in rows && row.status == Pending && row.eligibleAfter <= blockNumber)
    && forall row :: row in rows && row.status == Pending && row.eligibleAfter <= blockNumber && row !in found ==>
         |found| == limit && forall other :: other in found ==> other.id < row.id
  }

  lemma TakeIsFirst(rows: seq<Row>, nextId: nat, blockNumber: Word, limit: nat)
    requires Ascending(rows, nextId)
    ensures FirstEligible(Take(Eligible(rows, blockNumber), limit), rows, blockNumber, limit)
  {
    var all := Eligible(rows, blockNumber);
    EligibleInOrder(rows, nextId, blockNumber);
    if |all| > limit {
      PrefixIsFirst(all, limit);
    }
  }

  lemma PrefixIsFirst(all: seq<Row>, limit: nat)
    requires limit < |all|
    requires forall i, j :: 0 <= i < j < |all| ==> all[i].id < all[j].id
    ensures forall row, other :: row in all && row !in all[..limit] && other in all[..limit] ==> other.id < row.id
  {
    assert forall k :: 0 <= k < limit ==> all[..limit][k] == all[k];
    forall row, other | row in all && row !in all[..limit] && other in all[..limit]
      ensures other.id < row.id
    {
      var i :| 0 <= i < |all[..limit]| && all[..limit][i] == other;
      var j :| 0 <= j < |all| && all[j] == row;
      assert all[i] == other && j >= limit;
    }
  }

  /** Replaces the row with that id, if any. */
  function Replace(rows: seq<Row>, row: Row): (r: seq<Row>)
    ensures |r| == |rows|
    ensures forall i :: 0 <= i < |rows| ==> r[i] == if rows[i].id == row.id then row else rows[i]
  {
    if rows == [] then []
    else [if rows[0].id == row.id then row else rows[0]] + Replace(rows[1..], row)
  }

  lemma ReplaceKeepsOrder(rows: seq<Row>, row: Row, nextId: nat)
    requires Ascending(rows, nextId)
    ensures Ascending(Replace(rows, row), nextId)
  {
    var r := Replace(rows, row);
    assert forall i :: 0 <= i < |rows| ==> r[i].id == rows[i].id;
  }

  /** `UPDATE ... WHERE id = :id`. */
  method ReplaceRaw(raws: seq<RawRow>, raw: RawRow) returns (updated: seq<RawRow>)
    ensures |updated| == |raws|
    ensures forall i :: 0 <= i < |raws| ==> updated[i] == if raws[i].id == raw.id then raw else raws[i]
  {
    updated := [];
    for i := 0 to |raws|
      invariant |updated| == i
      invariant forall k :: 0 <= k < i ==> updated[k] == if raws[k].id == raw.id then raw else raws[k]
    {
      updated := updated + [if raws[i].id == raw.id then raw else raws[i]];
    }
  }

  ghost predicate Ascending(rows: seq<Row>, nextId: nat) {
    && (forall i, j :: 0 <= i < j < |rows| ==> rows[i].id < rows[j].id)
    && (forall i :: 0 <= i < |rows| ==> rows[i].id < nextId)
  }

  class Table {
    var raws: seq<RawRow>
    var nextId: nat
    ghost var rows: seq<Row>

    ghost predicate Valid()
      reads this
    {
      Stores(raws, rows) && Ascending(rows, nextId)
    }

    constructor ()
      ensures Valid() && rows == []
    {
      raws, rows, nextId := [], [], 1;
    }

    /** The database assigns the next id. */
    method Add(status: Status, eligibleAfter: Word, nextEligibilityDelay: Word, content: string)
      requires Valid()
      modifies this
      ensures Valid()
      ensures rows == old(rows) + [Row(old(nextId), status, eligibleAfter, nextEligibilityDelay, content)]
      ensures nextId == old(nextId) + 1
    {
      var row := Row(nextId, status, eligibleAfter, nextEligibilityDelay, content);
      raws := raws + [ToRawRow(row)];
      rows := rows + [row];
      nextId := nextId + 1;
    }

    method Update(row: Row)
      requires Valid()
      modifies this
      ensures Valid() && nextId == old(nextId)
      ensures rows == Replace(old(rows), row)
    {
      ReplaceKeepsOrder(rows, row, nextId);
      raws := ReplaceRaw(raws, ToRawRow(row));
      rows := Replace(rows, row);
    }

    method FindEligible(blockNumber: Word, limit: nat) returns (found: seq<Row>)
      requires Valid()
      ensures found == Take(Eligible(rows, blockNumber), limit)
      ensures FirstEligible(found, rows, blockNumber, limit)
    {
      TakeIsFirst(rows, nextId, blockNumber, limit);
      SelectIsFirstEligible(raws, rows, blockNumber, limit);
      found := FromRawRows(Select(raws, IsEligible(blockNumber), limit)).value;
    }
  }
}
