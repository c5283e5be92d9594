/** Aggregating bundles (signer/aggregate.ts, signer/isValidEmptyBundle.ts). Curve addition is an
    arbitrary monoid on signatures; the underlying library fails when it is handed the identity. */
module Aggregate {
  import opened Wrappers
  import opened Operations

  datatype SignatureMonoid = SignatureMonoid(zero: Signature, add: (Signature, Signature) -> Signature)

  ghost predicate Laws(m: SignatureMonoid) {
    && (forall a: Signature :: m.add(m.zero, a) == a)
    && (forall a: Signature :: m.add(a, m.zero) == a)
    && (forall a: Signature, b: Signature, c: Signature :: m.add(m.add(a, b), c) == m.add(a, m.add(b, c)))
  }

  predicate AllPaired(bundles: seq<Bundle>) {
    forall b :: b in bundles ==> Paired(b)
  }

  predicate IsValidEmpty(m: SignatureMonoid, b: Bundle) {
    b.operations == [] && b.signature == m.zero
  }

  function NonEmpty(m: SignatureMonoid, bundles: seq<Bundle>): seq<Bundle> {
    if bundles == [] then []
    else if IsValidEmpty(m, bundles[0]) then NonEmpty(m, bundles[1..])
    else [bundles[0]] + NonEmpty(m, bundles[1..])
  }

  /** Keys and operations in order, signatures added up. */
  function Total(m: SignatureMonoid, bundles: seq<Bundle>): Bundle {
    if bundles == [] then Bundle([], [], m.zero)
    else Joined(m, bundles[0], Total(m, bundles[1..]))
  }

  /** Two bundles end to end. */
  function Joined(m: SignatureMonoid, a: Bundle, b: Bundle): Bundle {
    Bundle(a.senderPublicKeys + b.senderPublicKeys, a.operations + b.operations, m.add(a.signature, b.signature))
  }

  /** A bundle the library cannot add and the filter does not drop. */
  predicate Rejected(m: SignatureMonoid, b: Bundle) {
    b.signature == m.zero && b.operations != []
  }

  /** None where the library fails. */
  function AggregateAll(m: SignatureMonoid, bundles: seq<Bundle>): Option<Bundle> {
    var nonEmptyBundles := NonEmpty(m, bundles);
    if exists b :: b in nonEmptyBundles && b.signature == m.zero then None else Some(Total(m, nonEmptyBundles))
  }

  /** Round after round: the aggregate so far goes in front of the bundles of the next round. */
  function Incremental(m: SignatureMonoid, start: Bundle, rounds: seq<seq<Bundle>>): Option<Bundle>
    decreases |rounds|
  {
    if rounds == [] then Some(start)
    else
      var next :- AggregateAll(m, [start] + rounds[0]);
      Incremental(m, next, rounds[1..])
  }

  function Flatten(rounds: seq<seq<Bundle>>): seq<Bundle> {
    if rounds == [] then [] else rounds[0] + Flatten(rounds[1..])
  }

  lemma {:induction false} FilterChangesNothing(m: SignatureMonoid, bundles: seq<Bundle>)
    requires Laws(m) && AllPaired(bundles)
    ensures Total(m, NonEmpty(m, bundles)) == Total(m, bundles)
    ensures forall b :: b in NonEmpty(m, bundles) <==> b in bundles && !IsValidEmpty(m, b)
  {
    if bundles == [] {
    } else {
      FilterChangesNothing(m, bundles[1..]);
      assert bundles == [bundles[0]] + bundles[1..] && Paired(bundles[0]);
      var others := Total(m, bundles[1..]);
      assert [] + others.senderPublicKeys == others.senderPublicKeys && [] + others.operations == others.operations;
      var kept := NonEmpty(m, bundles[1..]);
      assert ([bundles[0]] + kept)[1..] == kept;
    }
  }

  /** Exactly when aggregation fails, and that the filter drops nothing that counts. */
  lemma AggregateIsTotal(m: SignatureMonoid, bundles: seq<Bundle>)
    requires Laws(m) && AllPaired(bundles)
    ensures AggregateAll(m, bundles)
            == if SomeRejected(m, bundles) then None else Some(Total(m, bundles))
  {
    FilterChangesNothing(m, bundles);
  }

  lemma TotalFirst(m: SignatureMonoid, first: Bundle, others: seq<Bundle>)
    ensures Total(m, [first] + others) == Joined(m, first, Total(m, others))
  {
    assert ([first] + others)[1..] == others;
  }

  lemma JoinNothing(m: SignatureMonoid, b: Bundle)
    requires Laws(m)
    ensures Joined(m, Total(m, []), b) == b
  {
    assert [] + b.senderPublicKeys == b.senderPublicKeys && [] + b.operations == b.operations;
  }

  lemma JoinAssociates(m: SignatureMonoid, a: Bundle, b: Bundle, c: Bundle)
    requires Laws(m)
    ensures Joined(m, a, Joined(m, b, c)) == Joined(m, Joined(m, a, b), c)
  {
    assert a.senderPublicKeys + (b.senderPublicKeys + c.senderPublicKeys)
           == (a.senderPublicKeys + b.senderPublicKeys) + c.senderPublicKeys;
    assert a.operations + (b.operations + c.operations) == (a.operations + b.operations) + c.operations;
  }

  lemma {:induction false} TotalConcat(m: SignatureMonoid, a: seq<Bundle>, b: seq<Bundle>)
    requires Laws(m)
    ensures Total(m, a + b) == Total(m, [Total(m, a)] + b)
  {
    TotalFirst(m, Total(m, a), b);
    if a == [] {
      assert a + b == b;
      JoinNothing(m, Total(m, b));
    } else {
      TotalConcat(m, a[1..], b);
      assert (a + b)[1..] == a[1..] + b;
      TotalFirst(m, Total(m, a[1..]), b);
      JoinAssociates(m, a[0], Total(m, a[1..]), Total(m, b));
    }
  }

  lemma {:induction false} TotalPaired(m: SignatureMonoid, bundles: seq<Bundle>)
    requires AllPaired(bundles)
    ensures Paired(Total(m, bundles))
  {
    if bundles == [] {
    } else {
      assert Paired(bundles[0]);
      TotalPaired(m, bundles[1..]);
    }
  }

  /** Where each round starts: the total of the rounds before it. */
  ghost predicate NeverStuck(m: SignatureMonoid, done: seq<Bundle>, rounds: seq<seq<Bundle>>)
    decreases |rounds|
  {
    rounds == [] || (!Rejected(m, Total(m, done)) && NeverStuck(m, done + rounds[0], rounds[1..]))
  }

  /** No round starts from a rejected total. */
  lemma {:induction false} NeverStuckMeans(m: SignatureMonoid, done: seq<Bundle>, rounds: seq<seq<Bundle>>)
    ensures NeverStuck(m, done, rounds) <==>
            forall k :: 0 <= k < |rounds| ==> !Rejected(m, Total(m, done + Flatten(rounds[..k])))
    decreases |rounds|
  {
    if rounds == [] {
    } else {
      var later := done + rounds[0];
      NeverStuckMeans(m, later, rounds[1..]);
      assert done + Flatten(rounds[..0]) == done;
      forall k | 0 <= k < |rounds[1..]|
        ensures done + Flatten(rounds[..k + 1]) == later + Flatten(rounds[1..][..k])
      {
        assert rounds[..k + 1][1..] == rounds[1..][..k];
      }
      assert forall k :: 0 < k < |rounds| ==> done + Flatten(rounds[..k]) == later + Flatten(rounds[1..][..k - 1]);
    }
  }

  ghost predicate SomeRejected(m: SignatureMonoid, bundles: seq<Bundle>) {
    exists b :: b in bundles && Rejected(m, b)
  }

  lemma OneRound(m: SignatureMonoid, done: seq<Bundle>, round: seq<Bundle>)
    requires Laws(m) && AllPaired(done) && AllPaired(round)
    ensures AggregateAll(m, [Total(m, done)] + round)
            == if Rejected(m, Total(m, done)) || SomeRejected(m, round) then None else Some(Total(m, done + round))
  {
    var start := Total(m, done);
    TotalPaired(m, done);
    AggregateIsTotal(m, [start] + round);
    TotalConcat(m, done, round);
    assert SomeRejected(m, [start] + round) <==> Rejected(m, start) || SomeRejected(m, round) by {
      assert ([start] + round)[0] == start;
    }
  }

  lemma SomeRejectedConcat(m: SignatureMonoid, a: seq<Bundle>, b: seq<Bundle>)
    ensures SomeRejected(m, a + b) <==> SomeRejected(m, a) || SomeRejected(m, b)
  {
  }

  /** What aggregating round by round should give: everything at once, unless some bundle is rejected
      by itself or the operations so far happen to add up to the identity signature at the start of
      a later round. */
  ghost function OneShot(m: SignatureMonoid, done: seq<Bundle>, rounds: seq<seq<Bundle>>): Option<Bundle> {
    if NeverStuck(m, done, rounds) && !SomeRejected(m, Flatten(rounds)) then Some(Total(m, done + Flatten(rounds)))
    else None
  }

  lemma OneShotStep(m: SignatureMonoid, done: seq<Bundle>, rounds: seq<seq<Bundle>>)
    requires rounds != []
    ensures OneShot(m, done, rounds)
            == if Rejected(m, Total(m, done)) || SomeRejected(m, rounds[0]) then None
               else OneShot(m, done + rounds[0], rounds[1..])
  {
    SomeRejectedConcat(m, rounds[0], Flatten(rounds[1..]));
    assert done + Flatten(rounds) == (done + rounds[0]) + Flatten(rounds[1..]);
  }

  /** Aggregating round by round gives exactly that. */
  lemma {:induction false} IncrementalIsOneShot(m: SignatureMonoid, done: seq<Bundle>, rounds: seq<seq<Bundle>>)
    requires Laws(m) && AllPaired(done) && AllPaired(Flatten(rounds))
    ensures Incremental(m, Total(m, done), rounds) == OneShot(m, done, rounds)
    decreases |rounds|
  {
    if rounds == [] {
      assert done + Flatten(rounds) == done;
    } else {
      FlattenPaired(rounds);
      OneRound(m, done, rounds[0]);
      OneShotStep(m, done, rounds);
      IncrementalIsOneShot(m, done + rounds[0], rounds[1..]);
    }
  }

  lemma FlattenPaired(rounds: seq<seq<Bundle>>)
    requires rounds != [] && AllPaired(Flatten(rounds))
    ensures AllPaired(rounds[0]) && AllPaired(Flatten(rounds[1..]))
  {
  }

  /** The same from the empty aggregate `run` starts with, against `aggregate` of all bundles. */
  lemma RunAggregatesOnce(m: SignatureMonoid, rounds: seq<seq<Bundle>>)
    requires Laws(m) && AllPaired(Flatten(rounds))
    requires Incremental(m, Total(m, []), rounds).Some?
    ensures Incremental(m, Total(m, []), rounds) == AggregateAll(m, Flatten(rounds))
  {
    IncrementalIsOneShot(m, [], rounds);
    AggregateIsTotal(m, Flatten(rounds));
    assert [] + Flatten(rounds) == Flatten(rounds);
  }

  /** Where the two differ: two bundles whose signatures cancel, then a third. At once they
      aggregate; once the first two are in, no further round succeeds, not even an empty one. */
  lemma CancellingSignaturesStopRounds(m: SignatureMonoid, a: Bundle, b: Bundle, c: Bundle, round: seq<Bundle>)
    requires Laws(m) && AllPaired([a, b, c]) && AllPaired(round)
    requires a.operations != [] && forall x :: x in [a, b, c] ==> !Rejected(m, x)
    requires m.add(a.signature, b.signature) == m.zero
    ensures AggregateAll(m, [a, b, c]).Some?
    ensures Incremental(m, Total(m, [a, b]), [round]).None?
  {
    AggregateIsTotal(m, [a, b, c]);
    assert AllPaired([a, b]) by { assert a in [a, b, c] && b in [a, b, c]; }
    assert Flatten([round]) == round;
    IncrementalIsOneShot(m, [a, b], [round]);
    assert [a, b][1..] == [b] && [b][1..] == [];
    assert Total(m, [b]).signature == m.add(b.signature, m.zero) == b.signature;
    assert Total(m, [a, b]).signature == m.add(a.signature, b.signature);
    assert Rejected(m, Total(m, [a, b]));
  }

  /** The same from the start: whatever is to come in a second round, even nothing, fails. */
  lemma CancellingRounds(m: SignatureMonoid, a: Bundle, b: Bundle, round: seq<Bundle>)
    requires Laws(m) && AllPaired([a, b]) && AllPaired(round)
    requires a.operations != [] && !Rejected(m, a) && !Rejected(m, b)
    requires m.add(a.signature, b.signature) == m.zero
    ensures Incremental(m, Total(m, []), [[a, b], round]).None?
  {
    OneRound(m, [], [a, b]);
    assert [] + [a, b] == [a, b] && [[a, b], round][1..] == [round];
    assert forall x :: x in [a, b, b] ==> x == a || x == b;
    assert AllPaired([a, b, b]) by { assert a in [a, b] && b in [a, b]; }
    CancellingSignaturesStopRounds(m, a, b, b, round);
  }

  // ---- What a total is made of ----

  /** Where the operations of the i-th bundle begin. */
  function Offset(bundles: seq<Bundle>, i: nat): nat
    requires i <= |bundles|
  {
    if i == 0 then 0 else Offset(bundles, i - 1) + |bundles[i - 1].operations|
  }

  lemma {:induction false} OffsetShifts(bundles: seq<Bundle>, i: nat)
    requires bundles != [] && i < |bundles|
    ensures Offset(bundles, i + 1) == |bundles[0].operations| + Offset(bundles[1..], i)
  {
    if i == 0 {
      assert Offset(bundles, 0) == 0 && Offset(bundles[1..], 0) == 0;
    } else {
      OffsetShifts(bundles, i - 1);
    }
  }

  lemma {:induction false} TotalLength(m: SignatureMonoid, bundles: seq<Bundle>)
    requires AllPaired(bundles)
    ensures var total := Total(m, bundles);
            |total.operations| == |total.senderPublicKeys| == Offset(bundles, |bundles|)
  {
    TotalPaired(m, bundles);
    if bundles == [] {
    } else {
      TotalLength(m, bundles[1..]);
      OffsetShifts(bundles, |bundles| - 1);
    }
  }

  /** A part of a bundle's key and operation lists: this operation with this key at this place. */
  predicate Holds(b: Bundle, at: nat, key: PublicKey, op: Operation) {
    && at < |b.operations| && at < |b.senderPublicKeys|
    && b.operations[at] == op && b.senderPublicKeys[at] == key
  }

  /** The j-th operation of the i-th bundle stands at its offset plus j, under its own key. */
  lemma {:induction false} TotalAt(m: SignatureMonoid, bundles: seq<Bundle>, i: nat, j: nat)
    requires AllPaired(bundles) && i < |bundles| && j < |bundles[i].operations| == |bundles[i].senderPublicKeys|
    ensures Holds(Total(m, bundles), Offset(bundles, i) + j, bundles[i].senderPublicKeys[j], bundles[i].operations[j])
  {
    assert Paired(bundles[0]) by { assert bundles[0] in bundles; }
    if i == 0 {
    } else {
      TotalAt(m, bundles[1..], i - 1, j);
      OffsetShifts(bundles, i - 1);
    }
  }

  /** The signatures added up from left to right. */
  function AddedUp(m: SignatureMonoid, bundles: seq<Bundle>): Signature {
    if bundles == [] then m.zero
    else m.add(AddedUp(m, bundles[..|bundles| - 1]), bundles[|bundles| - 1].signature)
  }

  lemma {:induction false} AddedUpFirst(m: SignatureMonoid, bundles: seq<Bundle>)
    requires Laws(m) && bundles != []
    ensures AddedUp(m, bundles) == m.add(bundles[0].signature, AddedUp(m, bundles[1..]))
  {
    var n := |bundles| - 1;
    if n == 0 {
      assert AddedUp(m, bundles[..0]) == m.zero && AddedUp(m, bundles[1..]) == m.zero;
    } else {
      var front, last := bundles[..n], bundles[n].signature;
      AddedUpFirst(m, front);
      assert front[1..] == bundles[1..][..n - 1];
      assert bundles[1..][n - 1] == bundles[n];
    }
  }

  lemma {:induction false} TotalSignature(m: SignatureMonoid, bundles: seq<Bundle>)
    requires Laws(m)
    ensures Total(m, bundles).signature == AddedUp(m, bundles)
  {
    if bundles == [] {
    } else {
      TotalSignature(m, bundles[1..]);
      AddedUpFirst(m, bundles);
    }
  }

  /** Every operation of every bundle, in order and under its own key, no others, and the signatures
      added up in order. */
  ghost predicate IsAggregate(m: SignatureMonoid, bundles: seq<Bundle>, total: Bundle) {
    && |total.operations| == |total.senderPublicKeys| == Offset(bundles, |bundles|)
    && total.signature == AddedUp(m, bundles)
    && forall i, j :: 0 <= i < |bundles| && 0 <= j < |bundles[i].operations|
                      && |bundles[i].operations| == |bundles[i].senderPublicKeys| ==>
         Holds(total, Offset(bundles, i) + j, bundles[i].senderPublicKeys[j], bundles[i].operations[j])
  }

  /** What aggregation gives. */
  lemma AggregateHolds(m: SignatureMonoid, bundles: seq<Bundle>)
    requires Laws(m) && AllPaired(bundles) && AggregateAll(m, bundles).Some?
    ensures IsAggregate(m, bundles, AggregateAll(m, bundles).value)
  {
    AggregateIsTotal(m, bundles);
    TotalLength(m, bundles);
    TotalSignature(m, bundles);
    forall i, j | 0 <= i < |bundles| && 0 <= j < |bundles[i].operations|
                  && |bundles[i].operations| == |bundles[i].senderPublicKeys|
      ensures Holds(Total(m, bundles), Offset(bundles, i) + j, bundles[i].senderPublicKeys[j], bundles[i].operations[j])
    {
      TotalAt(m, bundles, i, j);
    }
  }
}
