/** Whole bundles: the client's choice of compressors (BundleCompressor.ts) and the contract's choice of
    expanders (BLSExpanderDelegator.sol). */
module Bundles {
  import opened Wrappers
  import opened Bytes
  import opened Operations
  import opened Registry
  import OperationStream
  import OperationRoundTrip
  import Registration
  import Compressors
  import Framing
  import Vlq

  /** The expander contracts, and with them the three compressors. */
  datatype Expander = Erc20 | Registration | Fallback

  /** Expanders by id, in the order they were registered with the delegator. */
  type Expanders = s: seq<Expander> | |s| < TWO_256

  /** A compressor in the client's list with the id its expander is registered under. */
  type Compressor = (nat, Expander)

  function StyleOf(kind: Expander): OperationStream.Style
    requires !kind.Registration?
  {
    if kind.Erc20? then OperationStream.Erc20 else OperationStream.Fallback
  }

  function CompressWith(kind: Expander, d: Deployment, r: Registries, key: PublicKey, op: Operation)
    : Option<seq<Byte>>
  {
    if kind.Registration? then Registration.Compress(d, key, op)
    else OperationStream.Compress(StyleOf(kind), d, r, key, op)
  }

  function ExpandWith(kind: Expander, d: Deployment, r: Registries, stream: seq<Byte>)
    : (result: Option<(PublicKey, Operation, seq<Byte>)>)
    ensures result.Some? ==> |result.value.2| < |stream|
  {
    if kind.Registration? then Registration.Expand(d, stream)
    else OperationStream.Expand(StyleOf(kind), d, r, stream)
  }

  // ---- The client ----

  /** The first compressor in the list that accepts the operation. */
  function Choose(compressors: seq<Compressor>, d: Deployment, r: Registries, key: PublicKey, op: Operation)
    : (chosen: Option<Compressor>)
    ensures chosen.Some? ==> chosen.value in compressors
    ensures chosen.Some? ==> CompressWith(chosen.value.1, d, r, key, op).Some?
    ensures chosen.None? <==> forall c :: c in compressors ==> CompressWith(c.1, d, r, key, op).None?
  {
    if compressors == [] then None
    else if CompressWith(compressors[0].1, d, r, key, op).Some? then Some(compressors[0])
    else Choose(compressors[1..], d, r, key, op)
  }

  /** The i-th compressor accepts and none before it does. */
  ghost predicate FirstAccepts(compressors: seq<Compressor>, d: Deployment, r: Registries, key: PublicKey,
                               op: Operation, i: nat)
  {
    && i < |compressors|
    && CompressWith(compressors[i].1, d, r, key, op).Some?
    && forall j :: 0 <= j < i ==> CompressWith(compressors[j].1, d, r, key, op).None?
  }

  lemma {:induction false} ChosenIsFirst(compressors: seq<Compressor>, d: Deployment, r: Registries, key: PublicKey,
                                         op: Operation) returns (i: nat)
    requires Choose(compressors, d, r, key, op).Some?
    ensures FirstAccepts(compressors, d, r, key, op, i)
    ensures Choose(compressors, d, r, key, op) == Some(compressors[i])
  {
    if CompressWith(compressors[0].1, d, r, key, op).Some? {
      i := 0;
    } else {
      var k := ChosenIsFirst(compressors[1..], d, r, key, op);
      i := k + 1;
      assert forall j :: 0 < j < i ==> compressors[j] == compressors[1..][j - 1];
    }
  }

  /** What is written for an operation is the index and the form of the first compressor that accepts
      it. */
  lemma OperationBytesAreFirst(compressors: seq<Compressor>, d: Deployment, r: Registries, key: PublicKey,
                               op: Operation, data: seq<Byte>)
    ensures OperationBytes(compressors, d, r, key, op) == Some(data) <==>
            exists i: nat :: FirstAccepts(compressors, d, r, key, op, i)
                             && data == Vlq.Encode(compressors[i].0)
                                        + CompressWith(compressors[i].1, d, r, key, op).value
    ensures OperationBytes(compressors, d, r, key, op).None? <==>
            forall c :: c in compressors ==> CompressWith(c.1, d, r, key, op).None?
  {
    if Choose(compressors, d, r, key, op).Some? {
      var i := ChosenIsFirst(compressors, d, r, key, op);
      forall k: nat | FirstAccepts(compressors, d, r, key, op, k)
        ensures k == i
      {
      }
    } else {
      forall i | 0 <= i < |compressors|
        ensures CompressWith(compressors[i].1, d, r, key, op).None?
      {
        assert compressors[i] in compressors;
      }
    }
  }

  lemma OperationBytesFound(compressors: seq<Compressor>, d: Deployment, r: Registries, key: PublicKey, op: Operation)
    ensures var data := OperationBytes(compressors, d, r, key, op);
            if data.Some? then
              exists i: nat :: FirstAccepts(compressors, d, r, key, op, i)
                               && data.value == Vlq.Encode(compressors[i].0)
                                                + CompressWith(compressors[i].1, d, r, key, op).value
            else forall c :: c in compressors ==> CompressWith(c.1, d, r, key, op).None?
  {
    var data := OperationBytes(compressors, d, r, key, op);
    if data.Some? {
      OperationBytesAreFirst(compressors, d, r, key, op, data.value);
    } else {
      OperationBytesAreFirst(compressors, d, r, key, op, []);
    }
  }

  function OperationBytes(compressors: seq<Compressor>, d: Deployment, r: Registries, key: PublicKey,
                             op: Operation): Option<seq<Byte>> {
    var (expanderIndex, kind) :- Choose(compressors, d, r, key, op);
    Some(Vlq.Encode(expanderIndex) + CompressWith(kind, d, r, key, op).value)
  }

  // ---- The contract ----

  function Expanding(d: Deployment, r: Registries): Expander -> Framing.Reader {
    kind => (stream => ExpandWith(kind, d, r, stream))
  }

  function ReadOperation(expanders: Expanders, d: Deployment, r: Registries, stream: seq<Byte>)
    : (result: Option<(PublicKey, Operation, seq<Byte>)>)
    ensures result.Some? ==> |result.value.2| < |stream|
  {
    Framing.Dispatch(expanders, Expanding(d, r), stream)
  }

  // ---- What survives ----

  predicate ResolvesWith(kind: Expander, d: Deployment, r: Registries, key: PublicKey, op: Operation) {
    kind.Registration? || OperationStream.OperationResolves(StyleOf(kind), d, r, key, op)
  }

  function DeliveredWith(kind: Expander, d: Deployment, op: Operation): Operation {
    if kind.Registration? then op else OperationStream.DeliveredOperation(StyleOf(kind), d, op)
  }

  /** Every id in the client's list is the id of that expander. */
  predicate Consistent(compressors: seq<Compressor>, expanders: Expanders) {
    forall c :: c in compressors ==> c.0 < |expanders| && expanders[c.0] == c.1
  }

  /** What the contract makes of one compressed operation: None where it reverts. */
  function Deliver(compressors: seq<Compressor>, d: Deployment, r: Registries, key: PublicKey, op: Operation)
    : Option<Operation>
  {
    var (_, kind) :- Choose(compressors, d, r, key, op);
    if ResolvesWith(kind, d, r, key, op) then Some(DeliveredWith(kind, d, op)) else None
  }

  lemma OperationReads(compressors: seq<Compressor>, expanders: Expanders, d: Deployment, earlier: Registries,
                       later: Registries, key: PublicKey, op: Operation, data: seq<Byte>, stream: seq<Byte>)
    requires Consistent(compressors, expanders) && Grows(earlier, later)
    requires OperationBytes(compressors, d, earlier, key, op) == Some(data)
    ensures ReadOperation(expanders, d, later, data + stream)
            == match Deliver(compressors, d, earlier, key, op)
               case None => None
               case Some(delivered) => Some((key, delivered, stream))
  {
    var (expanderIndex, kind) := Choose(compressors, d, earlier, key, op).value;
    var body := CompressWith(kind, d, earlier, key, op).value;
    Framing.DispatchReads(expanders, Expanding(d, later), expanderIndex, body, stream);
    BodyReads(kind, d, earlier, later, key, op, body, stream);
  }

  lemma BodyReads(kind: Expander, d: Deployment, earlier: Registries, later: Registries, key: PublicKey,
                  op: Operation, body: seq<Byte>, stream: seq<Byte>)
    requires Grows(earlier, later)
    requires CompressWith(kind, d, earlier, key, op) == Some(body)
    ensures ExpandWith(kind, d, later, body + stream)
            == if ResolvesWith(kind, d, earlier, key, op) then Some((key, DeliveredWith(kind, d, op), stream)) else None
  {
    if kind.Registration? {
      Registration.RoundTrip(d, key, op, stream);
    } else {
      OperationRoundTrip.OperationReads(StyleOf(kind), d, earlier, later, key, op, stream);
    }
  }

  // ---- Whole bundles ----

  /** Each operation may be written against another state of the registries. */
  function Writing(compressors: seq<Compressor>, d: Deployment, states: seq<Registries>): Framing.Writer {
    (i: nat, key: PublicKey, op: Operation) =>
      if i < |states| then OperationBytes(compressors, d, states[i], key, op) else None
  }

  function Reading(expanders: Expanders, d: Deployment, r: Registries): (read: Framing.Reader)
    ensures Framing.Consumes(read)
  {
    stream => ReadOperation(expanders, d, r, stream)
  }

  function Delivering(compressors: seq<Compressor>, d: Deployment, states: seq<Registries>): Framing.Delivery {
    (i: nat, key: PublicKey, op: Operation) =>
      if i < |states| then Deliver(compressors, d, states[i], key, op) else None
  }

  ghost predicate AllGrow(states: seq<Registries>, later: Registries) {
    forall i :: 0 <= i < |states| ==> Grows(states[i], later)
  }

  /** What the client makes of a bundle. */
  function BundleBytes(compressors: seq<Compressor>, d: Deployment, states: seq<Registries>, b: Bundle)
    : Option<seq<Byte>>
  {
    Framing.WriteBundle(Writing(compressors, d, states), b)
  }

  /** `BLSExpanderDelegator.run` up to the call of the gateway. */
  function Run(expanders: Expanders, d: Deployment, r: Registries, stream: seq<Byte>): Option<Bundle> {
    Framing.Run(Reading(expanders, d, r), stream)
  }

  /** The bundle as the contract receives it. */
  function DeliverBundle(compressors: seq<Compressor>, d: Deployment, states: seq<Registries>, b: Bundle)
    : Option<Bundle>
    requires Paired(b)
  {
    Framing.DeliverBundle(Delivering(compressors, d, states), b)
  }

  lemma CompressorsAgree(compressors: seq<Compressor>, expanders: Expanders, d: Deployment, states: seq<Registries>,
                         later: Registries)
    requires Consistent(compressors, expanders) && AllGrow(states, later)
    ensures Framing.Agree(Writing(compressors, d, states), Reading(expanders, d, later),
                          Delivering(compressors, d, states))
  {
    forall i: nat, key: PublicKey, op: Operation, stream: seq<Byte> |
      i < |states| && OperationBytes(compressors, d, states[i], key, op).Some?
      ensures var data := OperationBytes(compressors, d, states[i], key, op).value;
              data != [] && ReadOperation(expanders, d, later, data + stream)
                            == match Deliver(compressors, d, states[i], key, op)
                               case None => None
                               case Some(delivered) => Some((key, delivered, stream))
    {
      OperationReads(compressors, expanders, d, states[i], later, key, op,
                     OperationBytes(compressors, d, states[i], key, op).value, stream);
    }
  }

  /** The contract runs the compressed bundle on exactly the delivered bundle, whichever compressor
      each operation fell to and whatever has been registered since each was written. */
  lemma RunReads(compressors: seq<Compressor>, expanders: Expanders, d: Deployment, states: seq<Registries>,
                 later: Registries, b: Bundle)
    requires Consistent(compressors, expanders) && AllGrow(states, later)
    requires |b.operations| < TWO_256
    requires BundleBytes(compressors, d, states, b).Some?
    ensures Run(expanders, d, later, BundleBytes(compressors, d, states, b).value)
            == DeliverBundle(compressors, d, states, b)
  {
    CompressorsAgree(compressors, expanders, d, states, later);
    Framing.RunReads(Writing(compressors, d, states), Reading(expanders, d, later),
                     Delivering(compressors, d, states), b);
  }

  /** The stream delimits itself: reading by the count leaves exactly what followed the bundle. */
  lemma BundleReads(compressors: seq<Compressor>, expanders: Expanders, d: Deployment, states: seq<Registries>,
                    later: Registries, b: Bundle, rest: seq<Byte>)
    requires Consistent(compressors, expanders) && AllGrow(states, later)
    requires |b.operations| < TWO_256
    requires BundleBytes(compressors, d, states, b).Some?
    ensures Framing.ReadBundle(Reading(expanders, d, later), BundleBytes(compressors, d, states, b).value + rest)
            == match DeliverBundle(compressors, d, states, b)
               case None => None
               case Some(delivered) => Some((delivered, rest))
  {
    CompressorsAgree(compressors, expanders, d, states, later);
    Framing.BundleReads(Writing(compressors, d, states), Reading(expanders, d, later),
                        Delivering(compressors, d, states), b, rest);
  }

  /** An operation arrives as it was sent exactly when it refers to no registered zero entry and,
      if it fell to the ERC20 compressor, sends no ether with a regular action. */
  predicate Intact(compressors: seq<Compressor>, d: Deployment, r: Registries, key: PublicKey, op: Operation) {
    match Choose(compressors, d, r, key, op)
    case None => false
    case Some((_, kind)) =>
      && ResolvesWith(kind, d, r, key, op)
      && (kind.Erc20? ==> forall a :: a in OperationStream.RegularActions(d, op.actions) ==> a.ethValue == 0)
  }

  lemma DeliverKeeps(compressors: seq<Compressor>, d: Deployment, r: Registries, key: PublicKey, op: Operation)
    ensures Deliver(compressors, d, r, key, op) == Some(op) <==> Intact(compressors, d, r, key, op)
  {
    var chosen := Choose(compressors, d, r, key, op);
    if chosen.Some? && !chosen.value.1.Registration? {
      var style := StyleOf(chosen.value.1);
      var regular := OperationStream.RegularActions(d, op.actions);
      var delivered := OperationStream.DeliveredAll(style, regular);
      assert op.actions == regular + op.actions[|regular|..];
      assert (delivered + op.actions[|regular|..])[..|regular|] == delivered;
      OperationRoundTrip.DeliveredIsSame(style, regular);
    }
  }

  ghost predicate AllIntact(compressors: seq<Compressor>, d: Deployment, states: seq<Registries>, b: Bundle)
    requires Paired(b) && |states| == |b.operations|
  {
    forall i :: 0 <= i < |b.operations| ==>
      Intact(compressors, d, states[i], b.senderPublicKeys[i], b.operations[i])
  }

  lemma DeliverBundleKeeps(compressors: seq<Compressor>, d: Deployment, states: seq<Registries>, b: Bundle)
    requires Paired(b) && |states| == |b.operations|
    ensures DeliverBundle(compressors, d, states, b) == Some(b) <==> AllIntact(compressors, d, states, b)
  {
    var deliver := Delivering(compressors, d, states);
    Framing.DeliverBundleKeeps(deliver, b);
    forall i | 0 <= i < |b.operations|
      ensures Framing.Kept(deliver, i, b.senderPublicKeys[i], b.operations[i]) <==>
              Intact(compressors, d, states[i], b.senderPublicKeys[i], b.operations[i])
    {
      DeliverKeeps(compressors, d, states[i], b.senderPublicKeys[i], b.operations[i]);
    }
  }

  /** The round trip, exactly: the contract gets the very bundle that was compressed, and a reader
      guided by the count gets it and the rest of any longer stream, if and only if every operation
      is intact. */
  lemma BundleRoundTrip(compressors: seq<Compressor>, expanders: Expanders, d: Deployment, states: seq<Registries>,
                        later: Registries, b: Bundle, rest: seq<Byte>)
    requires Consistent(compressors, expanders) && AllGrow(states, later)
    requires |states| == |b.operations| < TWO_256
    requires BundleBytes(compressors, d, states, b).Some?
    ensures Run(expanders, d, later, BundleBytes(compressors, d, states, b).value) == Some(b) <==>
            AllIntact(compressors, d, states, b)
    ensures Framing.ReadBundle(Reading(expanders, d, later), BundleBytes(compressors, d, states, b).value + rest)
            == Some((b, rest)) <==>
            AllIntact(compressors, d, states, b)
  {
    RunReads(compressors, expanders, d, states, later, b);
    BundleReads(compressors, expanders, d, states, later, b, rest);
    DeliverBundleKeeps(compressors, d, states, b);
  }

  // ---- The client as it runs ----

  class BundleCompressor {
    const deployment: Deployment
    const blsPublicKeyRegistry: RegistryWrapper<PublicKey>
    const addressRegistry: RegistryWrapper<Address>
    var compressors: seq<Compressor>

    constructor (deployment: Deployment, keys: RegistryWrapper<PublicKey>,
                 addresses: RegistryWrapper<Address>)
      ensures this.deployment == deployment && compressors == []
      ensures blsPublicKeyRegistry == keys && addressRegistry == addresses
    {
      this.deployment := deployment;
      blsPublicKeyRegistry := keys;
      addressRegistry := addresses;
      compressors := [];
    }

    function Snapshot(): Registries
      reads blsPublicKeyRegistry, addressRegistry
    {
      Registries(blsPublicKeyRegistry.entries, addressRegistry.entries)
    }

    /** Takes the id of the expander's first registration; throws when there is none. The list
        stays consistent with the delegator. */
    method AddCompressor(kind: Expander, registered: Expanders) returns (ok: bool)
      modifies this
      ensures ok <==> kind in registered
      ensures if ok then
                exists id: nat | id < |registered| :: registered[id] == kind && kind !in registered[..id]
                  && compressors == old(compressors) + [(id, kind)]
              else compressors == old(compressors)
      ensures old(Consistent(compressors, registered)) ==> Consistent(compressors, registered)
    {
      for id := 0 to |registered|
        invariant kind !in registered[..id]
      {
        if registered[id] == kind {
          compressors := compressors + [(id, kind)];
          return true;
        }
      }
      return false;
    }

    /** Tries the compressors in the order they were added. */
    method CompressOperation(blsPublicKey: PublicKey, operation: Operation) returns (data: Option<seq<Byte>>)
      ensures data == OperationBytes(compressors, deployment, Snapshot(), blsPublicKey, operation)
      ensures data.Some? ==>
                exists i: nat :: FirstAccepts(compressors, deployment, Snapshot(), blsPublicKey, operation, i)
                                 && data.value == Vlq.Encode(compressors[i].0)
                                                  + CompressWith(compressors[i].1, deployment, Snapshot(), blsPublicKey,
                                                                 operation).value
      ensures data.None? ==>
                forall c :: c in compressors ==>
                  CompressWith(c.1, deployment, Snapshot(), blsPublicKey, operation).None?
    {
      OperationBytesFound(compressors, deployment, Snapshot(), blsPublicKey, operation);
      ghost var spec := Choose(compressors, deployment, Snapshot(), blsPublicKey, operation);
      for i := 0 to |compressors|
        invariant spec == Choose(compressors[i..], deployment, Snapshot(), blsPublicKey, operation)
      {
        assert compressors[i..][1..] == compressors[i + 1..];
        var (expanderIndex, kind) := compressors[i];
        var body: Option<seq<Byte>>;
        if kind.Registration? {
          body := Registration.Compress(deployment, blsPublicKey, operation);
        } else {
          var compressor := new Compressors.StreamCompressor(StyleOf(kind), deployment, blsPublicKeyRegistry,
                                                             addressRegistry);
          body := compressor.Compress(blsPublicKey, operation);
        }
        if body.Some? {
          var index := Vlq.EncodeVLQ(expanderIndex);
          return Some(index + body.value);
        }
      }
      return None;
    }

    /** What others register while the bundle is being compressed. */
    method Arrive(others: Arrivals)
      modifies blsPublicKeyRegistry, addressRegistry
      ensures Grows(old(Snapshot()), Snapshot())
    {
      for i := 0 to |others.keys|
        invariant Grows(old(Snapshot()), Snapshot())
      {
        var _ := blsPublicKeyRegistry.Register(others.keys[i]);
      }
      for i := 0 to |others.addresses|
        invariant Grows(old(Snapshot()), Snapshot())
      {
        var _ := addressRegistry.Register(others.addresses[i]);
      }
    }

    /** The operations one by one, joined; before each, others may register entries. */
    method CompressOperations(keys: seq<PublicKey>, ops: seq<Operation>, others: seq<Arrivals>)
      returns (data: Option<seq<Byte>>, ghost states: seq<Registries>)
      requires |keys| == |ops| == |others|
      modifies blsPublicKeyRegistry, addressRegistry
      ensures |states| == |ops| && AllBetween(old(Snapshot()), states, Snapshot())
      ensures data == Framing.WriteAll(Writing(compressors, deployment, states), 0, keys, ops)
    {
      data, states := Some([]), [];
      for i := 0 to |ops|
        invariant |states| == i && AllBetween(old(Snapshot()), states, Snapshot())
        invariant Grows(old(Snapshot()), Snapshot())
        invariant data == Framing.WriteAll(Writing(compressors, deployment, states), 0, keys[..i], ops[..i])
      {
        Arrive(others[i]);
        var encoded := CompressOperation(keys[i], ops[i]);
        OneMore(compressors, deployment, states, Snapshot(), keys, ops, i);
        states := states + [Snapshot()];
        data := if data.Some? && encoded.Some? then Some(data.value + encoded.value) else None;
      }
      assert keys[..|ops|] == keys && ops[..|ops|] == ops;
    }

    /** None where the numbers of keys and operations differ or some operation is refused by every
        compressor. */
    method Compress(b: Bundle, others: seq<Arrivals>) returns (data: Option<seq<Byte>>, ghost states: seq<Registries>)
      requires |others| == |b.operations|
      modifies blsPublicKeyRegistry, addressRegistry
      ensures AllBetween(old(Snapshot()), states, Snapshot())
      ensures Paired(b) ==> |states| == |b.operations|
      ensures data == BundleBytes(compressors, deployment, states, b)
    {
      if |b.senderPublicKeys| != |b.operations| {
        return None, [];
      }
      var compressedOperations;
      compressedOperations, states := CompressOperations(b.senderPublicKeys, b.operations, others);
      if compressedOperations.None? {
        return None, states;
      }
      var count := Vlq.EncodeVLQ(|b.operations|);
      data := Some(count + compressedOperations.value + EncodeWords(b.signature));
    }
  }

  datatype Arrivals = Arrivals(keys: seq<PublicKey>, addresses: seq<Address>)

  ghost predicate AllBetween(first: Registries, states: seq<Registries>, last: Registries) {
    forall i :: 0 <= i < |states| ==> Grows(first, states[i]) && Grows(states[i], last)
  }

  lemma OneMore(compressors: seq<Compressor>, d: Deployment, states: seq<Registries>, r: Registries,
                keys: seq<PublicKey>, ops: seq<Operation>, i: nat)
    requires |keys| == |ops| && i < |ops| && |states| == i
    ensures var before := Framing.WriteAll(Writing(compressors, d, states), 0, keys[..i], ops[..i]);
            var own := OperationBytes(compressors, d, r, keys[i], ops[i]);
            Framing.WriteAll(Writing(compressors, d, states + [r]), 0, keys[..i + 1], ops[..i + 1])
            == if before.Some? && own.Some? then Some(before.value + own.value) else None
  {
    var write, more := Writing(compressors, d, states), Writing(compressors, d, states + [r]);
    assert keys[..i + 1] == keys[..i] + [keys[i]] && ops[..i + 1] == ops[..i] + [ops[i]];
    Framing.WriteAllSnoc(more, 0, keys[..i], ops[..i], keys[i], ops[i]);
    WritingMore(compressors, d, states, r);
    Framing.WriteAllSame(write, more, 0, keys[..i], ops[..i]);
  }

  /** A further state changes nothing for the operations before it. */
  lemma WritingMore(compressors: seq<Compressor>, d: Deployment, states: seq<Registries>, r: Registries)
    ensures var write, more := Writing(compressors, d, states), Writing(compressors, d, states + [r]);
            && (forall k: nat, key, op {:trigger more(k, key, op)} ::
                  k < |states| ==> write(k, key, op) == more(k, key, op))
            && forall key, op {:trigger more(|states|, key, op)} ::
                 more(|states|, key, op) == OperationBytes(compressors, d, r, key, op)
  {
    assert forall k: nat :: k < |states| ==> (states + [r])[k] == states[k];
  }
}
