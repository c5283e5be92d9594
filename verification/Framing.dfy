/** How a bundle is framed: the client's layout (BundleCompressor.ts, `compress`) and the contract's
    reading of it (BLSExpanderDelegator.sol), for any way of writing and reading one operation. */
module Framing {
  import opened Wrappers
  import opened Bytes
  import opened Operations
  import Vlq

  /** One operation: from the stream, into bytes, and what arrives of it; None where the client
      throws or the contract reverts. Writing may depend on the operation's place in the bundle. */
  type Reader = seq<Byte> -> Option<(PublicKey, Operation, seq<Byte>)>
  type Writer = (nat, PublicKey, Operation) -> Option<seq<Byte>>
  type Delivery = (nat, PublicKey, Operation) -> Option<Operation>

  /** Reading an operation takes at least a byte. */
  ghost predicate Consumes(read: Reader) {
    forall s :: read(s).Some? ==> |read(s).value.2| < |s|
  }

  /** What was written is read as what is delivered, up to its end. */
  ghost predicate Agree(write: Writer, read: Reader, deliver: Delivery) {
    forall i: nat, key: PublicKey, op: Operation, stream: seq<Byte> {:trigger read(write(i, key, op).value + stream)} ::
      write(i, key, op).Some? ==>
        && write(i, key, op).value != []
        && read(write(i, key, op).value + stream)
           == match deliver(i, key, op)
              case None => None
              case Some(delivered) => Some((key, delivered, stream))
  }

  // ---- The client ----

  /** The operations from the i-th on. */
  function WriteAll(write: Writer, i: nat, keys: seq<PublicKey>, ops: seq<Operation>): Option<seq<Byte>>
    requires |keys| == |ops|
    decreases |ops|
  {
    if ops == [] then Some([])
    else
      var first :- write(i, keys[0], ops[0]);
      var others :- WriteAll(write, i + 1, keys[1..], ops[1..]);
      Some(first + others)
  }

  lemma {:induction false} WriteAllSnoc(write: Writer, i: nat, keys: seq<PublicKey>, ops: seq<Operation>,
                                        key: PublicKey, op: Operation)
    requires |keys| == |ops|
    ensures var before, own := WriteAll(write, i, keys, ops), write(i + |ops|, key, op);
            WriteAll(write, i, keys + [key], ops + [op])
            == if before.Some? && own.Some? then Some(before.value + own.value) else None
    decreases |ops|
  {
    if ops == [] {
      assert keys + [key] == [key] && ops + [op] == [op];
      assert [key][1..] == [] && [op][1..] == [];
      assert WriteAll(write, i + 1, [], []) == Some([]);
      if write(i, key, op).Some? {
        assert write(i, key, op).value + [] == [] + write(i, key, op).value;
      }
    } else {
      assert (keys + [key])[1..] == keys[1..] + [key] && (ops + [op])[1..] == ops[1..] + [op];
      WriteAllSnoc(write, i + 1, keys[1..], ops[1..], key, op);
      var first, others := write(i, keys[0], ops[0]), WriteAll(write, i + 1, keys[1..], ops[1..]);
      var own := write(i + |ops|, key, op);
      if first.Some? && others.Some? && own.Some? {
        assert (first.value + others.value) + own.value == first.value + (others.value + own.value);
      }
    }
  }

  lemma {:induction false} WriteAllSame(a: Writer, b: Writer, i: nat, keys: seq<PublicKey>, ops: seq<Operation>)
    requires |keys| == |ops|
    requires forall k: nat, key, op {:trigger b(k, key, op)} :: k < i + |ops| ==> a(k, key, op) == b(k, key, op)
    ensures WriteAll(a, i, keys, ops) == WriteAll(b, i, keys, ops)
    decreases |ops|
  {
    if ops == [] {
    } else {
      WriteAllSame(a, b, i + 1, keys[1..], ops[1..]);
    }
  }

  /** None also where the client's assertion of equal lengths fails. */
  function WriteBundle(write: Writer, b: Bundle): Option<seq<Byte>> {
    if |b.senderPublicKeys| != |b.operations| then None
    else
      var ops :- WriteAll(write, 0, b.senderPublicKeys, b.operations);
      Some(Vlq.Encode(|b.operations|) + ops + EncodeWords(b.signature))
  }

  // ---- The contract ----

  /** One round of the delegator's loop: which expander, then the operation. */
  function Dispatch<T>(expanders: seq<T>, expand: T -> Reader, stream: seq<Byte>)
    : Option<(PublicKey, Operation, seq<Byte>)>
  {
    var (expanderIndex, s) :- Vlq.Decode(stream);
    if expanderIndex >= |expanders| then None  // expander not found
    else expand(expanders[expanderIndex])(s)
  }

  lemma DispatchReads<T>(expanders: seq<T>, expand: T -> Reader, index: nat, body: seq<Byte>, stream: seq<Byte>)
    requires index < TWO_256
    ensures Dispatch(expanders, expand, (Vlq.Encode(index) + body) + stream)
            == if index < |expanders| then expand(expanders[index])(body + stream) else None
  {
    assert (Vlq.Encode(index) + body) + stream == Vlq.Encode(index) + (body + stream);
    Vlq.WordRoundTrip(index, body + stream);
  }

  function EmptySlots(slots: nat): (r: (seq<PublicKey>, seq<Operation>))
    ensures |r.0| == |r.1| == slots
  {
    (seq(slots, _ => ZERO_KEY), seq(slots, _ => Operation(0, 0, [])))
  }

  /** Operations until the stream is used up; writing past the announced count reverts and slots
      never written keep their zero values. */
  function ReadAll(read: Reader, stream: seq<Byte>, slots: nat): (result: Option<(seq<PublicKey>, seq<Operation>)>)
    requires Consumes(read)
    ensures result.Some? ==> |result.value.0| == |result.value.1| == slots
    decreases |stream|
  {
    if stream == [] then Some(EmptySlots(slots))
    else
      var (key, op, rest) :- read(stream);
      if slots == 0 then None
      else
        var (keys, ops) :- ReadAll(read, rest, slots - 1);
        Some(([key] + keys, [op] + ops))
  }

  /** `run` up to the call of the gateway: the last 64 bytes are the signature. */
  function Run(read: Reader, stream: seq<Byte>): Option<Bundle>
    requires Consumes(read)
  {
    if |stream| < 64 then None
    else
      var signature := DecodeWords(stream[|stream| - 64..], 2);
      var (count, s) :- Vlq.Decode(stream[..|stream| - 64]);
      var (keys, ops) :- ReadAll(read, s, count);
      Some(Bundle(keys, ops, signature))
  }

  /** A reader guided by the count alone, which therefore leaves what follows the bundle. */
  function ReadSome(read: Reader, stream: seq<Byte>, count: nat)
    : (result: Option<(seq<PublicKey>, seq<Operation>, seq<Byte>)>)
    ensures result.Some? ==> |result.value.0| == |result.value.1| == count
    decreases count
  {
    if count == 0 then Some(([], [], stream))
    else
      var (key, op, s) :- read(stream);
      var (keys, ops, rest) :- ReadSome(read, s, count - 1);
      Some(([key] + keys, [op] + ops, rest))
  }

  function ReadSignature(stream: seq<Byte>): Option<(Signature, seq<Byte>)> {
    if |stream| < 64 then None else Some((DecodeWords(stream[..64], 2), stream[64..]))
  }

  function ReadBundle(read: Reader, stream: seq<Byte>): Option<(Bundle, seq<Byte>)> {
    var (count, s) :- Vlq.Decode(stream);
    var (keys, ops, rest) :- ReadSome(read, s, count);
    var (signature, after) :- ReadSignature(rest);
    Some((Bundle(keys, ops, signature), after))
  }

  // ---- What arrives ----

  function DeliverAll(deliver: Delivery, i: nat, keys: seq<PublicKey>, ops: seq<Operation>)
    : (result: Option<seq<Operation>>)
    requires |keys| == |ops|
    ensures result.Some? ==> |result.value| == |ops|
    decreases |ops|
  {
    if ops == [] then Some([])
    else
      var first :- deliver(i, keys[0], ops[0]);
      var others :- DeliverAll(deliver, i + 1, keys[1..], ops[1..]);
      Some([first] + others)
  }

  function DeliverBundle(deliver: Delivery, b: Bundle): Option<Bundle>
    requires |b.senderPublicKeys| == |b.operations|
  {
    var ops :- DeliverAll(deliver, 0, b.senderPublicKeys, b.operations);
    Some(b.(operations := ops))
  }

  lemma {:induction false} SomeRead(write: Writer, read: Reader, deliver: Delivery, i: nat, keys: seq<PublicKey>,
                                    ops: seq<Operation>, data: seq<Byte>, stream: seq<Byte>)
    requires Agree(write, read, deliver)
    requires |keys| == |ops| && WriteAll(write, i, keys, ops) == Some(data)
    ensures ReadSome(read, data + stream, |ops|)
            == match DeliverAll(deliver, i, keys, ops)
               case None => None
               case Some(delivered) => Some((keys, delivered, stream))
    decreases |ops|
  {
    if ops == [] {
      assert [] + stream == stream;
    } else {
      var first := write(i, keys[0], ops[0]).value;
      var others := WriteAll(write, i + 1, keys[1..], ops[1..]).value;
      assert data + stream == first + (others + stream);
      SomeRead(write, read, deliver, i + 1, keys[1..], ops[1..], others, stream);
      assert keys == [keys[0]] + keys[1..];
    }
  }

  lemma SlotsAppended<T>(first: T, others: seq<T>, slots: seq<T>)
    ensures ([first] + others) + slots == [first] + (others + slots)
  {
  }

  lemma {:induction false} AllRead(write: Writer, read: Reader, deliver: Delivery, i: nat, keys: seq<PublicKey>,
                                   ops: seq<Operation>, data: seq<Byte>, slots: nat)
    requires Agree(write, read, deliver) && Consumes(read)
    requires |keys| == |ops| && WriteAll(write, i, keys, ops) == Some(data)
    ensures ReadAll(read, data, slots)
            == match DeliverAll(deliver, i, keys, ops)
               case None => None
               case Some(delivered) =>
                 if slots < |ops| then None
                 else
                   var (noKeys, noOperations) := EmptySlots(slots - |ops|);
                   Some((keys + noKeys, delivered + noOperations))
    decreases |ops|
  {
    if ops == [] {
      assert [] + EmptySlots(slots).0 == EmptySlots(slots).0 && [] + EmptySlots(slots).1 == EmptySlots(slots).1;
    } else {
      var first := write(i, keys[0], ops[0]).value;
      var others := WriteAll(write, i + 1, keys[1..], ops[1..]).value;
      assert data == first + others;
      assert read(first + others) == read(data);
      if slots > 0 {
        AllRead(write, read, deliver, i + 1, keys[1..], ops[1..], others, slots - 1);
        assert keys == [keys[0]] + keys[1..];
        var delivered := DeliverAll(deliver, i, keys, ops);
        if slots >= |ops| && delivered.Some? {
          SlotsAppended(delivered.value[0], delivered.value[1..], EmptySlots(slots - |ops|).1);
          SlotsAppended(keys[0], keys[1..], EmptySlots(slots - |ops|).0);
        }
      }
    }
  }

  ghost predicate Kept(deliver: Delivery, i: nat, key: PublicKey, op: Operation) {
    deliver(i, key, op) == Some(op)
  }

  ghost predicate AllKept(deliver: Delivery, i: nat, keys: seq<PublicKey>, ops: seq<Operation>)
    requires |keys| == |ops|
    decreases |ops|
  {
    ops == [] || (Kept(deliver, i, keys[0], ops[0]) && AllKept(deliver, i + 1, keys[1..], ops[1..]))
  }

  lemma {:induction false} DeliverAllKeeps(deliver: Delivery, i: nat, keys: seq<PublicKey>, ops: seq<Operation>)
    requires |keys| == |ops|
    ensures DeliverAll(deliver, i, keys, ops) == Some(ops) <==> AllKept(deliver, i, keys, ops)
    decreases |ops|
  {
    if ops == [] {
    } else {
      DeliverAllKeeps(deliver, i + 1, keys[1..], ops[1..]);
      assert ops == [ops[0]] + ops[1..];
    }
  }

  lemma {:induction false} AllKeptMeans(deliver: Delivery, i: nat, keys: seq<PublicKey>, ops: seq<Operation>)
    requires |keys| == |ops|
    ensures AllKept(deliver, i, keys, ops) <==> forall k :: 0 <= k < |ops| ==> Kept(deliver, i + k, keys[k], ops[k])
    decreases |ops|
  {
    if ops == [] {
    } else {
      AllKeptMeans(deliver, i + 1, keys[1..], ops[1..]);
      forall k | 0 <= k < |ops[1..]|
        ensures Kept(deliver, i + 1 + k, keys[1..][k], ops[1..][k]) <==>
                Kept(deliver, i + (k + 1), keys[k + 1], ops[k + 1])
      {
      }
      assert forall k :: 0 < k < |ops| ==> (Kept(deliver, i + k, keys[k], ops[k]) <==>
          Kept(deliver, i + 1 + (k - 1), keys[1..][k - 1], ops[1..][k - 1]));
    }
  }

  /** Which bundles arrive as they were sent. */
  lemma DeliverBundleKeeps(deliver: Delivery, b: Bundle)
    requires Paired(b)
    ensures DeliverBundle(deliver, b) == Some(b) <==>
            forall k :: 0 <= k < |b.operations| ==> Kept(deliver, k, b.senderPublicKeys[k], b.operations[k])
  {
    DeliverAllKeeps(deliver, 0, b.senderPublicKeys, b.operations);
    AllKeptMeans(deliver, 0, b.senderPublicKeys, b.operations);
    assert forall k :: 0 <= k < |b.operations| ==>
        (Kept(deliver, 0 + k, b.senderPublicKeys[k], b.operations[k]) <==>
         Kept(deliver, k, b.senderPublicKeys[k], b.operations[k]));
  }

  lemma NoSlots(b: (seq<PublicKey>, seq<Operation>))
    ensures b.0 + EmptySlots(0).0 == b.0 && b.1 + EmptySlots(0).1 == b.1
  {
  }

  /** The contract runs the framed bundle on exactly what is delivered of it. */
  lemma RunReads(write: Writer, read: Reader, deliver: Delivery, b: Bundle)
    requires Agree(write, read, deliver) && Consumes(read)
    requires |b.operations| < TWO_256
    requires WriteBundle(write, b).Some?
    ensures Run(read, WriteBundle(write, b).value) == DeliverBundle(deliver, b)
  {
    var ops := WriteAll(write, 0, b.senderPublicKeys, b.operations).value;
    var head, signature := Vlq.Encode(|b.operations|), EncodeWords(b.signature);
    var stream := head + ops + signature;
    assert stream[|stream| - 64..] == signature && stream[..|stream| - 64] == head + ops;
    WordsRoundTrip(b.signature);
    Vlq.WordRoundTrip(|b.operations|, ops);
    AllRead(write, read, deliver, 0, b.senderPublicKeys, b.operations, ops, |b.operations|);
    var delivered := DeliverAll(deliver, 0, b.senderPublicKeys, b.operations);
    if delivered.Some? {
      NoSlots((b.senderPublicKeys, delivered.value));
    }
  }

  lemma SignatureReads(signature: Signature, rest: seq<Byte>)
    ensures ReadSignature(EncodeWords(signature) + rest) == Some((signature, rest))
  {
    var s := EncodeWords(signature);
    assert (s + rest)[..64] == s && (s + rest)[64..] == rest;
    WordsRoundTrip(signature);
  }

  /** The frame delimits itself: reading by the count leaves exactly what followed the bundle. */
  lemma BundleReads(write: Writer, read: Reader, deliver: Delivery, b: Bundle, rest: seq<Byte>)
    requires Agree(write, read, deliver)
    requires |b.operations| < TWO_256
    requires WriteBundle(write, b).Some?
    ensures ReadBundle(read, WriteBundle(write, b).value + rest)
            == match DeliverBundle(deliver, b)
               case None => None
               case Some(delivered) => Some((delivered, rest))
  {
    var ops := WriteAll(write, 0, b.senderPublicKeys, b.operations).value;
    var head, signature := Vlq.Encode(|b.operations|), EncodeWords(b.signature);
    assert (head + ops + signature) + rest == head + (ops + (signature + rest));
    Vlq.WordRoundTrip(|b.operations|, ops + (signature + rest));
    SomeRead(write, read, deliver, 0, b.senderPublicKeys, b.operations, ops, signature + rest);
    SignatureReads(b.signature, rest);
  }
}
