/** Reading back what OperationStream writes, against any later state of the registries. Each
    lemma says exactly what the contract makes of a chunk followed by more of both channels. */
module OperationRoundTrip {
  import opened Wrappers
  import opened Bytes
  import opened Operations
  import opened Registry
  import opened Erc20Call
  import opened OperationStream
  import Vlq
  import PseudoFloat
  import RegIndex
  import BitStream

  /** The two channels as the contract sees them after a chunk has been put in front. */
  function After(chunk: Chunk, bits: seq<bool>, stream: seq<Byte>): Cursor {
    Cursor(BitStream.LittleEndian(chunk.bits + bits), chunk.bytes + stream)
  }

  function At(bits: seq<bool>, stream: seq<Byte>): Cursor {
    Cursor(BitStream.LittleEndian(bits), stream)
  }

  lemma JoinAssociates(a: Chunk, b: Chunk, bits: seq<bool>, stream: seq<Byte>)
    ensures After(Join(a, b), bits, stream) == After(a, b.bits + bits, b.bytes + stream)
  {
    assert (a.bits + b.bits) + bits == a.bits + (b.bits + bits);
    assert (a.bytes + b.bytes) + stream == a.bytes + (b.bytes + stream);
  }

  lemma IndexResolves<T>(earlier: Entries<T>, later: Entries<T>, zero: T, x: T, bits: seq<bool>, stream: seq<Byte>)
    requires earlier <= later && x in earlier
    ensures var id := ReverseLookup(earlier, x).value;
            && RegIndex.Decode(RegIndex.Encode(id) + stream) == Some((id, stream))
            && Lookup(later, zero, id) == (if Resolves(earlier, zero, x) then Some(x) else None)
  {
    RegIndex.WordRoundTrip(ReverseLookup(earlier, x).value, stream);
    GrowthIsHarmless(earlier, later, zero, x);
  }

  lemma AddressReads(earlier: Entries<Address>, later: Entries<Address>, a: Address, bits: seq<bool>,
                     stream: seq<Byte>)
    requires earlier <= later
    ensures ExpandAddress(later, After(AddressChunk(earlier, a), bits, stream))
            == if Resolves(earlier, ZERO_ADDRESS, a) then Some((a, At(bits, stream))) else None
  {
    BitStream.PushPop(a in earlier, bits);
    if a in earlier {
      IndexResolves(earlier, later, ZERO_ADDRESS, a, bits, stream);
    } else {
      assert (a + stream)[..20] == a && (a + stream)[20..] == stream;
    }
  }

  lemma KeyReads(earlier: Entries<PublicKey>, later: Entries<PublicKey>, key: PublicKey, bits: seq<bool>,
                 stream: seq<Byte>)
    requires earlier <= later
    ensures ExpandKey(later, After(KeyChunk(earlier, key), bits, stream))
            == if Resolves(earlier, ZERO_KEY, key) then Some((key, At(bits, stream))) else None
  {
    BitStream.PushPop(key in earlier, bits);
    if key in earlier {
      IndexResolves(earlier, later, ZERO_KEY, key, bits, stream);
    } else {
      var words := EncodeWords(key);
      assert (words + stream)[..128] == words && (words + stream)[128..] == stream;
      WordsRoundTrip(key);
    }
  }

  lemma ValueReads(value: Word, bits: seq<bool>, stream: seq<Byte>)
    ensures ExpandValue(After(Chunk([], PseudoFloat.Encode(value)), bits, stream))
            == Some((value, At(bits, stream)))
  {
    PseudoFloat.RoundTrip(value, stream);
    assert [] + bits == bits;
  }

  lemma VlqReads(value: Word, bits: seq<bool>, stream: seq<Byte>)
    ensures ExpandVlq(After(Chunk([], Vlq.Encode(value)), bits, stream)) == Some((value, At(bits, stream)))
  {
    Vlq.WordRoundTrip(value, stream);
    assert [] + bits == bits;
  }

  /** An address followed by a pseudo-float, the tail of most calls. */
  lemma AddressAndValueRead(earlier: Entries<Address>, later: Entries<Address>, a: Address, value: Word,
                            bits: seq<bool>, stream: seq<Byte>)
    requires earlier <= later
    ensures var tail := Chunk([], PseudoFloat.Encode(value));
            var c := After(Join(AddressChunk(earlier, a), tail), bits, stream);
            if Resolves(earlier, ZERO_ADDRESS, a)
            then ExpandAddress(later, c) == Some((a, After(tail, bits, stream)))
                 && ExpandValue(After(tail, bits, stream)) == Some((value, At(bits, stream)))
            else ExpandAddress(later, c) == None
  {
    var tail := Chunk([], PseudoFloat.Encode(value));
    JoinAssociates(AddressChunk(earlier, a), tail, bits, stream);
    AddressReads(earlier, later, a, tail.bits + bits, tail.bytes + stream);
    ValueReads(value, bits, stream);
  }

  lemma CodeReads(code: Word, arguments: Chunk, bits: seq<bool>, stream: seq<Byte>)
    ensures ExpandVlq(After(Join(Chunk([], Vlq.Encode(code)), arguments), bits, stream))
            == Some((code, After(arguments, bits, stream)))
  {
    JoinAssociates(Chunk([], Vlq.Encode(code)), arguments, bits, stream);
    VlqReads(code, arguments.bits + bits, arguments.bytes + stream);
  }

  /** The contract's answer to a call chunk: the calldata byte for byte, or a revert. */
  predicate CallReadsAs(earlier: Entries<Address>, later: Entries<Address>, call: Call, bits: seq<bool>,
                        stream: seq<Byte>) {
    ExpandCall(later, After(CallChunk(earlier, call), bits, stream))
    == if CallResolves(earlier, call) then Some((Erc20Call.Encode(call), At(bits, stream))) else None
  }

  lemma TransferReads(earlier: Entries<Address>, later: Entries<Address>, to: Address, value: Word,
                      bits: seq<bool>, stream: seq<Byte>)
    requires earlier <= later
    ensures CallReadsAs(earlier, later, Transfer(to, value), bits, stream)
  {
    CodeReads(0, Join(AddressChunk(earlier, to), Chunk([], PseudoFloat.Encode(value))), bits, stream);
    AddressAndValueRead(earlier, later, to, value, bits, stream);
  }

  lemma TransferFromReads(earlier: Entries<Address>, later: Entries<Address>, from: Address, to: Address,
                          value: Word, bits: seq<bool>, stream: seq<Byte>)
    requires earlier <= later
    ensures CallReadsAs(earlier, later, TransferFrom(from, to, value), bits, stream)
  {
    var tail := Join(AddressChunk(earlier, to), Chunk([], PseudoFloat.Encode(value)));
    CodeReads(1, Join(AddressChunk(earlier, from), tail), bits, stream);
    JoinAssociates(AddressChunk(earlier, from), tail, bits, stream);
    AddressReads(earlier, later, from, tail.bits + bits, tail.bytes + stream);
    AddressAndValueRead(earlier, later, to, value, bits, stream);
  }

  lemma ApproveReads(earlier: Entries<Address>, later: Entries<Address>, spender: Address, value: Word,
                     bits: seq<bool>, stream: seq<Byte>)
    requires earlier <= later
    ensures CallReadsAs(earlier, later, Approve(spender, value), bits, stream)
  {
    if value == MAX_UINT256 {
      CodeReads(3, AddressChunk(earlier, spender), bits, stream);
      AddressReads(earlier, later, spender, bits, stream);
    } else {
      CodeReads(2, Join(AddressChunk(earlier, spender), Chunk([], PseudoFloat.Encode(value))), bits, stream);
      AddressAndValueRead(earlier, later, spender, value, bits, stream);
    }
  }

  lemma MintReads(earlier: Entries<Address>, later: Entries<Address>, to: Address, value: Word,
                  bits: seq<bool>, stream: seq<Byte>)
    requires earlier <= later
    ensures CallReadsAs(earlier, later, Mint(to, value), bits, stream)
  {
    CodeReads(4, Join(AddressChunk(earlier, to), Chunk([], PseudoFloat.Encode(value))), bits, stream);
    AddressAndValueRead(earlier, later, to, value, bits, stream);
  }

  /** The contract rebuilds the calldata of every call, taking its bits in the order pushed. */
  lemma CallReads(earlier: Entries<Address>, later: Entries<Address>, call: Call, bits: seq<bool>,
                  stream: seq<Byte>)
    requires earlier <= later
    ensures CallReadsAs(earlier, later, call, bits, stream)
  {
    match call
    case Transfer(to, value) => TransferReads(earlier, later, to, value, bits, stream);
    case TransferFrom(from, to, value) => TransferFromReads(earlier, later, from, to, value, bits, stream);
    case Approve(spender, value) => ApproveReads(earlier, later, spender, value, bits, stream);
    case Mint(to, value) => MintReads(earlier, later, to, value, bits, stream);
  }

  lemma Erc20ActionReads(earlier: Entries<Address>, later: Entries<Address>, action: ActionData,
                         bits: seq<bool>, stream: seq<Byte>)
    requires earlier <= later && ActionChunk(Erc20, earlier, action).Some?
    ensures ExpandAction(Erc20, later, After(ActionChunk(Erc20, earlier, action).value, bits, stream))
            == if ActionResolves(Erc20, earlier, action) then Some((Delivered(Erc20, action), At(bits, stream)))
               else None
  {
    var call := Parse(action.encodedFunction).value;
    ParseIsInverseOfEncode(action.encodedFunction, call);
    var tail := CallChunk(earlier, call);
    JoinAssociates(AddressChunk(earlier, action.contractAddress), tail, bits, stream);
    AddressReads(earlier, later, action.contractAddress, tail.bits + bits, tail.bytes + stream);
    CallReads(earlier, later, call, bits, stream);
  }

  lemma DataReads(data: Calldata, bits: seq<bool>, stream: seq<Byte>)
    ensures ExpandData(After(DataChunk(data), bits, stream)) == Some((data, At(bits, stream)))
  {
    VlqReads(|data|, bits, data + stream);
    assert (Vlq.Encode(|data|) + data) + stream == Vlq.Encode(|data|) + (data + stream);
    assert (data + stream)[..|data|] == data && (data + stream)[|data|..] == stream;
  }

  lemma FallbackActionReads(earlier: Entries<Address>, later: Entries<Address>, action: ActionData,
                            bits: seq<bool>, stream: seq<Byte>)
    requires earlier <= later
    ensures ExpandAction(Fallback, later, After(ActionChunk(Fallback, earlier, action).value, bits, stream))
            == if ActionResolves(Fallback, earlier, action) then Some((action, At(bits, stream))) else None
  {
    var value := Chunk([], PseudoFloat.Encode(action.ethValue));
    var address, data := AddressChunk(earlier, action.contractAddress), DataChunk(action.encodedFunction);
    JoinAssociates(value, Join(address, data), bits, stream);
    ValueReads(action.ethValue, Join(address, data).bits + bits, Join(address, data).bytes + stream);
    JoinAssociates(address, data, bits, stream);
    AddressReads(earlier, later, action.contractAddress, data.bits + bits, data.bytes + stream);
    DataReads(action.encodedFunction, bits, stream);
  }

  lemma ActionReads(style: Style, earlier: Entries<Address>, later: Entries<Address>, action: ActionData,
                    bits: seq<bool>, stream: seq<Byte>)
    requires earlier <= later && ActionChunk(style, earlier, action).Some?
    ensures ExpandAction(style, later, After(ActionChunk(style, earlier, action).value, bits, stream))
            == if ActionResolves(style, earlier, action) then Some((Delivered(style, action), At(bits, stream)))
               else None
  {
    match style
    case Erc20 => Erc20ActionReads(earlier, later, action, bits, stream);
    case Fallback => FallbackActionReads(earlier, later, action, bits, stream);
  }

  predicate AllResolve(style: Style, addresses: Entries<Address>, actions: seq<ActionData>) {
    forall a :: a in actions ==> ActionResolves(style, addresses, a)
  }

  lemma {:induction false} ActionsRead(style: Style, earlier: Entries<Address>, later: Entries<Address>,
                                       actions: seq<ActionData>, bits: seq<bool>, stream: seq<Byte>)
    requires earlier <= later && ActionsChunk(style, earlier, actions).Some?
    ensures ExpandActions(style, later, After(ActionsChunk(style, earlier, actions).value, bits, stream), |actions|)
            == if AllResolve(style, earlier, actions) then Some((DeliveredAll(style, actions), At(bits, stream)))
               else None
    decreases |actions|
  {
    if actions == [] {
      assert [] + bits == bits && [] + stream == stream;
    } else {
      var first := ActionChunk(style, earlier, actions[0]).value;
      var others := ActionsChunk(style, earlier, actions[1..]).value;
      var next := After(others, bits, stream);
      JoinAssociates(first, others, bits, stream);
      ActionReads(style, earlier, later, actions[0], others.bits + bits, others.bytes + stream);
      AllResolveStep(style, earlier, actions);
      if ActionResolves(style, earlier, actions[0]) {
        ActionsRead(style, earlier, later, actions[1..], bits, stream);
        assert ExpandAction(style, later, After(first, others.bits + bits, others.bytes + stream))
               == Some((Delivered(style, actions[0]), next));
      }
    }
  }

  lemma AllResolveStep(style: Style, addresses: Entries<Address>, actions: seq<ActionData>)
    requires actions != []
    ensures AllResolve(style, addresses, actions) <==>
            ActionResolves(style, addresses, actions[0]) && AllResolve(style, addresses, actions[1..])
  {
    assert forall a :: a in actions <==> a == actions[0] || a in actions[1..];
  }

  lemma HeadReads(earlier: Entries<PublicKey>, later: Entries<PublicKey>, key: PublicKey, op: Operation,
                  pays: bool, bits: seq<bool>, stream: seq<Byte>)
    requires earlier <= later
    ensures ExpandHead(later, After(HeadChunk(earlier, key, op, pays), bits, stream))
            == if Resolves(earlier, ZERO_KEY, key)
               then Some((Head(key, op.nonce, op.gas, |op.actions|, pays), At(bits, stream)))
               else None
  {
    var nonce, gas, count := Vlq.Encode(op.nonce), PseudoFloat.Encode(op.gas), Vlq.Encode(|op.actions|);
    var tail := Chunk([pays], nonce + (gas + count));
    var next := [pays] + bits;
    JoinAssociates(KeyChunk(earlier, key), tail, bits, stream);
    KeyReads(earlier, later, key, next, tail.bytes + stream);
    assert tail.bytes + stream == nonce + (gas + (count + stream));
    VlqReads(op.nonce, next, gas + (count + stream));
    ValueReads(op.gas, next, count + stream);
    VlqReads(|op.actions|, next, stream);
    assert [] + next == next;
    BitStream.PushPop(pays, bits);
  }

  lemma PaymentReads(deployment: Deployment, op: Operation, head: Head, actions: seq<ActionData>,
                     stream: seq<Byte>)
    requires head.pays == EndsWithPayment(deployment, op.actions) && head.count == |op.actions|
    requires |actions| == |RegularActions(deployment, op.actions)|
    ensures ExpandPayment(deployment, head, actions,
                          After(Chunk([], PaymentBytes(deployment, op.actions)), [], stream))
            == Some((head.key, Operation(head.nonce, head.gas, actions + op.actions[|actions|..]), stream))
  {
    if head.pays {
      ValueReads(op.actions[|op.actions| - 1].ethValue, [], stream);
      assert op.actions[|actions|..] == [op.actions[|op.actions| - 1]];
    } else {
      assert [] + stream == stream;
      assert actions + op.actions[|actions|..] == actions;
    }
  }

  lemma BodyReads(style: Style, deployment: Deployment, earlier: Entries<Address>, later: Entries<Address>,
                  key: PublicKey, op: Operation, actions: Chunk, stream: seq<Byte>)
    requires earlier <= later
    requires ActionsChunk(style, earlier, RegularActions(deployment, op.actions)) == Some(actions)
    ensures var payment := Chunk([], PaymentBytes(deployment, op.actions));
            var head := Head(key, op.nonce, op.gas, |op.actions|, EndsWithPayment(deployment, op.actions));
            ExpandBody(style, deployment, later, head, After(Join(actions, payment), [], stream))
            == if AllResolve(style, earlier, RegularActions(deployment, op.actions))
               then Some((key, DeliveredOperation(style, deployment, op), stream))
               else None
  {
    var regular := RegularActions(deployment, op.actions);
    var head := Head(key, op.nonce, op.gas, |op.actions|, EndsWithPayment(deployment, op.actions));
    var payment := Chunk([], PaymentBytes(deployment, op.actions));
    JoinAssociates(actions, payment, [], stream);
    ActionsRead(style, earlier, later, regular, payment.bits + [], payment.bytes + stream);
    PaymentReads(deployment, op, head, DeliveredAll(style, regular), stream);
  }

  lemma ChunkReads(style: Style, deployment: Deployment, earlier: Registries, later: Registries,
                   key: PublicKey, op: Operation, stream: seq<Byte>)
    requires Grows(earlier, later)
    requires OperationChunk(style, deployment, earlier, key, op).Some?
    ensures ExpandFrom(style, deployment, later,
                       After(OperationChunk(style, deployment, earlier, key, op).value, [], stream))
            == if OperationResolves(style, deployment, earlier, key, op)
               then Some((key, DeliveredOperation(style, deployment, op), stream))
               else None
  {
    var pays := EndsWithPayment(deployment, op.actions);
    var actions := ActionsChunk(style, earlier.addresses, RegularActions(deployment, op.actions)).value;
    var tail := Join(actions, Chunk([], PaymentBytes(deployment, op.actions)));
    JoinAssociates(HeadChunk(earlier.keys, key, op, pays), tail, [], stream);
    HeadReads(earlier.keys, later.keys, key, op, pays, tail.bits + [], tail.bytes + stream);
    BodyReads(style, deployment, earlier.addresses, later.addresses, key, op, actions, stream);
  }

  /** For every operation a compressor accepts, the expander returns the sender's key, the
      operation as delivered and the unread bytes, in every later state of the registries; it
      reverts exactly when the operation refers to a registered zero entry. */
  lemma OperationReads(style: Style, deployment: Deployment, earlier: Registries, later: Registries,
                       key: PublicKey, op: Operation, stream: seq<Byte>)
    requires Grows(earlier, later)
    requires Compress(style, deployment, earlier, key, op).Some?
    ensures Expand(style, deployment, later, Compress(style, deployment, earlier, key, op).value + stream)
            == if OperationResolves(style, deployment, earlier, key, op)
               then Some((key, DeliveredOperation(style, deployment, op), stream))
               else None
  {
    var chunk := OperationChunk(style, deployment, earlier, key, op).value;
    var bits := BitStream.Encode(chunk.bits).value;
    assert (bits + chunk.bytes) + stream == bits + (chunk.bytes + stream);
    Vlq.WordRoundTrip(BitStream.LittleEndian(chunk.bits), chunk.bytes + stream);
    assert chunk.bits + [] == chunk.bits;
    ChunkReads(style, deployment, earlier, later, key, op, stream);
  }

  lemma {:induction false} DeliveredIsSame(style: Style, actions: seq<ActionData>)
    ensures DeliveredAll(style, actions) == actions <==>
            (style.Erc20? ==> forall a :: a in actions ==> a.ethValue == 0)
  {
    if actions == [] {
    } else {
      assert actions == [actions[0]] + actions[1..];
      DeliveredIsSame(style, actions[1..]);
      assert Delivered(style, actions[0]) == actions[0] <==> (style.Erc20? ==> actions[0].ethValue == 0);
      assert forall a :: a in actions <==> a == actions[0] || a in actions[1..];
    }
  }

  /** Compression loses nothing exactly when no registered zero entry is referred to and, in the
      ERC20 form, no regular action carries ether. */
  lemma OperationRoundTrip(style: Style, deployment: Deployment, earlier: Registries, later: Registries,
                           key: PublicKey, op: Operation, stream: seq<Byte>)
    requires Grows(earlier, later)
    requires Compress(style, deployment, earlier, key, op).Some?
    ensures Expand(style, deployment, later, Compress(style, deployment, earlier, key, op).value + stream)
            == Some((key, op, stream))
            <==>
            && OperationResolves(style, deployment, earlier, key, op)
            && (style.Erc20? ==> forall a :: a in RegularActions(deployment, op.actions) ==> a.ethValue == 0)
  {
    OperationReads(style, deployment, earlier, later, key, op, stream);
    DeliveredWhole(style, deployment, op);
  }

  /** What is delivered is the operation itself exactly if no regular action loses ether. */
  lemma DeliveredWhole(style: Style, deployment: Deployment, op: Operation)
    ensures DeliveredOperation(style, deployment, op) == op <==>
            (style.Erc20? ==> forall a :: a in RegularActions(deployment, op.actions) ==> a.ethValue == 0)
  {
    var regular := RegularActions(deployment, op.actions);
    var last := op.actions[|regular|..];
    assert op.actions == regular + last;
    assert (DeliveredAll(style, regular) + last)[..|regular|] == DeliveredAll(style, regular);
    DeliveredIsSame(style, regular);
  }
}
