/** Accepted operations that do not come back as they were sent: ether in the ERC20 form, and the zero
    address and key once somebody has registered them. */
module CodecCounterexamples {
  import opened Wrappers
  import opened Bytes
  import opened Operations
  import opened OperationStream
  import Bundles
  import BitStream
  import Compressors
  import Erc20Call
  import Framing
  import OperationRoundTrip

  const KEY: PublicKey := [1, 2, 3, 4]
  const TOKEN: Address := [1, 2, 3, 4, 5, 6, 7, 8, 9, 10, 11, 12, 13, 14, 15, 16, 17, 18, 19, 20]
  const SIGNATURE: Signature := [1, 2]

  const EMPTY := Registries([], [])
  const ZERO_ADDRESS_REGISTERED := Registries([], [ZERO_ADDRESS])
  const ZERO_KEY_REGISTERED := Registries([ZERO_KEY], [])

  /** `transfer(TOKEN, 5)` called on the token with this much ether. */
  function TokenTransfer(ethValue: Word): Operation {
    Operation(0, 0, [ActionData(ethValue, TOKEN, Erc20Call.Encode(Erc20Call.Transfer(TOKEN, 5)))])
  }

  /** An empty call of the zero address. */
  const CALL_ZERO := Operation(0, 0, [ActionData(0, ZERO_ADDRESS, [])])

  const NO_ACTIONS := Operation(0, 0, [])

  lemma {:induction false} ValueBelow(bits: seq<bool>)
    ensures BitStream.LittleEndian(bits) < Pow256(|bits|)
  {
    if bits == [] {
    } else {
      ValueBelow(bits[1..]);
    }
  }

  lemma FewBitsFit(bits: seq<bool>)
    requires |bits| <= 4
    ensures BitStream.Encode(bits).Some?
  {
    ValueBelow(bits);
    BitStream.Pow256Grows(|bits|, 4);
    assert Pow256(4) == 0x1_0000_0000;
  }

  lemma OneAction(style: Style, d: Deployment, r: Registries, action: ActionData)
    requires !IsTxOriginPayment(d, action)
    ensures RegularActions(d, [action]) == [action] && !EndsWithPayment(d, [action])
    ensures ActionsChunk(style, r.addresses, [action]) == ActionChunk(style, r.addresses, action)
  {
    Compressors.ActionsChunkOne(style, r.addresses, action);
  }

  lemma OneWritten(write: Framing.Writer, key: PublicKey, op: Operation)
    ensures Framing.WriteAll(write, 0, [key], [op]).Some? <==> write(0, key, op).Some?
  {
    assert [key][1..] == [] && [op][1..] == [];
    assert Framing.WriteAll(write, 1, [], []) == Some([]);
  }

  lemma OneDelivered(deliver: Framing.Delivery, key: PublicKey, op: Operation)
    ensures Framing.DeliverAll(deliver, 0, [key], [op])
            == match deliver(0, key, op)
               case None => None
               case Some(delivered) => Some([delivered])
  {
    assert [key][1..] == [] && [op][1..] == [];
    assert Framing.DeliverAll(deliver, 1, [], []) == Some([]);
    if deliver(0, key, op).Some? {
      assert [deliver(0, key, op).value] + [] == [deliver(0, key, op).value];
    }
  }

  lemma OneFramed(write: Framing.Writer, read: Framing.Reader, deliver: Framing.Delivery, key: PublicKey, op: Operation,
                  b: Bundle)
    requires Framing.Agree(write, read, deliver) && Framing.Consumes(read) && write(0, key, op).Some?
    requires b == Bundle([key], [op], b.signature)
    ensures Framing.WriteBundle(write, b).Some?
    ensures Framing.Run(read, Framing.WriteBundle(write, b).value)
            == match deliver(0, key, op)
               case None => None
               case Some(delivered) => Some(Bundle([key], [delivered], b.signature))
  {
    OneWritten(write, key, op);
    OneDelivered(deliver, key, op);
    Framing.RunReads(write, read, deliver, b);
  }

  /** A bundle of one operation is delivered just when the operation is. */
  lemma OneOperation(kind: Bundles.Expander, d: Deployment, r: Registries, key: PublicKey, op: Operation)
    requires Bundles.CompressWith(kind, d, r, key, op).Some?
    ensures Bundles.Consistent([(0, kind)], [kind])
    ensures var b := Bundle([key], [op], SIGNATURE);
            && Bundles.BundleBytes([(0, kind)], d, [r], b).Some?
            && Bundles.Run([kind], d, r, Bundles.BundleBytes([(0, kind)], d, [r], b).value)
               == if Bundles.ResolvesWith(kind, d, r, key, op)
                  then Some(Bundle([key], [Bundles.DeliveredWith(kind, d, op)], SIGNATURE)) else None
  {
    var compressors := [(0, kind)];
    assert Bundles.Choose(compressors, d, r, key, op) == Some((0, kind));
    Bundles.CompressorsAgree(compressors, [kind], d, [r], r);
    OneFramed(Bundles.Writing(compressors, d, [r]), Bundles.Reading([kind], d, r),
              Bundles.Delivering(compressors, d, [r]),
              key, op, Bundle([key], [op], SIGNATURE));
  }

  lemma TransferIsNoPayment(d: Deployment, ethValue: Word)
    ensures var action := TokenTransfer(ethValue).actions[0];
            && RegularActions(d, [action]) == [action] && !EndsWithPayment(d, [action])
            && ActionsChunk(Erc20, EMPTY.addresses, [action]) == ActionChunk(Erc20, EMPTY.addresses, action)
            && Erc20Call.Parse(action.encodedFunction) == Some(Erc20Call.Transfer(TOKEN, 5))
  {
    var action := TokenTransfer(ethValue).actions[0];
    Erc20Call.ParseIsInverseOfEncode(action.encodedFunction, Erc20Call.Transfer(TOKEN, 5));
    assert |action.encodedFunction| == 68;
    OneAction(Erc20, d, EMPTY, action);
  }

  lemma TransferIsAccepted(d: Deployment)
    ensures Compress(Erc20, d, EMPTY, KEY, TokenTransfer(1)).Some?
    ensures OperationResolves(Erc20, d, EMPTY, KEY, TokenTransfer(1))
  {
    TransferIsNoPayment(d, 1);
    FewBitsFit(OperationChunk(Erc20, d, EMPTY, KEY, TokenTransfer(1)).value.bits);
  }

  lemma TransferLosesEther(d: Deployment)
    ensures DeliveredOperation(Erc20, d, TokenTransfer(1)) == TokenTransfer(0)
  {
    var action := TokenTransfer(1).actions[0];
    TransferIsNoPayment(d, 1);
    assert DeliveredAll(Erc20, []) == [];
    assert DeliveredAll(Erc20, [action]) == [action.(ethValue := 0)];
  }

  /** The ERC20 compressor accepts a token transfer that carries ether; the contract makes of it the
      same transfer without the ether. */
  lemma EtherIsDropped(d: Deployment, stream: seq<Byte>)
    ensures Compress(Erc20, d, EMPTY, KEY, TokenTransfer(1)).Some?
    ensures Expand(Erc20, d, EMPTY, Compress(Erc20, d, EMPTY, KEY, TokenTransfer(1)).value + stream)
            == Some((KEY, TokenTransfer(0), stream))
    ensures TokenTransfer(0) != TokenTransfer(1)
  {
    TransferIsAccepted(d);
    TransferLosesEther(d);
    OperationRoundTrip.OperationReads(Erc20, d, EMPTY, EMPTY, KEY, TokenTransfer(1), stream);
  }

  /** So does a whole bundle. */
  lemma EtherIsDroppedFromBundle(d: Deployment)
    ensures var compressors, b := [(0, Bundles.Erc20)], Bundle([KEY], [TokenTransfer(1)], SIGNATURE);
            && Bundles.Consistent(compressors, [Bundles.Erc20])
            && Bundles.BundleBytes(compressors, d, [EMPTY], b).Some?
            && Bundles.Run([Bundles.Erc20], d, EMPTY, Bundles.BundleBytes(compressors, d, [EMPTY], b).value)
               == Some(Bundle([KEY], [TokenTransfer(0)], SIGNATURE))
  {
    TransferIsAccepted(d);
    TransferLosesEther(d);
    OneOperation(Bundles.Erc20, d, EMPTY, KEY, TokenTransfer(1));
  }

  lemma ZeroAddressIsAccepted(d: Deployment)
    ensures Compress(Fallback, d, ZERO_ADDRESS_REGISTERED, KEY, CALL_ZERO).Some?
    ensures !OperationResolves(Fallback, d, ZERO_ADDRESS_REGISTERED, KEY, CALL_ZERO)
  {
    var r, action := ZERO_ADDRESS_REGISTERED, CALL_ZERO.actions[0];
    assert action.encodedFunction != SEND_ETH_TO_TX_ORIGIN;
    OneAction(Fallback, d, r, action);
    FewBitsFit(OperationChunk(Fallback, d, r, KEY, CALL_ZERO).value.bits);
    assert action in [action] && !ActionResolves(Fallback, r.addresses, action);
  }

  lemma ZeroKeyIsAccepted(d: Deployment)
    ensures Compress(Fallback, d, ZERO_KEY_REGISTERED, ZERO_KEY, NO_ACTIONS).Some?
    ensures !OperationResolves(Fallback, d, ZERO_KEY_REGISTERED, ZERO_KEY, NO_ACTIONS)
  {
    FewBitsFit(OperationChunk(Fallback, d, ZERO_KEY_REGISTERED, ZERO_KEY, NO_ACTIONS).value.bits);
  }

  /** Once the zero address is registered, an operation that calls it is compressed and then reverts. */
  lemma ZeroAddressReverts(d: Deployment, stream: seq<Byte>)
    ensures var r, b := ZERO_ADDRESS_REGISTERED, Bundle([KEY], [CALL_ZERO], SIGNATURE);
            var data, bytes := Compress(Fallback, d, r, KEY, CALL_ZERO),
                               Bundles.BundleBytes([(0, Bundles.Fallback)], d, [r], b);
            && data.Some? && Expand(Fallback, d, r, data.value + stream).None?
            && bytes.Some? && Bundles.Run([Bundles.Fallback], d, r, bytes.value).None?
  {
    var r := ZERO_ADDRESS_REGISTERED;
    ZeroAddressIsAccepted(d);
    OperationRoundTrip.OperationReads(Fallback, d, r, r, KEY, CALL_ZERO, stream);
    OneOperation(Bundles.Fallback, d, r, KEY, CALL_ZERO);
  }

  /** Likewise for the zero key and an operation it sends. */
  lemma ZeroKeyReverts(d: Deployment, stream: seq<Byte>)
    ensures var r, b := ZERO_KEY_REGISTERED, Bundle([ZERO_KEY], [NO_ACTIONS], SIGNATURE);
            var data, bytes := Compress(Fallback, d, r, ZERO_KEY, NO_ACTIONS),
                               Bundles.BundleBytes([(0, Bundles.Fallback)], d, [r], b);
            && data.Some? && Expand(Fallback, d, r, data.value + stream).None?
            && bytes.Some? && Bundles.Run([Bundles.Fallback], d, r, bytes.value).None?
  {
    var r := ZERO_KEY_REGISTERED;
    ZeroKeyIsAccepted(d);
    OperationRoundTrip.OperationReads(Fallback, d, r, r, ZERO_KEY, NO_ACTIONS, stream);
    OneOperation(Bundles.Fallback, d, r, ZERO_KEY, NO_ACTIONS);
  }
}
