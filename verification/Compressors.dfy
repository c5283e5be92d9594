/** The compressors as they run: arrays of pieces and bits that are pushed to, with the first slot
    a placeholder overwritten by the bit stream at the end (FallbackCompressor.ts,
    Erc20Compressor.ts). Each is proved to produce the stream OperationStream defines. */
module Compressors {
  import opened Wrappers
  import opened Bytes
  import opened Operations
  import opened Registry
  import opened Erc20Call
  import opened OperationStream
  import Vlq
  import PseudoFloat
  import RegIndex
  import BitStream

  /** The `result` and `bitStream` arrays that a compressor shares with its helpers. */
  class Output {
    var result: seq<seq<Byte>>
    var bitStream: seq<bool>

    constructor ()
      ensures result == [[]] && Written() == Chunk([], [])
    {
      result := [[]];
      bitStream := [];
    }

    ghost function Written(): Chunk
      reads this
    {
      Chunk(bitStream, Concat(result))
    }

    method Push(piece: seq<Byte>)
      modifies this
      ensures old(result) <= result
      ensures Written() == Join(old(Written()), Chunk([], piece))
    {
      ConcatSnoc(result, piece);
      result := result + [piece];
    }

    method PushBit(bit: bool)
      modifies this
      ensures result == old(result)
      ensures Written() == Join(old(Written()), Chunk([bit], []))
    {
      bitStream := bitStream + [bit];
    }

    /** Overwrites the placeholder and joins the pieces. */
    method Finish() returns (stream: Option<seq<Byte>>)
      requires |result| > 0 && result[0] == []
      modifies this
      ensures stream == match BitStream.Encode(old(Written()).bits)
                        case None => None
                        case Some(bits) => Some(bits + old(Written()).bytes)
    {
      var bits := BitStream.EncodeBitStream(bitStream);
      if bits.None? {
        return None;
      }
      assert Concat(result) == Concat(result[1..]);
      result := result[0 := bits.value];
      stream := Some(Concat(result));
    }
  }

  lemma JoinAssoc(a: Chunk, b: Chunk, c: Chunk)
    ensures Join(Join(a, b), c) == Join(a, Join(b, c))
  {
    assert (a.bits + b.bits) + c.bits == a.bits + (b.bits + c.bits);
    assert (a.bytes + b.bytes) + c.bytes == a.bytes + (b.bytes + c.bytes);
  }

  lemma {:induction false} ActionsChunkConcat(style: Style, addresses: Entries<Address>, front: seq<ActionData>,
                                              back: seq<ActionData>)
    ensures var f, b := ActionsChunk(style, addresses, front), ActionsChunk(style, addresses, back);
            ActionsChunk(style, addresses, front + back)
            == if f.Some? && b.Some? then Some(Join(f.value, b.value)) else None
  {
    if front == [] {
      assert front + back == back;
      var b := ActionsChunk(style, addresses, back);
      assert b.Some? ==> Join(Chunk([], []), b.value) == b.value;
    } else {
      assert (front + back)[1..] == front[1..] + back;
      ActionsChunkConcat(style, addresses, front[1..], back);
      var first, f := ActionChunk(style, addresses, front[0]), ActionsChunk(style, addresses, front[1..]);
      var b := ActionsChunk(style, addresses, back);
      if first.Some? && f.Some? && b.Some? {
        JoinAssoc(first.value, f.value, b.value);
      }
    }
  }

  lemma ActionsChunkOne(style: Style, addresses: Entries<Address>, action: ActionData)
    ensures ActionsChunk(style, addresses, [action]) == ActionChunk(style, addresses, action)
  {
    var a := ActionChunk(style, addresses, action);
    assert ActionsChunk(style, addresses, []) == Some(Chunk([], []));
    if a.Some? {
      assert Join(a.value, Chunk([], [])) == a.value;
    }
  }

  lemma ActionsChunkNext(style: Style, addresses: Entries<Address>, actions: seq<ActionData>, i: nat)
    requires i < |actions|
    ensures var f, a := ActionsChunk(style, addresses, actions[..i]), ActionChunk(style, addresses, actions[i]);
            && (ActionsChunk(style, addresses, actions[..i + 1])
                == if f.Some? && a.Some? then Some(Join(f.value, a.value)) else None)
            && (a.None? ==> ActionsChunk(style, addresses, actions).None?)
  {
    assert actions[..i + 1] == actions[..i] + [actions[i]];
    ActionsChunkConcat(style, addresses, actions[..i], [actions[i]]);
    ActionsChunkOne(style, addresses, actions[i]);
    assert actions == actions[..i + 1] + actions[i + 1..];
    ActionsChunkConcat(style, addresses, actions[..i + 1], actions[i + 1..]);
  }

  /** What both compressors have in common. */
  class StreamCompressor {
    const style: Style
    const deployment: Deployment
    const blsPublicKeyRegistry: RegistryWrapper<PublicKey>
    const addressRegistry: RegistryWrapper<Address>

    constructor (style: Style, deployment: Deployment, keys: RegistryWrapper<PublicKey>,
                 addresses: RegistryWrapper<Address>)
      ensures this.style == style && this.deployment == deployment
      ensures blsPublicKeyRegistry == keys && addressRegistry == addresses
    {
      this.style := style;
      this.deployment := deployment;
      blsPublicKeyRegistry := keys;
      addressRegistry := addresses;
    }

    function Snapshot(): Registries
      reads blsPublicKeyRegistry, addressRegistry
    {
      Registries(blsPublicKeyRegistry.entries, addressRegistry.entries)
    }

    method CompressAddress(address: Address, out: Output)
      modifies out
      ensures old(out.result) <= out.result
      ensures out.Written() == Join(old(out.Written()), AddressChunk(Snapshot().addresses, address))
    {
      var addressId := ReverseLookup(addressRegistry.entries, address);
      if addressId.None? {
        out.PushBit(false);
        out.Push(address);
      } else {
        out.PushBit(true);
        out.Push(RegIndex.Encode(addressId.value));
      }
    }

    method CompressKey(blsPublicKey: PublicKey, out: Output)
      modifies out
      ensures old(out.result) <= out.result
      ensures out.Written() == Join(old(out.Written()), KeyChunk(Snapshot().keys, blsPublicKey))
    {
      var blsPublicKeyId := ReverseLookup(blsPublicKeyRegistry.entries, blsPublicKey);
      if blsPublicKeyId.None? {
        out.PushBit(false);
        out.Push(EncodeWords(blsPublicKey));
      } else {
        out.PushBit(true);
        out.Push(RegIndex.Encode(blsPublicKeyId.value));
      }
    }

    method CompressHead(blsPublicKey: PublicKey, operation: Operation, out: Output)
      modifies out
      ensures old(out.result) <= out.result
      ensures out.Written() == Join(old(out.Written()),
                                    HeadChunk(Snapshot().keys, blsPublicKey, operation,
                                              EndsWithPayment(deployment, operation.actions)))
    {
      ghost var start := out.Written();
      CompressKey(blsPublicKey, out);
      ghost var key := KeyChunk(Snapshot().keys, blsPublicKey);
      var pays := EndsWithPayment(deployment, operation.actions);
      CompressNumbers(operation, pays, out);
      JoinAssoc(start, key, NumbersChunk(operation, pays));
    }

    method CompressNumbers(operation: Operation, pays: bool, out: Output)
      modifies out
      ensures old(out.result) <= out.result
      ensures out.Written() == Join(old(out.Written()), NumbersChunk(operation, pays))
    {
      ghost var start := out.Written();
      var nonce := Vlq.EncodeVLQ(operation.nonce);
      out.Push(nonce);
      var gas := PseudoFloat.EncodePseudoFloat(operation.gas);
      out.Push(gas);
      var count := Vlq.EncodeVLQ(|operation.actions|);
      out.Push(count);
      out.PushBit(pays);
      assert start.bytes + nonce + gas + count == start.bytes + (nonce + (gas + count));
    }

    /** One regular action; false where the source returns undefined or throws, after which the
        caller drops the arrays. */
    method CompressAction(action: ActionData, out: Output) returns (success: bool)
      modifies out
      ensures old(out.result) <= out.result
      ensures success <==> ActionChunk(style, Snapshot().addresses, action).Some?
      ensures success ==> out.Written() == Join(old(out.Written()),
                                                ActionChunk(style, Snapshot().addresses, action).value)
    {
      if style.Fallback? {
        CompressInFull(action, out);
        success := true;
      } else {
        success := CompressAsErc20(action, out);
      }
    }

    method CompressInFull(action: ActionData, out: Output)
      modifies out
      ensures old(out.result) <= out.result
      ensures out.Written() == Join(old(out.Written()),
                                    ActionChunk(Fallback, Snapshot().addresses, action).value)
    {
      ghost var start := out.Written();
      var ethValue := PseudoFloat.EncodePseudoFloat(action.ethValue);
      out.Push(ethValue);
      CompressAddress(action.contractAddress, out);
      ghost var written := out.Written();
      var fnLen := Vlq.EncodeVLQ(|action.encodedFunction|);
      out.Push(fnLen);
      out.Push(action.encodedFunction);
      ghost var a, b, c := Chunk([], ethValue), AddressChunk(Snapshot().addresses, action.contractAddress),
                           DataChunk(action.encodedFunction);
      assert out.Written() == Join(written, c);
      JoinAssoc(Join(start, a), b, c);
      JoinAssoc(start, a, Join(b, c));
    }

    method CompressAsErc20(action: ActionData, out: Output) returns (success: bool)
      modifies out
      ensures old(out.result) <= out.result
      ensures success <==> ActionChunk(Erc20, Snapshot().addresses, action).Some?
      ensures success ==> out.Written() == Join(old(out.Written()),
                                                ActionChunk(Erc20, Snapshot().addresses, action).value)
    {
      ghost var start := out.Written();
      CompressAddress(action.contractAddress, out);
      success := CompressFunctionCall(action.encodedFunction, out);
      if success {
        JoinAssoc(start, AddressChunk(Snapshot().addresses, action.contractAddress),
                  CallChunk(Snapshot().addresses, Parse(action.encodedFunction).value));
      }
    }

    method CompressFunctionCall(data: Calldata, out: Output) returns (success: bool)
      modifies out
      ensures old(out.result) <= out.result
      ensures success <==> Parse(data).Some?
      ensures success ==> out.Written() == Join(old(out.Written()),
                                                CallChunk(Snapshot().addresses, Parse(data).value))
    {
      FirstByteDecides(data);
      var parametersHex := Parameters(data);
      if IsMethod(TRANSFER, data) {
        success := CompressToAndValue(0, parametersHex, out);
      } else if IsMethod(TRANSFER_FROM, data) {
        success := CompressTransferFrom(parametersHex, out);
      } else if IsMethod(APPROVE, data) {
        success := CompressApprove(parametersHex, out);
      } else if IsMethod(MINT, data) {
        success := CompressToAndValue(4, parametersHex, out);
      } else {
        success := false;
      }
    }

    /** `compressTransfer` and `compressMint`, which differ only in the method code. */
    method CompressToAndValue(code: nat, parametersHex: seq<Byte>, out: Output) returns (success: bool)
      modifies out
      ensures old(out.result) <= out.result
      ensures success <==> ParseAddressAndValue(parametersHex).Some?
      ensures success ==>
                var (to, value) := ParseAddressAndValue(parametersHex).value;
                out.Written() == Join(old(out.Written()),
                                      Join(Chunk([], Vlq.Encode(code)),
                                           Join(AddressChunk(Snapshot().addresses, to),
                                                Chunk([], PseudoFloat.Encode(value)))))
    {
      if |parametersHex| != 2 * 32 {
        return false;
      }
      ghost var start := out.Written();
      var methodCode := Vlq.EncodeVLQ(code);
      out.Push(methodCode);
      var decoded := ParseAddressAndValue(parametersHex);
      if decoded.None? {
        return false;
      }
      var (to, value) := decoded.value;
      CompressAddress(to, out);
      var encoded := PseudoFloat.EncodePseudoFloat(value);
      out.Push(encoded);
      ghost var a, b, c := Chunk([], methodCode), AddressChunk(Snapshot().addresses, to), Chunk([], encoded);
      JoinAssoc(Join(start, a), b, c);
      JoinAssoc(start, a, Join(b, c));
      success := true;
    }

    method CompressTransferFrom(parametersHex: seq<Byte>, out: Output) returns (success: bool)
      modifies out
      ensures old(out.result) <= out.result
      ensures success <==> ParseTwoAddressesAndValue(parametersHex).Some?
      ensures success ==>
                var (from, to, value) := ParseTwoAddressesAndValue(parametersHex).value;
                out.Written() == Join(old(out.Written()),
                                      CallChunk(Snapshot().addresses, TransferFrom(from, to, value)))
    {
      if |parametersHex| != 3 * 32 {
        return false;
      }
      ghost var start := out.Written();
      var code := Vlq.EncodeVLQ(1);
      out.Push(code);
      var decoded := ParseTwoAddressesAndValue(parametersHex);
      if decoded.None? {
        return false;
      }
      var (from, to, value) := decoded.value;
      CompressAddress(from, out);
      CompressAddress(to, out);
      var encoded := PseudoFloat.EncodePseudoFloat(value);
      out.Push(encoded);
      ghost var a, b, c, d := Chunk([], code), AddressChunk(Snapshot().addresses, from),
                              AddressChunk(Snapshot().addresses, to), Chunk([], encoded);
      JoinAssoc(Join(Join(start, a), b), c, d);
      JoinAssoc(Join(start, a), b, Join(c, d));
      JoinAssoc(start, a, Join(b, Join(c, d)));
      success := true;
    }

    /** The two codes split at the maximum: the unlimited approval leaves its value out. */
    method CompressApprove(parametersHex: seq<Byte>, out: Output) returns (success: bool)
      modifies out
      ensures old(out.result) <= out.result
      ensures success <==> ParseAddressAndValue(parametersHex).Some?
      ensures success ==>
                var (spender, value) := ParseAddressAndValue(parametersHex).value;
                out.Written() == Join(old(out.Written()),
                                      CallChunk(Snapshot().addresses, Approve(spender, value)))
    {
      if |parametersHex| != 2 * 32 {
        return false;
      }
      ghost var start := out.Written();
      var decoded := ParseAddressAndValue(parametersHex);
      if decoded.None? {
        return false;
      }
      var (spender, value) := decoded.value;
      ghost var b := AddressChunk(Snapshot().addresses, spender);
      if value == MAX_UINT256 {
        var code := Vlq.EncodeVLQ(3);
        out.Push(code);
        CompressAddress(spender, out);
        JoinAssoc(start, Chunk([], code), b);
      } else {
        var code := Vlq.EncodeVLQ(2);
        out.Push(code);
        CompressAddress(spender, out);
        var encoded := PseudoFloat.EncodePseudoFloat(value);
        out.Push(encoded);
        JoinAssoc(Join(start, Chunk([], code)), b, Chunk([], encoded));
        JoinAssoc(start, Chunk([], code), Join(b, Chunk([], encoded)));
      }
      success := true;
    }

    method CompressActions(regularActions: seq<ActionData>, out: Output) returns (success: bool)
      requires |out.result| > 0
      modifies out
      ensures old(out.result) <= out.result
      ensures success <==> ActionsChunk(style, Snapshot().addresses, regularActions).Some?
      ensures success ==> out.Written() == Join(old(out.Written()),
                                                ActionsChunk(style, Snapshot().addresses, regularActions).value)
    {
      ghost var start, addresses := out.Written(), Snapshot().addresses;
      ghost var written := Chunk([], []);
      for i := 0 to |regularActions|
        invariant old(out.result) <= out.result
        invariant ActionsChunk(style, addresses, regularActions[..i]) == Some(written)
        invariant out.Written() == Join(start, written)
      {
        ActionsChunkNext(style, addresses, regularActions, i);
        success := CompressAction(regularActions[i], out);
        if !success {
          return;
        }
        ghost var action := ActionChunk(style, addresses, regularActions[i]).value;
        JoinAssoc(start, written, action);
        written := Join(written, action);
      }
      assert regularActions[..|regularActions|] == regularActions;
      success := true;
    }

    method CompressPayment(actions: seq<ActionData>, out: Output)
      modifies out
      ensures old(out.result) <= out.result
      ensures out.Written() == Join(old(out.Written()), Chunk([], PaymentBytes(deployment, actions)))
    {
      if EndsWithPayment(deployment, actions) {
        var encoded := PseudoFloat.EncodePseudoFloat(actions[|actions| - 1].ethValue);
        out.Push(encoded);
      }
    }

    method Compress(blsPublicKey: PublicKey, operation: Operation) returns (stream: Option<seq<Byte>>)
      ensures stream == OperationStream.Compress(style, deployment, Snapshot(), blsPublicKey, operation)
    {
      var out := new Output();
      CompressHead(blsPublicKey, operation, out);
      var regularActions := RegularActions(deployment, operation.actions);
      ghost var head := HeadChunk(Snapshot().keys, blsPublicKey, operation,
                                  EndsWithPayment(deployment, operation.actions));
      assert out.Written() == head;
      var success := CompressActions(regularActions, out);
      if !success {
        return None;
      }
      CompressPayment(operation.actions, out);
      JoinAssoc(head, ActionsChunk(style, Snapshot().addresses, regularActions).value,
                Chunk([], PaymentBytes(deployment, operation.actions)));
      stream := out.Finish();
    }
  }
}
