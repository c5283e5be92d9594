/** Which operations the fallback and ERC20 compressors accept, and where they put a final payment to
    tx.origin (FallbackCompressor.ts, Erc20Compressor.ts). */
module Acceptance {
  import opened Wrappers
  import opened Bytes
  import opened Operations
  import opened Registry
  import opened Erc20Call
  import opened OperationStream
  import BitStream
  import PseudoFloat
  import RegIndex
  import Vlq

  /** The calldata is the ABI encoding of a call that has a short form. */
  ghost predicate IsShortCall(data: Calldata) {
    exists call :: data == Erc20Call.Encode(call)
  }

  /** `sendEthToTxOrigin()` on the utilities contract, as the last action. */
  predicate PaysOrigin(deployment: Deployment, op: Operation) {
    && op.actions != []
    && var last := op.actions[|op.actions| - 1];
       last.contractAddress == deployment.aggregatorUtilities && last.encodedFunction == [0x1d, 0xfe, 0xa6, 0xa0]
  }

  /** The addresses a call names, in the order they are written. */
  function AddressesOf(call: Call): seq<Address> {
    match call
    case Transfer(to, _) => [to]
    case TransferFrom(from, to, _) => [from, to]
    case Approve(spender, _) => [spender]
    case Mint(to, _) => [to]
  }

  /** One bit per address: whether it is registered. */
  function Registered(addresses: Entries<Address>, written: seq<Address>): (bits: seq<bool>)
    ensures |bits| == |written|
    ensures forall i :: 0 <= i < |written| ==> bits[i] == (written[i] in addresses)
  {
    seq(|written|, i requires 0 <= i < |written| => written[i] in addresses)
  }

  lemma RegisteredConcat(addresses: Entries<Address>, a: seq<Address>, b: seq<Address>)
    ensures Registered(addresses, a + b) == Registered(addresses, a) + Registered(addresses, b)
  {
  }

  /** The addresses an action is written with: its target, then in ERC20 style those its call names. */
  function Written(style: Style, action: ActionData): seq<Address> {
    [action.contractAddress]
    + if style.Erc20? && Parse(action.encodedFunction).Some? then AddressesOf(Parse(action.encodedFunction).value)
      else []
  }

  function WrittenAll(style: Style, actions: seq<ActionData>): seq<Address> {
    if actions == [] then [] else Written(style, actions[0]) + WrittenAll(style, actions[1..])
  }

  lemma ShortCallParses(data: Calldata)
    ensures Parse(data).Some? <==> IsShortCall(data)
  {
    if Parse(data).Some? {
      ParseIsInverseOfEncode(data, Parse(data).value);
    }
    if call :| data == Erc20Call.Encode(call) {
      ParseIsInverseOfEncode(data, call);
    }
  }

  lemma AddressBit(addresses: Entries<Address>, address: Address)
    ensures AddressChunk(addresses, address).bits == [address in addresses]
  {
  }

  lemma CallBits(addresses: Entries<Address>, call: Call)
    ensures CallChunk(addresses, call).bits == Registered(addresses, AddressesOf(call))
  {
  }

  /** An address as it is written: the index of its last registration, or its bytes. */
  function AddressBytes(addresses: Entries<Address>, address: Address): seq<Byte> {
    match ReverseLookup(addresses, address)
    case None => address
    case Some(id) => RegIndex.Encode(id)
  }

  /** The code of a call and what follows it: its addresses in order and its value, but for an approval of the
      maximum, which has a code of its own. */
  lemma CallBytes(addresses: Entries<Address>, call: Call)
    ensures CallChunk(addresses, call).bytes
            == match call
               case Transfer(to, value) => [0] + (AddressBytes(addresses, to) + PseudoFloat.Encode(value))
               case TransferFrom(from, to, value) =>
                 [1] + (AddressBytes(addresses, from) + (AddressBytes(addresses, to) + PseudoFloat.Encode(value)))
               case Approve(spender, value) =>
                 if value == TWO_256 - 1 then [3] + AddressBytes(addresses, spender)
                 else [2] + (AddressBytes(addresses, spender) + PseudoFloat.Encode(value))
               case Mint(to, value) => [4] + (AddressBytes(addresses, to) + PseudoFloat.Encode(value))
  {
    assert Vlq.Leading(0) == [];
    assert forall code: nat {:trigger Vlq.Encode(code)} :: code < 5 ==> Vlq.Encode(code) == [code];
  }

  lemma ActionBits(style: Style, addresses: Entries<Address>, action: ActionData)
    ensures var chunk := ActionChunk(style, addresses, action);
            && (chunk.Some? <==> style.Erc20? ==> IsShortCall(action.encodedFunction))
            && (chunk.Some? ==> chunk.value.bits == Registered(addresses, Written(style, action)))
  {
    ShortCallParses(action.encodedFunction);
    AddressBit(addresses, action.contractAddress);
    if Parse(action.encodedFunction).Some? {
      CallBits(addresses, Parse(action.encodedFunction).value);
    }
  }

  ghost predicate AllAccepted(style: Style, actions: seq<ActionData>) {
    style.Erc20? ==> forall i :: 0 <= i < |actions| ==> IsShortCall(actions[i].encodedFunction)
  }

  lemma {:induction false} ActionsBits(style: Style, addresses: Entries<Address>, actions: seq<ActionData>)
    ensures var chunk := ActionsChunk(style, addresses, actions);
            && (chunk.Some? <==> AllAccepted(style, actions))
            && (chunk.Some? ==> chunk.value.bits == Registered(addresses, WrittenAll(style, actions)))
  {
    if actions == [] {
    } else {
      ActionBits(style, addresses, actions[0]);
      ActionsBits(style, addresses, actions[1..]);
      RegisteredConcat(addresses, Written(style, actions[0]), WrittenAll(style, actions[1..]));
      assert actions == [actions[0]] + actions[1..];
    }
  }

  /** The actions before a final payment; all of them if there is none. */
  function Others(deployment: Deployment, op: Operation): seq<ActionData> {
    if PaysOrigin(deployment, op) then op.actions[..|op.actions| - 1] else op.actions
  }

  /** The bits of the whole operation: the key, the payment, then the addresses. */
  function AllBits(style: Style, deployment: Deployment, registries: Registries, key: PublicKey, op: Operation)
    : seq<bool>
  {
    [key in registries.keys, PaysOrigin(deployment, op)]
    + Registered(registries.addresses, WrittenAll(style, Others(deployment, op)))
  }

  lemma OperationBits(style: Style, deployment: Deployment, registries: Registries, key: PublicKey, op: Operation)
    ensures var chunk := OperationChunk(style, deployment, registries, key, op);
            && (chunk.Some? <==> AllAccepted(style, Others(deployment, op)))
            && (chunk.Some? ==> chunk.value.bits == AllBits(style, deployment, registries, key, op))
  {
    ActionsBits(style, registries.addresses, Others(deployment, op));
  }

  /** The fallback form takes every operation and the ERC20 form those whose actions, but for a final payment,
      are all ERC20 calls; both throw exactly if the bits read as a number reach 2^53 - 1. */
  lemma AcceptsExactly(style: Style, deployment: Deployment, registries: Registries, key: PublicKey, op: Operation)
    ensures Compress(style, deployment, registries, key, op).Some? <==>
            && AllAccepted(style, Others(deployment, op))
            && BitStream.LittleEndian(AllBits(style, deployment, registries, key, op)) < 9_007_199_254_740_991
  {
    OperationBits(style, deployment, registries, key, op);
  }

  /** A final payment leaves nothing but its bit, the second, and its ether, as the stream's last bytes. */
  lemma PaymentIsLast(style: Style, deployment: Deployment, registries: Registries, key: PublicKey, op: Operation)
    returns (before: seq<Byte>)
    requires PaysOrigin(deployment, op) && Compress(style, deployment, registries, key, op).Some?
    ensures Compress(style, deployment, registries, key, op).value
            == Vlq.Encode(BitStream.LittleEndian(AllBits(style, deployment, registries, key, op)))
               + (before + PseudoFloat.Encode(op.actions[|op.actions| - 1].ethValue))
  {
    OperationBits(style, deployment, registries, key, op);
    var head := HeadChunk(registries.keys, key, op, true);
    var actions := ActionsChunk(style, registries.addresses, Others(deployment, op)).value;
    before := head.bytes + actions.bytes;
    var last := PseudoFloat.Encode(op.actions[|op.actions| - 1].ethValue);
    assert OperationChunk(style, deployment, registries, key, op).value.bytes == head.bytes + (actions.bytes + last);
  }
}
