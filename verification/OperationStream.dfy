/** The stream shared by the fallback and ERC20 compressors (FallbackCompressor.ts,
    Erc20Compressor.ts) and the expanders that read it (FallbackExpander.sol, ERC20Expander.sol).
    Two channels are written at once: bits, collected and put first as one VLQ, and bytes. */
module OperationStream {
  import opened Wrappers
  import opened Bytes
  import opened Operations
  import opened Registry
  import opened Erc20Call
  import Vlq
  import PseudoFloat
  import RegIndex
  import BitStream

  /** What one step of a compressor appends to each channel. */
  datatype Chunk = Chunk(bits: seq<bool>, bytes: seq<Byte>)

  function Join(a: Chunk, b: Chunk): Chunk {
    Chunk(a.bits + b.bits, a.bytes + b.bytes)
  }

  /** How an action is written: in full, or as an ERC20 call. */
  datatype Style = Fallback | Erc20

  // ---- Writing ----

  function KeyChunk(keys: Entries<PublicKey>, key: PublicKey): Chunk {
    match ReverseLookup(keys, key)
    case None => Chunk([false], EncodeWords(key))
    case Some(id) => Chunk([true], RegIndex.Encode(id))
  }

  function AddressChunk(addresses: Entries<Address>, address: Address): Chunk {
    match ReverseLookup(addresses, address)
    case None => Chunk([false], address)
    case Some(id) => Chunk([true], RegIndex.Encode(id))
  }

  function CallChunk(addresses: Entries<Address>, call: Call): Chunk {
    match call
    case Transfer(to, value) =>
      Join(Chunk([], Vlq.Encode(0)),
           Join(AddressChunk(addresses, to), Chunk([], PseudoFloat.Encode(value))))
    case TransferFrom(from, to, value) =>
      Join(Chunk([], Vlq.Encode(1)),
           Join(AddressChunk(addresses, from),
                Join(AddressChunk(addresses, to), Chunk([], PseudoFloat.Encode(value)))))
    case Approve(spender, value) =>
      if value == MAX_UINT256 then
        Join(Chunk([], Vlq.Encode(3)), AddressChunk(addresses, spender))
      else
        Join(Chunk([], Vlq.Encode(2)),
             Join(AddressChunk(addresses, spender), Chunk([], PseudoFloat.Encode(value))))
    case Mint(to, value) =>
      Join(Chunk([], Vlq.Encode(4)),
           Join(AddressChunk(addresses, to), Chunk([], PseudoFloat.Encode(value))))
  }

  function DataChunk(data: Calldata): Chunk {
    Chunk([], Vlq.Encode(|data|) + data)
  }

  function ActionChunk(style: Style, addresses: Entries<Address>, action: ActionData): Option<Chunk> {
    var address := AddressChunk(addresses, action.contractAddress);
    match style
    case Fallback =>
      Some(Join(Chunk([], PseudoFloat.Encode(action.ethValue)),
                Join(address, DataChunk(action.encodedFunction))))
    case Erc20 =>
      var call :- Parse(action.encodedFunction);
      Some(Join(address, CallChunk(addresses, call)))
  }

  function ActionsChunk(style: Style, addresses: Entries<Address>, actions: seq<ActionData>): Option<Chunk> {
    if actions == [] then Some(Chunk([], []))
    else
      var first :- ActionChunk(style, addresses, actions[0]);
      var others :- ActionsChunk(style, addresses, actions[1..]);
      Some(Join(first, others))
  }

  predicate EndsWithPayment(deployment: Deployment, actions: seq<ActionData>) {
    actions != [] && IsTxOriginPayment(deployment, actions[|actions| - 1])
  }

  /** The actions written one by one: all but a final payment to tx.origin. */
  function RegularActions(deployment: Deployment, actions: seq<ActionData>): seq<ActionData> {
    if EndsWithPayment(deployment, actions) then actions[..|actions| - 1] else actions
  }

  function HeadChunk(keys: Entries<PublicKey>, key: PublicKey, op: Operation, pays: bool): Chunk {
    Join(KeyChunk(keys, key), NumbersChunk(op, pays))
  }

  function NumbersChunk(op: Operation, pays: bool): Chunk {
    Chunk([pays], Vlq.Encode(op.nonce) + (PseudoFloat.Encode(op.gas) + Vlq.Encode(|op.actions|)))
  }

  function PaymentBytes(deployment: Deployment, actions: seq<ActionData>): seq<Byte> {
    if EndsWithPayment(deployment, actions) then PseudoFloat.Encode(actions[|actions| - 1].ethValue) else []
  }

  function OperationChunk(style: Style, deployment: Deployment, registries: Registries, key: PublicKey,
                          op: Operation): Option<Chunk> {
    var actions :- ActionsChunk(style, registries.addresses, RegularActions(deployment, op.actions));
    Some(Join(HeadChunk(registries.keys, key, op, EndsWithPayment(deployment, op.actions)),
              Join(actions, Chunk([], PaymentBytes(deployment, op.actions)))))
  }

  /** The whole stream, or None where the compressor gives up or throws. */
  function Compress(style: Style, deployment: Deployment, registries: Registries, key: PublicKey,
                    op: Operation): Option<seq<Byte>> {
    var chunk :- OperationChunk(style, deployment, registries, key, op);
    var bits :- BitStream.Encode(chunk.bits);
    Some(bits + chunk.bytes)
  }

  // ---- Reading, as the expanders do ----

  datatype Cursor = Cursor(bits: nat, stream: seq<Byte>)

  /** A registry index or twenty literal bytes. */
  function ExpandAddress(addresses: Entries<Address>, c: Cursor): (r: Option<(Address, Cursor)>)
    ensures r.Some? ==> |r.value.1.stream| <= |c.stream|
  {
    var (indexed, bits) := BitStream.DecodeBit(c.bits);
    if indexed then
      var (id, stream) :- RegIndex.Decode(c.stream);
      var address :- Lookup(addresses, ZERO_ADDRESS, id);
      Some((address, Cursor(bits, stream)))
    else if |c.stream| < 20 then None
    else Some((c.stream[..20], Cursor(bits, c.stream[20..])))
  }

  function ExpandKey(keys: Entries<PublicKey>, c: Cursor): (r: Option<(PublicKey, Cursor)>)
    ensures r.Some? ==> |r.value.1.stream| <= |c.stream|
  {
    var (indexed, bits) := BitStream.DecodeBit(c.bits);
    if indexed then
      var (id, stream) :- RegIndex.Decode(c.stream);
      var key :- Lookup(keys, ZERO_KEY, id);
      Some((key, Cursor(bits, stream)))
    else if |c.stream| < 128 then None
    else Some((DecodeWords(c.stream[..128], 4), Cursor(bits, c.stream[128..])))
  }

  function ExpandValue(c: Cursor): (r: Option<(Word, Cursor)>)
    ensures r.Some? ==> |r.value.1.stream| <= |c.stream|
  {
    var (value, stream) :- PseudoFloat.Decode(c.stream);
    Some((value, Cursor(c.bits, stream)))
  }

  function ExpandVlq(c: Cursor): (r: Option<(Word, Cursor)>)
    ensures r.Some? ==> |r.value.1.stream| <= |c.stream|
  {
    var (value, stream) :- Vlq.Decode(c.stream);
    Some((value, Cursor(c.bits, stream)))
  }

  /** The method index, then its arguments, rebuilt as calldata. */
  function ExpandCall(addresses: Entries<Address>, c: Cursor): (r: Option<(Calldata, Cursor)>)
    ensures r.Some? ==> |r.value.1.stream| <= |c.stream|
  {
    var (methodIndex, c1) :- ExpandVlq(c);
    if methodIndex == 0 then
      var (to, c2) :- ExpandAddress(addresses, c1);
      var (value, c3) :- ExpandValue(c2);
      Some((Erc20Call.Encode(Transfer(to, value)), c3))
    else if methodIndex == 1 then
      var (from, c2) :- ExpandAddress(addresses, c1);
      var (to, c3) :- ExpandAddress(addresses, c2);
      var (value, c4) :- ExpandValue(c3);
      Some((Erc20Call.Encode(TransferFrom(from, to, value)), c4))
    else if methodIndex == 2 then
      var (spender, c2) :- ExpandAddress(addresses, c1);
      var (value, c3) :- ExpandValue(c2);
      Some((Erc20Call.Encode(Approve(spender, value)), c3))
    else if methodIndex == 3 then
      var (spender, c2) :- ExpandAddress(addresses, c1);
      Some((Erc20Call.Encode(Approve(spender, MAX_UINT256)), c2))
    else if methodIndex == 4 then
      var (to, c2) :- ExpandAddress(addresses, c1);
      var (value, c3) :- ExpandValue(c2);
      Some((Erc20Call.Encode(Mint(to, value)), c3))
    else None
  }

  /** Five methods have an index; any other reverts. */
  lemma UnknownMethodReverts(addresses: Entries<Address>, bits: nat, methodIndex: Word, rest: seq<Byte>)
    requires methodIndex >= 5
    ensures ExpandCall(addresses, Cursor(bits, Vlq.Encode(methodIndex) + rest)).None?
  {
    Vlq.WordRoundTrip(methodIndex, rest);
  }

  function ExpandData(c: Cursor): (r: Option<(Calldata, Cursor)>)
    ensures r.Some? ==> |r.value.1.stream| <= |c.stream|
  {
    var (length, c1) :- ExpandVlq(c);
    if |c1.stream| < length then None
    else Some((c1.stream[..length], Cursor(c1.bits, c1.stream[length..])))
  }

  function ExpandAction(style: Style, addresses: Entries<Address>, c: Cursor)
    : (r: Option<(ActionData, Cursor)>)
    ensures r.Some? ==> |r.value.1.stream| <= |c.stream|
  {
    match style
    case Fallback =>
      var (ethValue, c1) :- ExpandValue(c);
      var (address, c2) :- ExpandAddress(addresses, c1);
      var (data, c3) :- ExpandData(c2);
      Some((ActionData(ethValue, address, data), c3))
    case Erc20 =>
      var (address, c1) :- ExpandAddress(addresses, c);
      var (data, c2) :- ExpandCall(addresses, c1);
      Some((ActionData(0, address, data), c2))
  }

  function ExpandActions(style: Style, addresses: Entries<Address>, c: Cursor, count: nat)
    : (r: Option<(seq<ActionData>, Cursor)>)
    ensures r.Some? ==> |r.value.0| == count && |r.value.1.stream| <= |c.stream|
    decreases count
  {
    if count == 0 then Some(([], c))
    else
      var (first, c1) :- ExpandAction(style, addresses, c);
      var (others, c2) :- ExpandActions(style, addresses, c1, count - 1);
      Some(([first] + others, c2))
  }

  datatype Head = Head(key: PublicKey, nonce: Word, gas: Word, count: Word, pays: bool)

  function ExpandHead(keys: Entries<PublicKey>, c: Cursor): (r: Option<(Head, Cursor)>)
    ensures r.Some? ==> |r.value.1.stream| <= |c.stream|
  {
    var (key, c1) :- ExpandKey(keys, c);
    var (nonce, c2) :- ExpandVlq(c1);
    var (gas, c3) :- ExpandValue(c2);
    var (count, c4) :- ExpandVlq(c3);
    var (pays, bits) := BitStream.DecodeBit(c4.bits);
    Some((Head(key, nonce, gas, count, pays), Cursor(bits, c4.stream)))
  }

  /** The payment to tx.origin that the head announces, if any, and the finished operation. */
  function ExpandPayment(deployment: Deployment, head: Head, actions: seq<ActionData>, c: Cursor)
    : (r: Option<(PublicKey, Operation, seq<Byte>)>)
    requires |actions| + (if head.pays then 1 else 0) == head.count
    ensures r.Some? ==> |r.value.2| <= |c.stream|
  {
    if !head.pays then Some((head.key, Operation(head.nonce, head.gas, actions), c.stream))
    else
      var (ethValue, c1) :- ExpandValue(c);
      var payment := ActionData(ethValue, deployment.aggregatorUtilities, SEND_ETH_TO_TX_ORIGIN);
      Some((head.key, Operation(head.nonce, head.gas, actions + [payment]), c1.stream))
  }

  function ExpandFrom(style: Style, deployment: Deployment, registries: Registries, c: Cursor)
    : (r: Option<(PublicKey, Operation, seq<Byte>)>)
    ensures r.Some? ==> |r.value.2| <= |c.stream|
  {
    var (head, c1) :- ExpandHead(registries.keys, c);
    ExpandBody(style, deployment, registries.addresses, head, c1)
  }

  function ExpandBody(style: Style, deployment: Deployment, addresses: Entries<Address>, head: Head, c: Cursor)
    : (r: Option<(PublicKey, Operation, seq<Byte>)>)
    ensures r.Some? ==> |r.value.2| <= |c.stream|
  {
    if head.pays && head.count == 0 then None  // actionLen -= 1 underflows
    else
      var regular := if head.pays then head.count - 1 else head.count;
      var (actions, c1) :- ExpandActions(style, addresses, c, regular);
      ExpandPayment(deployment, head, actions, c1)
  }

  /** The expander: the sender's key, the operation, and the bytes it did not read. */
  function Expand(style: Style, deployment: Deployment, registries: Registries, stream: seq<Byte>)
    : (r: Option<(PublicKey, Operation, seq<Byte>)>)
    ensures r.Some? ==> |r.value.2| < |stream|
  {
    var (bits, rest) :- Vlq.Decode(stream);
    ExpandFrom(style, deployment, registries, Cursor(bits, rest))
  }

  // ---- What survives ----

  /** An unregistered entry is written literally; a registered one by index, which the contract
      resolves unless it is the zero entry. */
  predicate Resolves<T(==)>(entries: seq<T>, zero: T, x: T) {
    x == zero ==> x !in entries
  }

  predicate CallResolves(addresses: Entries<Address>, call: Call) {
    match call
    case Transfer(to, _) => Resolves(addresses, ZERO_ADDRESS, to)
    case TransferFrom(from, to, _) =>
      Resolves(addresses, ZERO_ADDRESS, from) && Resolves(addresses, ZERO_ADDRESS, to)
    case Approve(spender, _) => Resolves(addresses, ZERO_ADDRESS, spender)
    case Mint(to, _) => Resolves(addresses, ZERO_ADDRESS, to)
  }

  predicate ActionResolves(style: Style, addresses: Entries<Address>, action: ActionData) {
    && Resolves(addresses, ZERO_ADDRESS, action.contractAddress)
    && (style.Erc20? && Parse(action.encodedFunction).Some? ==>
          CallResolves(addresses, Parse(action.encodedFunction).value))
  }

  predicate OperationResolves(style: Style, deployment: Deployment, registries: Registries, key: PublicKey,
                              op: Operation) {
    && Resolves(registries.keys, ZERO_KEY, key)
    && forall a :: a in RegularActions(deployment, op.actions) ==> ActionResolves(style, registries.addresses, a)
  }

  /** The ERC20 form has no place for a regular action's ether. */
  function Delivered(style: Style, action: ActionData): ActionData {
    if style.Erc20? then action.(ethValue := 0) else action
  }

  function DeliveredAll(style: Style, actions: seq<ActionData>): (r: seq<ActionData>)
    ensures |r| == |actions|
  {
    if actions == [] then [] else [Delivered(style, actions[0])] + DeliveredAll(style, actions[1..])
  }

  function DeliveredOperation(style: Style, deployment: Deployment, op: Operation): Operation {
    var regular := RegularActions(deployment, op.actions);
    var actions: Actions := DeliveredAll(style, regular) + op.actions[|regular|..];
    Operation(op.nonce, op.gas, actions)
  }
}
