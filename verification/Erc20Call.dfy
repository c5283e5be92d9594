/** The ERC20 calls that have a short form: their ABI calldata, recognised by the client
    (Erc20Compressor.ts) and rebuilt by the contract (ERC20Expander.sol). */
module Erc20Call {
  import opened Wrappers
  import opened Bytes
  import opened Operations

  datatype Call =
    | Transfer(to: Address, value: Word)
    | TransferFrom(from: Address, to: Address, value: Word)
    | Approve(spender: Address, value: Word)
    | Mint(to: Address, value: Word)

  // First four bytes of the hash of each signature.
  const TRANSFER: seq<Byte> := [0xa9, 0x05, 0x9c, 0xbb]
  const TRANSFER_FROM: seq<Byte> := [0x23, 0xb8, 0x72, 0xdd]
  const APPROVE: seq<Byte> := [0x09, 0x5e, 0xa7, 0xb3]
  const MINT: seq<Byte> := [0x40, 0xc1, 0x0f, 0x19]

  const MAX_UINT256: Word := TWO_256 - 1

  const PADDING: seq<Byte> := [0, 0, 0, 0, 0, 0, 0, 0, 0, 0, 0, 0]

  /** An address as an ABI word: twelve zero bytes, then the address. */
  function AddressWord(a: Address): (s: seq<Byte>)
    ensures |s| == 32
  {
    PADDING + a
  }

  /** The ABI decoder refuses a word whose upper twelve bytes are not zero. */
  function ReadAddress(word: seq<Byte>): Option<Address>
    requires |word| == 32
  {
    if word[..12] == PADDING then Some(word[12..]) else None
  }

  /** `abi.encodeWithSignature` for the call. */
  function Encode(call: Call): Calldata {
    match call
    case Transfer(to, value) => TRANSFER + AddressWord(to) + EncodeWord(value)
    case TransferFrom(from, to, value) =>
      TRANSFER_FROM + AddressWord(from) + AddressWord(to) + EncodeWord(value)
    case Approve(spender, value) => APPROVE + AddressWord(spender) + EncodeWord(value)
    case Mint(to, value) => MINT + AddressWord(to) + EncodeWord(value)
  }

  predicate IsMethod(selector: seq<Byte>, data: seq<Byte>) {
    selector <= data
  }

  /** `hexDataSlice(data, 4)`: empty when there are fewer than four bytes. */
  function Parameters(data: seq<Byte>): seq<Byte> {
    if |data| < 4 then [] else data[4..]
  }

  function ParseAddressAndValue(parameters: seq<Byte>): Option<(Address, Word)> {
    if |parameters| != 2 * 32 then None else
      var to :- ReadAddress(parameters[..32]);
      Some((to, DecodeWord(parameters[32..])))
  }

  function ParseTwoAddressesAndValue(parameters: seq<Byte>): Option<(Address, Address, Word)> {
    if |parameters| != 3 * 32 then None else
      var from :- ReadAddress(parameters[..32]);
      var to :- ReadAddress(parameters[32..64]);
      Some((from, to, DecodeWord(parameters[64..])))
  }

  /** The call the calldata makes, if it is one with a short form. */
  function Parse(data: seq<Byte>): Option<Call> {
    var parameters := Parameters(data);
    if IsMethod(TRANSFER, data) then
      var (to, value) :- ParseAddressAndValue(parameters);
      Some(Transfer(to, value))
    else if IsMethod(TRANSFER_FROM, data) then
      var (from, to, value) :- ParseTwoAddressesAndValue(parameters);
      Some(TransferFrom(from, to, value))
    else if IsMethod(APPROVE, data) then
      var (spender, value) :- ParseAddressAndValue(parameters);
      Some(Approve(spender, value))
    else if IsMethod(MINT, data) then
      var (to, value) :- ParseAddressAndValue(parameters);
      Some(Mint(to, value))
    else None
  }

  /** Where an argument stands in calldata of three or four parts: twelve zero bytes and an address, or a number. */
  predicate AddressAt(data: seq<Byte>, at: nat, address: Address) {
    && at + 32 <= |data|
    && data[at..at + 12] == [0, 0, 0, 0, 0, 0, 0, 0, 0, 0, 0, 0] && data[at + 12..at + 32] == address
  }

  predicate NumberLast(data: seq<Byte>, value: Word) {
    |data| >= 32 && data[|data| - 32..] == EncodeWord(value)
  }

  lemma ArgumentsAt(selector: seq<Byte>, a: Address, value: Word)
    requires |selector| == 4
    ensures var data := selector + AddressWord(a) + EncodeWord(value);
            data[..4] == selector && AddressAt(data, 4, a) && NumberLast(data, value)
  {
    var data := selector + AddressWord(a) + EncodeWord(value);
    assert data[4..16] == PADDING && data[16..36] == a && data[36..] == EncodeWord(value);
  }

  /** The calldata byte for byte. */
  lemma Layout(call: Call)
    ensures var data := Encode(call);
            match call
            case Transfer(to, value) =>
              |data| == 68 && data[..4] == [0xa9, 0x05, 0x9c, 0xbb] && AddressAt(data, 4, to) && NumberLast(data, value)
            case TransferFrom(from, to, value) =>
              && |data| == 100 && data[..4] == [0x23, 0xb8, 0x72, 0xdd]
              && AddressAt(data, 4, from) && AddressAt(data, 36, to) && NumberLast(data, value)
            case Approve(spender, value) =>
              && |data| == 68 && data[..4] == [0x09, 0x5e, 0xa7, 0xb3]
              && AddressAt(data, 4, spender) && NumberLast(data, value)
            case Mint(to, value) =>
              |data| == 68 && data[..4] == [0x40, 0xc1, 0x0f, 0x19] && AddressAt(data, 4, to) && NumberLast(data, value)
  {
    match call
    case Transfer(to, value) => ArgumentsAt(TRANSFER, to, value);
    case TransferFrom(from, to, value) =>
      var data := Encode(call);
      assert data[4..16] == PADDING && data[16..36] == from;
      assert data[36..48] == PADDING && data[48..68] == to && data[68..] == EncodeWord(value);
    case Approve(spender, value) => ArgumentsAt(APPROVE, spender, value);
    case Mint(to, value) => ArgumentsAt(MINT, to, value);
  }

  lemma AddressWordCanonical(word: seq<Byte>, a: Address)
    requires |word| == 32
    ensures ReadAddress(word) == Some(a) <==> word == AddressWord(a)
  {
    assert word == word[..12] + word[12..];
    assert AddressWord(a)[..12] == PADDING && AddressWord(a)[12..] == a;
  }

  lemma AddressAndValueCanonical(p: seq<Byte>, to: Address, value: Word)
    ensures ParseAddressAndValue(p) == Some((to, value)) <==> p == AddressWord(to) + EncodeWord(value)
  {
    var q := AddressWord(to) + EncodeWord(value);
    assert q[..32] == AddressWord(to) && q[32..] == EncodeWord(value);
    AddressWordCanonical(q[..32], to);
    WordRoundTrip(value);
    if |p| == 64 {
      assert p == p[..32] + p[32..];
      AddressWordCanonical(p[..32], to);
      WordCanonical(p[32..]);
    }
  }

  lemma TwoAddressesAndValueCanonical(p: seq<Byte>, from: Address, to: Address, value: Word)
    ensures ParseTwoAddressesAndValue(p) == Some((from, to, value)) <==>
            p == AddressWord(from) + AddressWord(to) + EncodeWord(value)
  {
    var q := AddressWord(from) + AddressWord(to) + EncodeWord(value);
    assert q[..32] == AddressWord(from) && q[32..64] == AddressWord(to) && q[64..] == EncodeWord(value);
    AddressWordCanonical(q[..32], from);
    AddressWordCanonical(q[32..64], to);
    WordRoundTrip(value);
    if |p| == 96 {
      assert p == p[..32] + p[32..64] + p[64..];
      AddressWordCanonical(p[..32], from);
      AddressWordCanonical(p[32..64], to);
      WordCanonical(p[64..]);
    }
  }

  /** Recognition is exact: calldata parses to a call just when it is that call's ABI encoding,
      byte for byte. */
  lemma ParseIsInverseOfEncode(data: seq<Byte>, call: Call)
    ensures Parse(data) == Some(call) <==> data == Encode(call)
  {
    FirstByteDecides(data);
    match call
    case Transfer(to, value) => TransferCanonical(data, to, value);
    case TransferFrom(from, to, value) => TransferFromCanonical(data, from, to, value);
    case Approve(spender, value) => ApproveCanonical(data, spender, value);
    case Mint(to, value) => MintCanonical(data, to, value);
  }

  lemma FirstByteDecides(data: seq<Byte>)
    ensures IsMethod(TRANSFER, data) ==> data[0] == 0xa9
    ensures IsMethod(TRANSFER_FROM, data) ==> data[0] == 0x23
    ensures IsMethod(APPROVE, data) ==> data[0] == 0x09
    ensures IsMethod(MINT, data) ==> data[0] == 0x40
  {
  }

  lemma TransferCanonical(data: seq<Byte>, to: Address, value: Word)
    ensures Parse(data) == Some(Transfer(to, value)) <==> data == Encode(Transfer(to, value))
  {
    FirstByteDecides(data);
    Split(TRANSFER, data, AddressWord(to) + EncodeWord(value), Transfer(to, value));
    AddressAndValueCanonical(Parameters(data), to, value);
  }

  lemma TransferFromCanonical(data: seq<Byte>, from: Address, to: Address, value: Word)
    ensures Parse(data) == Some(TransferFrom(from, to, value)) <==> data == Encode(TransferFrom(from, to, value))
  {
    FirstByteDecides(data);
    Split(TRANSFER_FROM, data, AddressWord(from) + AddressWord(to) + EncodeWord(value), TransferFrom(from, to, value));
    TwoAddressesAndValueCanonical(Parameters(data), from, to, value);
  }

  lemma ApproveCanonical(data: seq<Byte>, spender: Address, value: Word)
    ensures Parse(data) == Some(Approve(spender, value)) <==> data == Encode(Approve(spender, value))
  {
    FirstByteDecides(data);
    Split(APPROVE, data, AddressWord(spender) + EncodeWord(value), Approve(spender, value));
    AddressAndValueCanonical(Parameters(data), spender, value);
  }

  lemma MintCanonical(data: seq<Byte>, to: Address, value: Word)
    ensures Parse(data) == Some(Mint(to, value)) <==> data == Encode(Mint(to, value))
  {
    FirstByteDecides(data);
    Split(MINT, data, AddressWord(to) + EncodeWord(value), Mint(to, value));
    AddressAndValueCanonical(Parameters(data), to, value);
  }

  lemma Split(selector: seq<Byte>, data: seq<Byte>, parameters: seq<Byte>, call: Call)
    requires |selector| == 4
    requires Encode(call) == selector + parameters
    ensures data == Encode(call) <==> IsMethod(selector, data) && Parameters(data) == parameters
  {
    if IsMethod(selector, data) {
      assert data == selector + data[4..];
    }
    assert (selector + parameters)[4..] == parameters;
  }
}
