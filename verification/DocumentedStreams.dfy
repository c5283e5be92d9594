/** The byte strings that the repository's tests spell out for the encoders and for whole operations
    (contracts/test). */
module DocumentedStreams {
  import opened Wrappers
  import opened Bytes
  import opened Operations
  import opened Registry
  import opened OperationStream
  import BitStream
  import Bundles
  import Compressors
  import Erc20Call
  import Framing
  import PseudoFloat
  import RegIndex
  import Registration
  import Vlq

  lemma OneGroup(n: nat)
    requires n < 128
    ensures Vlq.Encode(n) == [n]
  {
    assert Vlq.Leading(0) == [];
  }

  lemma TwoGroups(n: nat)
    requires 128 <= n < 128 * 128
    ensures Vlq.Encode(n) == [128 + n / 128, n % 128]
  {
    assert Vlq.Leading(n / 128) == Vlq.Leading(0) + [128 + n / 128];
  }

  lemma ThreeGroups(n: nat)
    requires 128 * 128 <= n < 128 * 128 * 128
    ensures Vlq.Encode(n) == [128 + n / 128 / 128, 128 + n / 128 % 128, n % 128]
  {
    var high := n / 128 / 128;
    assert Vlq.Leading(high) == Vlq.Leading(0) + [128 + high];
    assert Vlq.Leading(n / 128) == Vlq.Leading(high) + [128 + n / 128 % 128];
  }

  lemma Vlqs()
    ensures Vlq.Encode(0) == [0x00]
    ensures Vlq.Encode(259) == [0x82, 0x03]
    ensures Vlq.Encode(32_771) == [0x82, 0x80, 0x03]
    ensures Vlq.Encode(185_597) == [0x8b, 0xa9, 0x7d]
  {
    OneGroup(0);
    TwoGroups(259);
    ThreeGroups(32_771);
    ThreeGroups(185_597);
  }

  lemma Powers()
    ensures PseudoFloat.Pow10(11) == 100_000_000_000
    ensures PseudoFloat.Pow10(12) == 1_000_000_000_000
    ensures PseudoFloat.Pow10(14) == 100_000_000_000_000
    ensures PseudoFloat.Pow10(17) == 100_000_000_000_000_000
    ensures PseudoFloat.Pow10(18) == 1_000_000_000_000_000_000
  {
    assert PseudoFloat.Pow10(6) == 1_000_000;
    assert PseudoFloat.Pow10(12) == 1_000_000_000_000;
    assert PseudoFloat.Pow10(18) == 1_000_000_000_000_000_000;
  }

  // ---- Operations ----

  const ETHER: Word := 1_000_000_000_000_000_000

  /** 0.000005 ether. */
  const PAYMENT: Word := 5_000_000_000_000

  lemma NoZeroAtTheEnd(x: nat)
    requires x % 10 != 0
    ensures PseudoFloat.Encode(x) == [8 + x % 8] + Vlq.Encode(x / 8)
  {
  }

  lemma Gases()
    ensures PseudoFloat.Encode(65_194) == [0x0a, 0xbf, 0x55]
    ensures PseudoFloat.Encode(110_683) == [0x0b, 0xec, 0x0b]
    ensures PseudoFloat.Encode(92_483) == [0x0b, 0xda, 0x28]
    ensures PseudoFloat.Encode(58_555) == [0x0b, 0xb9, 0x17]
    ensures PseudoFloat.Encode(224_735) == [0x0f, 0x81, 0xdb, 0x3b]
  {
    NoZeroAtTheEnd(65_194);
    TwoGroups(65_194 / 8);
    NoZeroAtTheEnd(110_683);
    TwoGroups(110_683 / 8);
    NoZeroAtTheEnd(92_483);
    TwoGroups(92_483 / 8);
    NoZeroAtTheEnd(58_555);
    TwoGroups(58_555 / 8);
    NoZeroAtTheEnd(224_735);
    ThreeGroups(224_735 / 8);
  }

  lemma Ethers()
    ensures PseudoFloat.Encode(ETHER) == [0x99, 0x00]
    ensures PseudoFloat.Encode(100_000_000_000_000_000) == [0x91, 0x00]
    ensures PseudoFloat.Encode(12_300_000_000_000_000) == [0x7b, 0x0f]
    ensures PseudoFloat.Encode(PAYMENT) == [0x6d, 0x00]
    ensures PseudoFloat.Encode(44_100_000_000_000) == [0x61, 0x37]
  {
    Powers();
    PseudoFloat.TwoBytes(1, 18);
    PseudoFloat.TwoBytes(1, 17);
    PseudoFloat.TwoBytes(123, 14);
    PseudoFloat.TwoBytes(5, 12);
    PseudoFloat.TwoBytes(441, 11);
  }

  lemma Indices()
    ensures RegIndex.Encode(0) == [0, 0, 0]
    ensures RegIndex.Encode(1) == [0, 0, 1]
    ensures RegIndex.Encode(2) == [0, 0, 2]
    ensures RegIndex.Encode(256) == [0, 1, 0]
    ensures RegIndex.Encode(8_388_608) == [0x81, 0, 0, 0]
  {
    OneGroup(0);
    TwoGroups(128);
    Fixed(0);
    Fixed(1);
    Fixed(2);
    Fixed(256);
  }

  lemma Fixed(n: nat)
    ensures ToBigEndian(n, 2) == [n / 256 % 256, n % 256]
  {
    assert ToBigEndian(n / 256, 1) == ToBigEndian(n / 256 / 256, 0) + [n / 256 % 256];
  }

  function Bit(b: bool): nat {
    if b then 1 else 0
  }

  lemma FourBits(a: bool, b: bool, c: bool, d: bool)
    ensures BitStream.LittleEndian([a, b, c, d]) == Bit(a) + 2 * Bit(b) + 4 * Bit(c) + 8 * Bit(d)
  {
    ThreeBits(b, c, d);
    assert [a, b, c, d][1..] == [b, c, d];
  }

  lemma ThreeBits(a: bool, b: bool, c: bool)
    ensures BitStream.LittleEndian([a, b, c]) == Bit(a) + 2 * Bit(b) + 4 * Bit(c)
  {
    assert [c][1..] == [] && BitStream.LittleEndian([c]) == Bit(c);
    assert [b, c][1..] == [c] && BitStream.LittleEndian([b, c]) == Bit(b) + 2 * Bit(c);
    assert [a, b, c][1..] == [b, c];
  }

  lemma Bits()
    ensures BitStream.Encode([true, false, true]) == Some([0x05])
    ensures BitStream.Encode([true, true, true]) == Some([0x07])
    ensures BitStream.Encode([true, true, true, true]) == Some([0x0f])
    ensures BitStream.Encode([true, false, true, true]) == Some([0x0d])
  {
    ThreeBits(true, false, true);
    ThreeBits(true, true, true);
    FourBits(true, true, true, true);
    FourBits(true, false, true, true);
    OneGroup(5);
    OneGroup(7);
    OneGroup(15);
    OneGroup(13);
  }

  /** What an operation of a registered key with one regular action is written as, if its bits are few. */
  lemma OneRegular(style: Style, d: Deployment, r: Registries, key: PublicKey, id: nat, op: Operation,
                   regular: ActionData, chunk: Chunk, first: Byte)
    requires ReverseLookup(r.keys, key) == Some(id)
    requires RegularActions(d, op.actions) == [regular]
    requires ActionChunk(style, r.addresses, regular) == Some(chunk)
    requires BitStream.Encode([true] + [EndsWithPayment(d, op.actions)] + chunk.bits) == Some([first])
    ensures Compress(style, d, r, key, op)
            == Some([first] + (HeadBytes(id, op) + (chunk.bytes + PaymentBytes(d, op.actions))))
  {
    Compressors.ActionsChunkOne(style, r.addresses, regular);
    NoBits([true] + [EndsWithPayment(d, op.actions)], chunk.bits);
  }

  lemma NoBits(head: seq<bool>, bits: seq<bool>)
    ensures head + (bits + []) == head + bits
  {
  }

  /** A call of a registered address without data. */
  lemma EmptyCall(addresses: Entries<Address>, call: ActionData, id: nat)
    requires ReverseLookup(addresses, call.contractAddress) == Some(id) && call.encodedFunction == []
    ensures ActionChunk(Fallback, addresses, call)
            == Some(Chunk([true], PseudoFloat.Encode(call.ethValue) + (RegIndex.Encode(id) + [0])))
  {
    OneGroup(0);
    assert DataChunk([]).bytes == [0];
    assert AddressChunk(addresses, call.contractAddress) == Chunk([true], RegIndex.Encode(id));
    assert [] + ([true] + []) == [true];
  }

  /** A token call between registered addresses: transfer, or approval of the maximum. */
  lemma TokenCall(addresses: Entries<Address>, action: ActionData, token: nat, call: Erc20Call.Call, to: Address,
                  id: nat)
    requires ReverseLookup(addresses, action.contractAddress) == Some(token)
    requires ReverseLookup(addresses, to) == Some(id)
    requires action.encodedFunction == Erc20Call.Encode(call)
    requires call == Erc20Call.Approve(to, Erc20Call.MAX_UINT256)
             || (call.Transfer? && call.to == to)
    ensures ActionChunk(Erc20, addresses, action)
            == Some(Chunk([true, true],
                          RegIndex.Encode(token)
                          + if call.Transfer? then [0x00] + (RegIndex.Encode(id) + PseudoFloat.Encode(call.value))
                            else [0x03] + RegIndex.Encode(id)))
  {
    Erc20Call.ParseIsInverseOfEncode(action.encodedFunction, call);
    OneGroup(0);
    OneGroup(3);
    assert AddressChunk(addresses, action.contractAddress) == Chunk([true], RegIndex.Encode(token));
    assert AddressChunk(addresses, to) == Chunk([true], RegIndex.Encode(id));
    assert [true] + ([] + ([true] + [])) == [true, true] && [true] + ([] + [true]) == [true, true];
  }

  predicate IsPayment(d: Deployment, action: ActionData) {
    IsTxOriginPayment(d, action) && action.ethValue == PAYMENT
  }

  lemma PaymentLast(d: Deployment, call: ActionData, payment: ActionData)
    requires IsPayment(d, payment)
    ensures EndsWithPayment(d, [call, payment]) && RegularActions(d, [call, payment]) == [call]
    ensures PaymentBytes(d, [call, payment]) == PseudoFloat.Encode(PAYMENT)
  {
    var actions := [call, payment];
    assert actions[1] == payment && actions[..1] == [call];
  }

  /** The index of the key, then the numbers. */
  function HeadBytes(id: nat, op: Operation): seq<Byte> {
    RegIndex.Encode(id) + (Vlq.Encode(op.nonce) + (PseudoFloat.Encode(op.gas) + Vlq.Encode(|op.actions|)))
  }

  /** Nonce 0 and the key of index 0. */
  lemma HeadIs(op: Operation, gasBytes: seq<Byte>, count: nat)
    requires op.nonce == 0 && PseudoFloat.Encode(op.gas) == gasBytes && |op.actions| == count < 128
    ensures HeadBytes(0, op) == [0, 0, 0] + ([0] + (gasBytes + [count]))
  {
    OneGroup(0);
    OneGroup(count);
    assert RegIndex.Encode(0) == [0, 0, 0] by { Indices(); }
  }

  lemma NothingAfter(s: seq<Byte>)
    ensures s + [] == s
  {
  }

  /** A call without data of a registered address by a registered key. */
  lemma EmptyCallStream(d: Deployment, r: Registries, key: PublicKey, id: nat, op: Operation, call: ActionData, to: nat,
                        pays: bool)
    requires ReverseLookup(r.keys, key) == Some(id) && ReverseLookup(r.addresses, call.contractAddress) == Some(to)
    requires call.encodedFunction == []
    requires RegularActions(d, op.actions) == [call] && EndsWithPayment(d, op.actions) == pays
    ensures Compress(Fallback, d, r, key, op)
            == Some([if pays then 0x07 else 0x05]
                    + (HeadBytes(id, op) + (PseudoFloat.Encode(call.ethValue) + (RegIndex.Encode(to) + [0])
                                            + PaymentBytes(d, op.actions))))
  {
    var chunk := Chunk([true], PseudoFloat.Encode(call.ethValue) + (RegIndex.Encode(to) + [0]));
    EmptyCall(r.addresses, call, to);
    assert BitStream.Encode([true] + [pays] + chunk.bits) == Some([if pays then 0x07 else 0x05]) by {
      Bits();
      assert [true] + [pays] + chunk.bits == [true, pays, true];
    }
    OneRegular(Fallback, d, r, key, id, op, call, chunk, if pays then 0x07 else 0x05);
  }

  /** A token call between registered addresses by a registered key. */
  lemma TokenCallStream(d: Deployment, r: Registries, key: PublicKey, id: nat, op: Operation, call: ActionData,
                        token: nat, bytes: seq<Byte>, pays: bool)
    requires ReverseLookup(r.keys, key) == Some(id)
    requires ActionChunk(Erc20, r.addresses, call) == Some(Chunk([true, true], RegIndex.Encode(token) + bytes))
    requires RegularActions(d, op.actions) == [call] && EndsWithPayment(d, op.actions) == pays
    ensures Compress(Erc20, d, r, key, op)
            == Some([if pays then 0x0f else 0x0d]
                    + (HeadBytes(id, op) + (RegIndex.Encode(token) + bytes + PaymentBytes(d, op.actions))))
  {
    var chunk := Chunk([true, true], RegIndex.Encode(token) + bytes);
    assert BitStream.Encode([true] + [pays] + chunk.bits) == Some([if pays then 0x0f else 0x0d]) by {
      Bits();
      assert [true] + [pays] + chunk.bits == [true, pays, true, true];
    }
    OneRegular(Erc20, d, r, key, id, op, call, chunk, if pays then 0x0f else 0x0d);
  }

  /** One ether to the address of index 1, nonce 0, gas 65194. */
  lemma EtherTransfer(d: Deployment, r: Registries, key: PublicKey, op: Operation, call: ActionData)
    requires ReverseLookup(r.keys, key) == Some(0) && ReverseLookup(r.addresses, call.contractAddress) == Some(1)
    requires call.ethValue == ETHER && call.encodedFunction == []
    requires op.nonce == 0 && op.gas == 65_194 && op.actions == [call]
    ensures Compress(Fallback, d, r, key, op)
            == Some([0x05] + ([0, 0, 0] + ([0] + ([0x0a, 0xbf, 0x55] + [1])) + ([0x99, 0x00] + ([0, 0, 1] + [0]))))
  {
    EmptyCallStream(d, r, key, 0, op, call, 1, false);
    EtherTransferBytes();
    NothingAfter([0x99, 0x00] + ([0, 0, 1] + [0]));
    assert PseudoFloat.Encode(65_194) == [0x0a, 0xbf, 0x55] by { Gases(); }
    HeadIs(op, [0x0a, 0xbf, 0x55], 1);
  }

  lemma EtherTransferBytes()
    ensures PseudoFloat.Encode(ETHER) + (RegIndex.Encode(1) + [0]) == [0x99, 0x00] + ([0, 0, 1] + [0])
  {
    assert PseudoFloat.Encode(ETHER) == [0x99, 0x00] by { Ethers(); }
    assert RegIndex.Encode(1) == [0, 0, 1] by { Indices(); }
  }

  /** The same with gas 110683 and a payment of 0.000005 ether, which costs two bytes. */
  lemma EtherTransferAndPayment(d: Deployment, r: Registries, key: PublicKey, op: Operation, call: ActionData,
                                payment: ActionData)
    requires ReverseLookup(r.keys, key) == Some(0) && ReverseLookup(r.addresses, call.contractAddress) == Some(1)
    requires call.ethValue == ETHER && call.encodedFunction == [] && IsPayment(d, payment)
    requires op.nonce == 0 && op.gas == 110_683 && op.actions == [call, payment]
    ensures Compress(Fallback, d, r, key, op)
            == Some([0x07] + ([0, 0, 0] + ([0] + ([0x0b, 0xec, 0x0b] + [2]))
                              + ([0x99, 0x00] + ([0, 0, 1] + [0]) + [0x6d, 0x00])))
  {
    PaymentLast(d, call, payment);
    EmptyCallStream(d, r, key, 0, op, call, 1, true);
    EtherTransferBytes();
    assert PseudoFloat.Encode(PAYMENT) == [0x6d, 0x00] by { Ethers(); }
    assert PseudoFloat.Encode(110_683) == [0x0b, 0xec, 0x0b] by { Gases(); }
    HeadIs(op, [0x0b, 0xec, 0x0b], 2);
  }

  const TENTH: Word := 100_000_000_000_000_000

  /** A tenth of a token of index 0 to the address of index 2, with gas 92483 and the payment. */
  lemma TokenTransfer(d: Deployment, r: Registries, key: PublicKey, op: Operation, call: ActionData,
                      payment: ActionData, to: Address)
    requires ReverseLookup(r.keys, key) == Some(0) && ReverseLookup(r.addresses, call.contractAddress) == Some(0)
    requires ReverseLookup(r.addresses, to) == Some(2)
    requires call.encodedFunction == Erc20Call.Encode(Erc20Call.Transfer(to, TENTH)) && IsPayment(d, payment)
    requires op.nonce == 0 && op.gas == 92_483 && op.actions == [call, payment]
    ensures Compress(Erc20, d, r, key, op)
            == Some([0x0f] + ([0, 0, 0] + ([0] + ([0x0b, 0xda, 0x28] + [2]))
                              + ([0, 0, 0] + ([0x00] + ([0, 0, 2] + [0x91, 0x00])) + [0x6d, 0x00])))
  {
    TokenCall(r.addresses, call, 0, Erc20Call.Transfer(to, TENTH), to, 2);
    PaymentLast(d, call, payment);
    TokenCallStream(d, r, key, 0, op, call, 0, [0x00] + (RegIndex.Encode(2) + PseudoFloat.Encode(TENTH)), true);
    assert RegIndex.Encode(0) == [0, 0, 0] && RegIndex.Encode(2) == [0, 0, 2] by { Indices(); }
    assert PseudoFloat.Encode(PAYMENT) == [0x6d, 0x00] && PseudoFloat.Encode(TENTH) == [0x91, 0x00] by { Ethers(); }
    assert PseudoFloat.Encode(92_483) == [0x0b, 0xda, 0x28] by { Gases(); }
    HeadIs(op, [0x0b, 0xda, 0x28], 2);
  }

  /** Approval of the maximum of the token of index 0 for the address of index 2, with gas 58555. */
  lemma TokenApproval(d: Deployment, r: Registries, key: PublicKey, op: Operation, call: ActionData, spender: Address)
    requires ReverseLookup(r.keys, key) == Some(0) && ReverseLookup(r.addresses, call.contractAddress) == Some(0)
    requires ReverseLookup(r.addresses, spender) == Some(2)
    requires call.encodedFunction == Erc20Call.Encode(Erc20Call.Approve(spender, Erc20Call.MAX_UINT256))
    requires op.nonce == 0 && op.gas == 58_555 && op.actions == [call]
    ensures Compress(Erc20, d, r, key, op)
            == Some([0x0d] + ([0, 0, 0] + ([0] + ([0x0b, 0xb9, 0x17] + [1])) + ([0, 0, 0] + ([0x03] + [0, 0, 2]))))
  {
    TokenCall(r.addresses, call, 0, Erc20Call.Approve(spender, Erc20Call.MAX_UINT256), spender, 2);
    assert !IsTxOriginPayment(d, call) by { assert |call.encodedFunction| == 68; }
    TokenCallStream(d, r, key, 0, op, call, 0, [0x03] + RegIndex.Encode(2), false);
    NothingAfter([0, 0, 0] + ([0x03] + [0, 0, 2]));
    assert RegIndex.Encode(0) == [0, 0, 0] && RegIndex.Encode(2) == [0, 0, 2] by { Indices(); }
    assert PseudoFloat.Encode(58_555) == [0x0b, 0xb9, 0x17] by { Gases(); }
    HeadIs(op, [0x0b, 0xb9, 0x17], 1);
  }

  /** The registration of a wallet's own key, with gas 224735. */
  lemma KeyRegistration(d: Deployment, key: PublicKey, op: Operation, register: ActionData)
    requires register == ActionData(0, d.blsRegistration, [0x95, 0xe4, 0xbf, 0x03] + EncodeWords(key))
    requires op == Operation(0, 224_735, [register])
    ensures Registration.Compress(d, key, op)
            == Some(EncodeWords(key) + ([0] + ([0x0f, 0x81, 0xdb, 0x3b] + [0])))
  {
    OneGroup(0);
    assert PseudoFloat.Encode(op.gas) == [0x0f, 0x81, 0xdb, 0x3b] by { Gases(); }
    assert PseudoFloat.Encode(0) == [0];
  }

  // ---- Bundles ----

  /** The client's list, with the ids of the expanders. */
  const COMPRESSORS: seq<Bundles.Compressor> :=
    [(2, Bundles.Expander.Erc20), (1, Bundles.Expander.Registration), (0, Bundles.Expander.Fallback)]

  /** A bundle of one operation: the count, what is written of the operation, the signature. */
  lemma OneOperation(compressors: seq<Bundles.Compressor>, d: Deployment, r: Registries, key: PublicKey, op: Operation,
                     signature: Signature, data: seq<Byte>)
    requires Bundles.OperationBytes(compressors, d, r, key, op) == Some(data)
    ensures Bundles.BundleBytes(compressors, d, [r], Bundle([key], [op], signature))
            == Some([1] + data + EncodeWords(signature))
  {
    var write := Bundles.Writing(compressors, d, [r]);
    assert write(0, key, op) == Some(data);
    assert [key][1..] == [] && [op][1..] == [];
    assert Framing.WriteAll(write, 1, [], []) == Some([]);
    NothingAfter(data);
    assert Framing.WriteAll(write, 0, [key], [op]) == Some(data + []);
    OneGroup(1);
  }

  /** A call without data goes to the fallback compressor, the last in the list. */
  lemma EmptyCallFallsBack(d: Deployment, r: Registries, key: PublicKey, op: Operation, call: ActionData,
                           data: seq<Byte>)
    requires op.actions == [call] && call.encodedFunction == []
    requires Compress(Fallback, d, r, key, op) == Some(data)
    ensures Bundles.OperationBytes(COMPRESSORS, d, r, key, op) == Some([0] + data)
  {
    assert Erc20Call.Parse(call.encodedFunction).None?;
    assert RegularActions(d, op.actions) == [call];
    assert Compress(Erc20, d, r, key, op).None?;
    assert Registration.Compress(d, key, op).None?;
    assert Bundles.FirstAccepts(COMPRESSORS, d, r, key, op, 2);
    OneGroup(0);
    Bundles.OperationBytesAreFirst(COMPRESSORS, d, r, key, op, [0] + data);
  }

  /** A token call goes to the ERC20 compressor, the first. */
  lemma TokenCallGoesFirst(d: Deployment, r: Registries, key: PublicKey, op: Operation, data: seq<Byte>)
    requires Compress(Erc20, d, r, key, op) == Some(data)
    ensures Bundles.OperationBytes(COMPRESSORS, d, r, key, op) == Some([2] + data)
  {
    assert Bundles.FirstAccepts(COMPRESSORS, d, r, key, op, 0);
    OneGroup(2);
    Bundles.OperationBytesAreFirst(COMPRESSORS, d, r, key, op, [2] + data);
  }

  /** The registration of a wallet's own key goes to the second. */
  lemma RegistrationGoesSecond(d: Deployment, r: Registries, key: PublicKey, op: Operation, data: seq<Byte>)
    requires Registration.Compress(d, key, op) == Some(data) && |op.actions| == 1
    ensures Bundles.OperationBytes(COMPRESSORS, d, r, key, op) == Some([1] + data)
  {
    var call := op.actions[0];
    assert |call.encodedFunction| == 132 && call.encodedFunction[0] == 0x95;
    Erc20Call.FirstByteDecides(call.encodedFunction);
    assert Erc20Call.Parse(call.encodedFunction).None?;
    assert RegularActions(d, op.actions) == [call];
    assert Compress(Erc20, d, r, key, op).None?;
    assert Bundles.FirstAccepts(COMPRESSORS, d, r, key, op, 1);
    OneGroup(1);
    Bundles.OperationBytesAreFirst(COMPRESSORS, d, r, key, op, [1] + data);
  }
}
