/** Registry indices: a VLQ followed by two fixed bytes (encodeUtils.ts, lib/RegIndex.sol). */
module RegIndex {
  import opened Wrappers
  import opened Bytes
  import Vlq

  function Encode(regIndex: nat): seq<Byte> {
    Vlq.Encode(regIndex / 0x1_0000) + ToBigEndian(regIndex % 0x1_0000, 2)
  }

  function Decode(stream: seq<Byte>): (r: Option<(Word, seq<Byte>)>)
    ensures r.Some? ==> |r.value.1| < |stream|
  {
    var (high, rest) :- Vlq.Decode(stream);
    AddFixed(high, rest)
  }

  /** The VLQ shifts left by 16 modulo 2^256 and the two fixed bytes fill the gap. */
  function AddFixed(high: Word, stream: seq<Byte>): Option<(Word, seq<Byte>)> {
    if |stream| < 2 then None
    else
      var value := high * 0x1_0000 % TWO_256 + FromBigEndian(stream[..2]);
      if value >= TWO_256 then None else Some((value, stream[2..]))
  }

  /** For every natural the contract reads back the index modulo 2^256 and leaves the rest. */
  lemma RoundTrip(i: nat, rest: seq<Byte>)
    ensures Decode(Encode(i) + rest) == Some((i % TWO_256, rest))
  {
    var high, low := i / 0x1_0000, ToBigEndian(i % 0x1_0000, 2);
    assert (Vlq.Encode(high) + low) + rest == Vlq.Encode(high) + (low + rest);
    Vlq.RoundTrip(high, low + rest);
    FixedReads(i, rest);
  }

  lemma FixedReads(i: nat, rest: seq<Byte>)
    ensures AddFixed(i / 0x1_0000 % TWO_256, ToBigEndian(i % 0x1_0000, 2) + rest) == Some((i % TWO_256, rest))
  {
    var low := ToBigEndian(i % 0x1_0000, 2);
    assert (low + rest)[..2] == low && (low + rest)[2..] == rest;
    assert Pow256(2) == 0x1_0000;
    BigEndianRoundTrip(i % 0x1_0000, 2);
    ScaleWraps(i / 0x1_0000, 0x1_0000);
    FixedWraps(i / 0x1_0000, i % 0x1_0000);
  }

  lemma FixedWraps(high: nat, low: nat)
    requires low < 0x1_0000
    ensures high * 0x1_0000 % TWO_256 + low == (high * 0x1_0000 + low) % TWO_256 < TWO_256
  {
    var k, rest := high / (TWO_256 / 0x1_0000), high % (TWO_256 / 0x1_0000);
    assert high * 0x1_0000 == rest * 0x1_0000 + k * TWO_256;
    AddMultiple(rest * 0x1_0000, k);
    AddMultiple(rest * 0x1_0000 + low, k);
  }

  /** In particular every index the contract can hold. */
  lemma WordRoundTrip(i: Word, rest: seq<Byte>)
    ensures Decode(Encode(i) + rest) == Some((i, rest))
  {
    NoWrap(i);
    RoundTrip(i, rest);
  }
}
