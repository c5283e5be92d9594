/** Bit streams (encodeUtils.ts): booleans summed in double precision and written as a VLQ. */
module BitStream {
  import opened Wrappers
  import opened Bytes
  import Vlq

  /** The non-negative integral values of a JavaScript number. */
  datatype Number = Finite(n: nat) | Infinity

  /** Integers below this bound are exact in double precision. */
  const EXACT: nat := 0x20_0000_0000_0000

  /** 2^1024: numbers from here on round to Infinity. */
  const LIMIT: nat := Pow256(128)

  /** Round to the nearest multiple of the spacing that suits the magnitude, ties to even. */
  function RoundTo(n: nat, spacing: nat): nat
    requires spacing > 0
    decreases n - spacing
  {
    if n < EXACT * spacing then
      var q, r := n / spacing, n % spacing;
      spacing * (if 2 * r < spacing || (2 * r == spacing && q % 2 == 0) then q else q + 1)
    else RoundTo(n, 2 * spacing)
  }

  function Rounded(n: nat): Number {
    var m := RoundTo(n, 1);
    if m < LIMIT then Finite(m) else Infinity
  }

  function Add(a: Number, b: Number): Number {
    if a.Infinity? || b.Infinity? then Infinity else Rounded(a.n + b.n)
  }

  /** The conversion to a big number rejects Infinity and everything from 2^53 - 1 up. */
  function ToBigNumber(x: Number): Option<nat> {
    if x.Finite? && x.n < EXACT - 1 then Some(x.n) else None
  }

  /** The value whose lowest bit is the first boolean. */
  function LittleEndian(bits: seq<bool>): nat {
    if bits == [] then 0 else (if bits[0] then 1 else 0) + 2 * LittleEndian(bits[1..])
  }

  /** The loop over the booleans: each set bit adds the current bit value, which then doubles. */
  function Sum(bits: seq<bool>, stream: Number, bitValue: Number): Number {
    if bits == [] then stream
    else Sum(bits[1..], if bits[0] then Add(stream, bitValue) else stream, Add(bitValue, bitValue))
  }

  function EncodeInDoubles(bits: seq<bool>): Option<seq<Byte>> {
    var value :- ToBigNumber(Sum(bits, Finite(0), Finite(1)));
    Some(Vlq.Encode(value))
  }

  /** A double that is exact below 2^53 and otherwise only known to be that large. */
  ghost predicate Tracks(x: Number, n: nat) {
    if n < EXACT then x == Finite(n) else x.Infinity? || x.n >= EXACT
  }

  lemma {:induction false} RoundToKeepsSize(n: nat, spacing: nat)
    requires spacing > 0
    requires spacing == 1 || (spacing % 2 == 0 && n >= EXACT * (spacing / 2))
    ensures if n < EXACT then RoundTo(n, spacing) == n else RoundTo(n, spacing) >= EXACT
    decreases n - spacing
  {
    if n >= EXACT * spacing {
      RoundToKeepsSize(n, 2 * spacing);
    } else if spacing > 1 {
      var q, half := n / spacing, spacing / 2;
      assert n >= EXACT / 2 * spacing;
      QuotientAtLeast(n, spacing, EXACT / 2);
      ProductAtLeast(spacing, 2, q);
      assert spacing * (q + 1) == spacing * q + spacing;
    }
  }

  lemma QuotientAtLeast(n: nat, d: nat, q: nat)
    requires d > 0 && n >= q * d
    ensures n / d >= q
  {
    if n / d < q {
      assert (n / d + 1) * d <= q * d by { ProductAtLeast(q, n / d + 1, d); }
    }
  }

  lemma ProductAtLeast(a: nat, b: nat, c: nat)
    requires a >= b
    ensures a * c >= b * c
  {
    assert (a - b) * c >= 0;
  }

  lemma LimitIsLarge()
    ensures LIMIT > 2 * EXACT
  {
    assert Pow256(7) == 8 * EXACT;
    Pow256Grows(7, 128);
  }

  lemma {:induction false} Pow256Grows(a: nat, b: nat)
    requires a <= b
    ensures Pow256(a) <= Pow256(b)
    decreases b
  {
    if a == b {
    } else {
      Pow256Grows(a, b - 1);
    }
  }

  lemma AddTracks(a: Number, b: Number, n: nat, m: nat)
    requires Tracks(a, n) && Tracks(b, m)
    ensures Tracks(Add(a, b), n + m)
  {
    LimitIsLarge();
    if a.Finite? && b.Finite? {
      RoundToKeepsSize(a.n + b.n, 1);
    }
  }

  /** The same accumulation over unbounded integers. */
  function ExactSum(bits: seq<bool>, stream: nat, bitValue: nat): nat {
    if bits == [] then stream
    else ExactSum(bits[1..], if bits[0] then stream + bitValue else stream, 2 * bitValue)
  }

  lemma {:induction false} SumTracks(bits: seq<bool>, stream: Number, bitValue: Number, n: nat, m: nat)
    requires Tracks(stream, n) && Tracks(bitValue, m)
    ensures Tracks(Sum(bits, stream, bitValue), ExactSum(bits, n, m))
  {
    if bits == [] {
    } else {
      var next, added := Add(bitValue, bitValue), Add(stream, bitValue);
      AddTracks(stream, bitValue, n, m);
      AddTracks(bitValue, bitValue, m, m);
      if bits[0] {
        SumTracks(bits[1..], added, next, n + m, 2 * m);
      } else {
        SumTracks(bits[1..], stream, next, n, 2 * m);
      }
    }
  }

  lemma {:induction false} ExactSumIsLittleEndian(bits: seq<bool>, n: nat, m: nat)
    ensures ExactSum(bits, n, m) == n + m * LittleEndian(bits)
  {
    if bits == [] {
    } else {
      var bit, tail := if bits[0] then 1 else 0, LittleEndian(bits[1..]);
      ExactSumIsLittleEndian(bits[1..], n + m * bit, 2 * m);
      Distribute(m, bit, tail);
    }
  }

  lemma Distribute(m: nat, bit: nat, tail: nat)
    ensures m * (bit + 2 * tail) == m * bit + 2 * m * tail
  {
  }

  /** What the encoder promises, in integers. */
  function Encode(bits: seq<bool>): Option<seq<Byte>> {
    if LittleEndian(bits) < EXACT - 1 then Some(Vlq.Encode(LittleEndian(bits))) else None
  }

  /** Despite the rounding, the encoder throws or writes exactly the little-endian value, and it
      throws exactly from 2^53 - 1 up. */
  lemma DoublesAreExact(bits: seq<bool>)
    ensures EncodeInDoubles(bits) == Encode(bits)
  {
    SumTracks(bits, Finite(0), Finite(1), 0, 1);
    ExactSumIsLittleEndian(bits, 0, 1);
  }

  lemma ThrowsExactly(bits: seq<bool>)
    ensures EncodeInDoubles(bits)
            == if LittleEndian(bits) < 9_007_199_254_740_991 then Some(Vlq.Encode(LittleEndian(bits))) else None
  {
    DoublesAreExact(bits);
  }

  method EncodeBitStream(bitStream: seq<bool>) returns (result: Option<seq<Byte>>)
    ensures result == Encode(bitStream)
  {
    var stream, bitValue := Finite(0), Finite(1);
    for i := 0 to |bitStream|
      invariant Sum(bitStream[i..], stream, bitValue) == Sum(bitStream, Finite(0), Finite(1))
    {
      assert bitStream[i..][1..] == bitStream[i + 1..];
      if bitStream[i] {
        stream := Add(stream, bitValue);
      }
      bitValue := Add(bitValue, bitValue);
    }
    DoublesAreExact(bitStream);
    if ToBigNumber(stream).None? {
      return None;
    }
    var vlq := Vlq.EncodeVLQ(ToBigNumber(stream).value);
    result := Some(vlq);
  }

  /** The contract's `decodeBit`: the lowest bit and what is left. */
  function DecodeBit(bits: nat): (bool, nat) {
    (bits % 2 == 1, bits / 2)
  }

  /** Popping low bits returns the booleans in the order they were pushed. */
  function Pop(bits: nat, count: nat): seq<bool> {
    if count == 0 then [] else
      var (bit, rest) := DecodeBit(bits);
      [bit] + Pop(rest, count - 1)
  }

  lemma {:induction false} PopReturnsPushed(bits: seq<bool>)
    ensures Pop(LittleEndian(bits), |bits|) == bits
  {
    if bits == [] {
    } else {
      PopReturnsPushed(bits[1..]);
      assert bits == [bits[0]] + bits[1..];
    }
  }

  lemma PushPop(bit: bool, rest: seq<bool>)
    ensures DecodeBit(LittleEndian([bit] + rest)) == (bit, LittleEndian(rest))
  {
    assert ([bit] + rest)[1..] == rest;
  }

  /** From the encoder through the contract's VLQ reader and back to the booleans. */
  lemma RoundTrip(bits: seq<bool>, rest: seq<Byte>)
    requires EncodeInDoubles(bits).Some?
    ensures Vlq.Decode(EncodeInDoubles(bits).value + rest) == Some((LittleEndian(bits), rest))
    ensures Pop(LittleEndian(bits), |bits|) == bits
  {
    DoublesAreExact(bits);
    Vlq.WordRoundTrip(LittleEndian(bits), rest);
    PopReturnsPushed(bits);
  }
}
