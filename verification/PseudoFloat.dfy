/** Decimal pseudo-floats: the client's encoder (encodeUtils.ts) and the contract's decoder
    (lib/PseudoFloat.sol). One header byte holds the exponent plus one and the low three mantissa
    bits; the rest of the mantissa follows as a VLQ. */
module PseudoFloat {
  import opened Wrappers
  import opened Bytes
  import Vlq

  const MAX_EXPONENT: nat := 30

  function Pow10(e: nat): (p: nat)
    ensures p > 0
  {
    if e == 0 then 1 else 10 * Pow10(e - 1)
  }

  /** Divide by ten while it divides, at most `budget` times: the mantissa and the count. */
  function Reduce(x: nat, budget: nat): (r: (nat, nat))
    requires x > 0
    ensures r.0 > 0 && r.1 <= budget
    ensures x == r.0 * Pow10(r.1)
    ensures r.1 < budget ==> r.0 % 10 != 0
  {
    if x % 10 == 0 && budget > 0 then
      var (mantissa, exponent) := Reduce(x / 10, budget - 1);
      (mantissa, exponent + 1)
    else (x, 0)
  }

  function Header(mantissa: nat, exponent: nat): Byte
    requires exponent <= MAX_EXPONENT
  {
    8 * (exponent + 1) + mantissa % 8
  }

  function Encode(x: nat): seq<Byte> {
    if x == 0 then [0] else
      var (mantissa, exponent) := Reduce(x, MAX_EXPONENT);
      [Header(mantissa, exponent)] + Vlq.Encode(mantissa / 8)
  }

  method EncodePseudoFloat(value: nat) returns (result: seq<Byte>)
    ensures result == Encode(value)
  {
    if value == 0 {
      return [0];
    }
    var x := value;
    var exponent := 0;
    while x % 10 == 0 && exponent < MAX_EXPONENT
      invariant x > 0 && exponent <= MAX_EXPONENT
      invariant Reduce(value, MAX_EXPONENT).0 == Reduce(x, MAX_EXPONENT - exponent).0
      invariant Reduce(value, MAX_EXPONENT).1 == Reduce(x, MAX_EXPONENT - exponent).1 + exponent
    {
      x := x / 10;
      exponent := exponent + 1;
    }
    var firstByte: Byte := 8 * (exponent + 1) + x % 8;
    var rest := Vlq.EncodeVLQ(x / 8);
    result := [firstByte] + rest;
  }

  /** The contract's final loop: checked multiplication by ten, reverting on overflow. */
  function TimesTen(value: Word, exponent: nat): (r: Option<Word>)
    ensures r == if value * Pow10(exponent) < TWO_256 then Some(value * Pow10(exponent)) else None
    decreases exponent
  {
    if exponent == 0 then Some(value)
    else
      var scaled := value * 10;
      assert value * Pow10(exponent) == scaled * Pow10(exponent - 1);
      if scaled >= TWO_256 then
        assert scaled * Pow10(exponent - 1) >= scaled;
        None
      else TimesTen(scaled, exponent - 1)
  }

  /** The contract's decoder. A first byte below 8 other than zero makes `exponent - 1` underflow,
      which reverts; the mantissa shifts left by 3 modulo 2^256. */
  function Decode(stream: seq<Byte>): (r: Option<(Word, seq<Byte>)>)
    ensures r.Some? ==> |r.value.1| < |stream|
  {
    if stream == [] then None
    else if stream[0] == 0 then Some((0, stream[1..]))
    else if stream[0] / 8 == 0 then None
    else
      var high :- Vlq.Decode(stream[1..]);
      var value :- Scale(high.0, stream[0] % 8, stream[0] / 8 - 1);
      Some((value, high.1))
  }

  function Scale(high: Word, low: nat, exponent: nat): Option<Word> {
    var added := high * 8 % TWO_256 + low;
    if added >= TWO_256 then None else TimesTen(added, exponent)
  }

  lemma ScaleRebuilds(mantissa: nat, exponent: nat)
    requires mantissa * Pow10(exponent) < TWO_256
    ensures mantissa / 8 < TWO_256
    ensures Scale(mantissa / 8, mantissa % 8, exponent) == Some(mantissa * Pow10(exponent))
  {
    Growth(mantissa, Pow10(exponent));
    assert mantissa / 8 * 8 % TWO_256 + mantissa % 8 == mantissa;
  }

  lemma Growth(a: nat, b: nat)
    requires b > 0
    ensures a <= a * b
  {
    assert a * (b - 1) >= 0;
  }

  lemma DecodeAssembles(header: Byte, tail: seq<Byte>, high: Word, rest: seq<Byte>, value: Word)
    requires header >= 8
    requires Vlq.Decode(tail) == Some((high, rest))
    requires Scale(high, header % 8, header / 8 - 1) == Some(value)
    ensures Decode([header] + tail) == Some((value, rest))
  {
    assert ([header] + tail)[1..] == tail;
  }

  lemma ScaleExactly(high: Word, low: nat, exponent: nat)
    requires low < 8 && 8 * high < TWO_256
    ensures var value := (8 * high + low) * Pow10(exponent);
            Scale(high, low, exponent) == if value < TWO_256 then Some(value) else None
  {
    assert high * 8 % TWO_256 + low == 8 * high + low < TWO_256;
  }

  /** Reading any header with a mantissa that fits: the number they stand for, or a revert where it does not fit
      in a word. A header of 1 to 7 has no exponent and reverts. */
  lemma ReadsExactly(header: Byte, high: Word, rest: seq<Byte>)
    requires header > 0 && 8 * high < TWO_256
    ensures header < 8 ==> Decode([header] + (Vlq.Encode(high) + rest)).None?
    ensures header >= 8 ==>
              var value := (8 * high + header % 8) * Pow10(header / 8 - 1);
              Decode([header] + (Vlq.Encode(high) + rest)) == if value < TWO_256 then Some((value, rest)) else None
  {
    var tail := Vlq.Encode(high) + rest;
    assert ([header] + tail)[1..] == tail;
    if header >= 8 {
      Vlq.WordRoundTrip(high, rest);
      ScaleExactly(high, header % 8, header / 8 - 1);
      DecodeScales(header, tail, high, rest);
    }
  }

  lemma DecodeScales(header: Byte, tail: seq<Byte>, high: Word, rest: seq<Byte>)
    requires header >= 8 && Vlq.Decode(tail) == Some((high, rest))
    ensures var value := Scale(high, header % 8, header / 8 - 1);
            Decode([header] + tail) == if value.Some? then Some((value.value, rest)) else None
  {
    assert ([header] + tail)[1..] == tail;
  }

  lemma HeaderScales(x: Word, mantissa: nat, exponent: nat)
    requires exponent <= MAX_EXPONENT
    requires x == mantissa * Pow10(exponent)
    ensures mantissa / 8 < TWO_256
    ensures var header := Header(mantissa, exponent);
            Scale(mantissa / 8, header % 8, header / 8 - 1) == Some(x)
  {
    HeaderParts(mantissa, exponent);
    ScaleRebuilds(mantissa, exponent);
  }

  lemma PartsRoundTrip(x: Word, header: Byte, high: Word, rest: seq<Byte>)
    requires header >= 8
    requires Scale(high, header % 8, header / 8 - 1) == Some(x)
    ensures Decode([header] + (Vlq.Encode(high) + rest)) == Some((x, rest))
  {
    Vlq.WordRoundTrip(high, rest);
    DecodeAssembles(header, Vlq.Encode(high) + rest, high, rest, x);
  }

  /** The contract reads back exactly the numbers it can represent: for a larger one it either
      reverts or reads something else. */
  lemma RoundTrip(x: nat, rest: seq<Byte>)
    ensures x < TWO_256 ==> Decode(Encode(x) + rest) == Some((x, rest))
    ensures x < TWO_256 <==>
            Decode(Encode(x) + rest).Some? && Decode(Encode(x) + rest).value.0 == x
  {
    if x == 0 {
      assert (Encode(x) + rest)[1..] == rest;
    } else if x < TWO_256 {
      var (mantissa, exponent) := Reduce(x, MAX_EXPONENT);
      HeaderScales(x, mantissa, exponent);
      PartsRoundTrip(x, Header(mantissa, exponent), mantissa / 8, rest);
      assert Encode(x) + rest == [Header(mantissa, exponent)] + (Vlq.Encode(mantissa / 8) + rest);
    }
  }

  lemma HeaderParts(mantissa: nat, exponent: nat)
    requires exponent <= MAX_EXPONENT
    ensures Header(mantissa, exponent) / 8 == exponent + 1
    ensures Header(mantissa, exponent) % 8 == mantissa % 8
  {
  }

  lemma {:induction false} Pow10Splits(e: nat, k: nat)
    ensures Pow10(e + k) == Pow10(e) * Pow10(k)
  {
    if e == 0 {
    } else {
      Pow10Splits(e - 1, k);
      assert 10 * (Pow10(e - 1) * Pow10(k)) == 10 * Pow10(e - 1) * Pow10(k);
    }
  }

  /** The exponent is the largest one up to 30 whose power of ten divides the number. */
  lemma ExponentIsLargest(x: nat, e: nat)
    requires x > 0 && e <= MAX_EXPONENT
    ensures x % Pow10(e) == 0 <==> e <= Reduce(x, MAX_EXPONENT).1
  {
    if e <= Reduce(x, MAX_EXPONENT).1 {
      SmallerPowersDivide(x, e);
    } else {
      LargerPowersDoNot(x, e);
    }
  }

  lemma SmallerPowersDivide(x: nat, e: nat)
    requires x > 0 && e <= Reduce(x, MAX_EXPONENT).1
    ensures x % Pow10(e) == 0
  {
    var (mantissa, exponent) := Reduce(x, MAX_EXPONENT);
    Pow10Splits(exponent - e, e);
    PartDivides(mantissa, Pow10(exponent - e), Pow10(e));
  }

  lemma PartDivides(a: nat, b: nat, c: nat)
    requires c > 0
    ensures (a * (b * c)) % c == 0
  {
    Regroup(a, b, c);
    MultipleDivides(a * b, c);
  }

  lemma Regroup(a: nat, b: nat, c: nat)
    ensures a * (b * c) == (a * b) * c
  {
  }

  lemma LargerPowersDoNot(x: nat, e: nat)
    requires x > 0 && Reduce(x, MAX_EXPONENT).1 < e <= MAX_EXPONENT
    ensures x % Pow10(e) != 0
  {
    var (mantissa, exponent) := Reduce(x, MAX_EXPONENT);
    Pow10Splits(e - exponent, exponent);
    forall q: nat | x == q * Pow10(e)
      ensures false
    {
      TenLeft(mantissa, q, e - exponent, Pow10(exponent));
    }
    DividesHasQuotient(x, Pow10(e));
  }

  lemma DividesHasQuotient(x: nat, p: nat)
    requires p > 0
    ensures x % p == 0 ==> exists q: nat :: x == q * p
  {
    assert x == x / p * p + x % p;
  }

  lemma TenLeft(mantissa: nat, q: nat, extra: nat, m: nat)
    requires m > 0 && extra > 0
    requires mantissa * m == q * (Pow10(extra) * m)
    ensures mantissa % 10 == 0
  {
    Regroup(q, Pow10(extra), m);
    CancelFactor(mantissa, q * Pow10(extra), m);
    Regroup(q, Pow10(extra - 1), 10);
  }

  lemma Stretch(a: nat, b: nat, m: nat)
    requires a < b
    ensures a * m + m <= b * m
  {
    assert (b - a - 1) * m >= 0;
    assert (b - a - 1) * m == b * m - a * m - m;
  }

  lemma MultipleDivides(q: nat, m: nat)
    requires m > 0
    ensures (q * m) % m == 0
  {
    var d := (q * m) / m;
    if d < q {
      Stretch(d, q, m);
    } else if d > q {
      Stretch(q, d, m);
    }
  }

  lemma CancelFactor(a: nat, b: nat, m: nat)
    requires m > 0
    ensures a * m == b * m ==> a == b
  {
    if a < b {
      Stretch(a, b, m);
    } else if b < a {
      Stretch(b, a, m);
    }
  }

  /** Ten to the e divides the number, and no larger power up to the 30th does. */
  ghost predicate LargestExponent(x: nat, e: nat) {
    && e <= 30 && x % Pow10(e) == 0
    && forall d: nat :: e < d <= 30 ==> x % Pow10(d) != 0
  }

  /** The bytes of a number: with m times ten to the e taken out that way, a byte of e + 1 and the low three
      bits of m, then the VLQ of the rest of m. */
  lemma BytesWritten(x: nat) returns (m: nat, e: nat)
    requires x > 0
    ensures LargestExponent(x, e) && x == m * Pow10(e)
    ensures Encode(x) == [8 * (e + 1) + m % 8] + Vlq.Encode(m / 8)
  {
    var reduced := Reduce(x, MAX_EXPONENT);
    m, e := reduced.0, reduced.1;
    ExponentIsLargest(x, e);
    forall d: nat | e < d <= 30
      ensures x % Pow10(d) != 0
    {
      ExponentIsLargest(x, d);
    }
  }

  lemma TimesTenReduces(x: nat, budget: nat)
    requires x > 0 && budget > 0
    ensures Reduce(10 * x, budget) == (Reduce(x, budget - 1).0, Reduce(x, budget - 1).1 + 1)
  {
    assert 10 * x % 10 == 0 && 10 * x / 10 == x;
  }

  lemma {:induction false} MultipleReduces(m: nat, e: nat, budget: nat)
    requires m > 0 && m % 10 != 0 && e <= budget
    ensures m * Pow10(e) > 0
    ensures Reduce(m * Pow10(e), budget) == (m, e)
  {
    Growth(m, Pow10(e));
    if e == 0 {
    } else {
      MultipleReduces(m, e - 1, budget - 1);
      TimesTenReduces(m * Pow10(e - 1), budget);
      Regroup(10, m, Pow10(e - 1));
      Regroup(m, 10, Pow10(e - 1));
    }
  }

  /** A number below 1024 times a power of ten up to the 30th, if it does not end in a zero itself, takes two bytes. */
  lemma TwoBytes(m: nat, e: nat)
    requires 0 < m < 1024 && m % 10 != 0 && e <= 30
    ensures Encode(m * Pow10(e)) == [8 * (e + 1) + m % 8, m / 8]
  {
    MultipleReduces(m, e, MAX_EXPONENT);
    WrittenIn(m * Pow10(e), m, e);
    OneGroup(m / 8);
  }

  lemma WrittenIn(x: nat, m: nat, e: nat)
    requires x > 0 && Reduce(x, MAX_EXPONENT) == (m, e)
    ensures Encode(x) == [8 * (e + 1) + m % 8] + Vlq.Encode(m / 8)
  {
  }

  lemma OneGroup(n: nat)
    requires n < 128
    ensures Vlq.Encode(n) == [n]
  {
    assert Vlq.Leading(0) == [];
  }

  /** The same reading over unbounded integers. */
  function IdealDecode(stream: seq<Byte>): Option<(nat, seq<Byte>)> {
    if stream == [] then None
    else if stream[0] == 0 then Some((0, stream[1..]))
    else if stream[0] / 8 == 0 then None
    else
      var (high, rest) :- Vlq.IdealFrom(stream[1..], 0);
      Some((IdealScale(high, stream[0] % 8, stream[0] / 8 - 1), rest))
  }

  function IdealScale(high: nat, low: nat, exponent: nat): nat {
    (high * 8 + low) * Pow10(exponent)
  }

  lemma IdealPartsRoundTrip(header: Byte, high: nat, rest: seq<Byte>)
    requires header >= 8
    ensures IdealDecode([header] + (Vlq.Encode(high) + rest))
            == Some((IdealScale(high, header % 8, header / 8 - 1), rest))
  {
    Vlq.IdealRoundTrip(high, rest);
    assert ([header] + (Vlq.Encode(high) + rest))[1..] == Vlq.Encode(high) + rest;
  }

  lemma IdealRoundTrip(x: nat, rest: seq<Byte>)
    ensures IdealDecode(Encode(x) + rest) == Some((x, rest))
  {
    if x == 0 {
      assert (Encode(x) + rest)[1..] == rest;
    } else {
      var (mantissa, exponent) := Reduce(x, MAX_EXPONENT);
      HeaderParts(mantissa, exponent);
      IdealPartsRoundTrip(Header(mantissa, exponent), mantissa / 8, rest);
      assert mantissa / 8 * 8 + mantissa % 8 == mantissa;
      assert Encode(x) + rest == [Header(mantissa, exponent)] + (Vlq.Encode(mantissa / 8) + rest);
    }
  }

  /** Different naturals have different encodings and none is a prefix of another. */
  lemma PrefixFree(x: nat, y: nat, afterX: seq<Byte>, afterY: seq<Byte>)
    requires Encode(x) + afterX == Encode(y) + afterY
    ensures x == y && afterX == afterY
  {
    IdealRoundTrip(x, afterX);
    IdealRoundTrip(y, afterY);
  }

  /** A zero first byte stands for zero alone; no other encoding begins below 8. */
  lemma ZeroByteMeansZero(x: nat)
    ensures Encode(x)[0] == 0 <==> x == 0
    ensures x > 0 ==> Encode(x)[0] >= 8
  {
  }
}
