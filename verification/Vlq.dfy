/** Variable-length quantities: the client's encoder (encodeUtils.ts) and the contract's decoder
    (lib/VLQ.sol), which works modulo 2^256. */
module Vlq {
  import opened Wrappers
  import opened Bytes

  /** Base-128 groups of n, most significant first, every one but the last marked with 128. */
  function Encode(n: nat): seq<Byte> {
    Leading(n / 128) + [n % 128]
  }

  /** The marked groups; none for zero. */
  function Leading(n: nat): seq<Byte> {
    if n == 0 then [] else Leading(n / 128) + [128 + n % 128]
  }

  type Digit = n: nat | n < 128

  /** The base-128 digits the encoder collects before it adds the marks. */
  function Segments(n: nat): (s: seq<Digit>)
    ensures |s| > 0
  {
    (if n < 128 then [] else Segments(n / 128)) + [n % 128]
  }

  function Marked(segments: seq<Digit>): (s: seq<Byte>)
    ensures |s| == |segments|
  {
    if segments == [] then [] else
      var group: Byte := 128 + segments[|segments| - 1] as nat;
      Marked(segments[..|segments| - 1]) + [group]
  }

  lemma MarkedSnoc(s: seq<Digit>, last: Digit)
    ensures Marked(s + [last]) == Marked(s) + [128 + last as nat]
  {
    assert (s + [last])[..|s|] == s;
  }

  lemma {:induction false} MarkedSegments(n: nat)
    requires n > 0
    ensures Leading(n) == Marked(Segments(n))
  {
    if n < 128 {
      MarkedSnoc([], n);
      assert Leading(n) == Leading(0) + [128 + n];
    } else {
      MarkedSegments(n / 128);
      MarkedSnoc(Segments(n / 128), n % 128);
    }
  }

  lemma SegmentsAreGroups(n: nat)
    ensures var s := Segments(n);
            Encode(n) == Marked(s[..|s| - 1]) + [s[|s| - 1]]
  {
    if n >= 128 {
      MarkedSegments(n / 128);
      assert Segments(n)[..|Segments(n)| - 1] == Segments(n / 128);
    }
  }

  /** The encoder's two loops: collect segments from the low end, then write them out marked. */
  method EncodeVLQ(n: nat) returns (result: seq<Byte>)
    ensures result == Encode(n)
  {
    var segments := CollectSegments(n);
    SegmentsAreGroups(n);
    result := [];
    for i := 0 to |segments|
      invariant i < |segments| ==> result == Marked(segments[..i])
      invariant i == |segments| ==> result == Marked(segments[..i - 1]) + [segments[i - 1]]
    {
      var keepGoing := i != |segments| - 1;
      var group: Byte := (if keepGoing then 128 else 0) + segments[i] as nat;
      result := result + [group];
      assert segments[..i + 1][..i] == segments[..i];
    }
  }

  lemma SegmentsStep(x: nat, segments: seq<Digit>)
    ensures (x - x % 128) / 128 == x / 128
    ensures Segments(x) + segments
            == (if x / 128 == 0 then [] else Segments(x / 128)) + ([x % 128] + segments)
  {
  }

  method CollectSegments(n: nat) returns (segments: seq<Digit>)
    ensures segments == Segments(n)
  {
    var x := n;
    segments := [];
    while true
      invariant Segments(n) == Segments(x) + segments
      decreases x
    {
      SegmentsStep(x, segments);
      var segment := x % 128;
      segments := [segment] + segments;
      x := (x - segment) / 128;
      if x == 0 {
        break;
      }
    }
  }

  function Pow128(k: nat): (p: nat)
    ensures p > 0
  {
    if k == 0 then 1 else 128 * Pow128(k - 1)
  }

  /** n without its k lowest base-128 digits. */
  function DropGroups(n: nat, k: nat): nat
    decreases k
  {
    if k == 0 then n else DropGroups(n / 128, k - 1)
  }

  lemma {:induction false} LeadingSize(n: nat)
    ensures n < Pow128(|Leading(n)|)
    ensures n > 0 ==> Leading(n) != [] && n >= Pow128(|Leading(n)| - 1)
  {
    if n == 0 {
    } else {
      LeadingSize(n / 128);
    }
  }

  lemma {:induction false} LeadingGroup(n: nat, i: nat)
    requires i < |Leading(n)|
    ensures Leading(n)[i] == 128 + DropGroups(n, |Leading(n)| - 1 - i) % 128
  {
    if i < |Leading(n)| - 1 {
      LeadingGroup(n / 128, i);
    }
  }

  /** As few groups as the number needs; group i is the base-128 digit of its position, and all but the last are
      marked. */
  lemma Groups(n: nat)
    ensures var last := |Encode(n)| - 1;
            && n < Pow128(last + 1)
            && (last > 0 ==> n >= Pow128(last))
            && Encode(n)[last] == n % 128
            && forall i :: 0 <= i < last ==> Encode(n)[i] == 128 + DropGroups(n, last - i) % 128
  {
    LeadingSize(n / 128);
    forall i | 0 <= i < |Leading(n / 128)|
      ensures Leading(n / 128)[i] == 128 + DropGroups(n, |Leading(n / 128)| - i) % 128
    {
      LeadingGroup(n / 128, i);
    }
  }

  /** The contract's decoder: the value shifts left by 7 modulo 2^256, adding is checked, and
      running out of bytes reverts. */
  function DecodeFrom(stream: seq<Byte>, value: Word): (r: Option<(Word, seq<Byte>)>)
    ensures r.Some? ==> |r.value.1| < |stream|
  {
    if stream == [] then None
    else
      var added := value + stream[0] % 128;
      if added >= TWO_256 then None
      else if stream[0] < 128 then Some((added, stream[1..]))
      else DecodeFrom(stream[1..], added * 128 % TWO_256)
  }

  function Decode(stream: seq<Byte>): (r: Option<(Word, seq<Byte>)>)
    ensures r.Some? ==> |r.value.1| < |stream|
  {
    DecodeFrom(stream, 0)
  }

  /** The same reading over unbounded integers. */
  function IdealFrom(stream: seq<Byte>, value: nat): Option<(nat, seq<Byte>)> {
    if stream == [] then None
    else if stream[0] < 128 then Some((value + stream[0] % 128, stream[1..]))
    else IdealFrom(stream[1..], (value + stream[0] % 128) * 128)
  }

  lemma GroupWraps(value: nat, low: nat)
    requires value % 128 == 0 && low < 128
    ensures value % TWO_256 + low == (value + low) % TWO_256 < TWO_256
  {
    var q := value / 128;
    var k, rest := q / (TWO_256 / 128), q % (TWO_256 / 128);
    assert q == rest + k * (TWO_256 / 128);
    assert value == 128 * rest + k * TWO_256;
    AddMultiple(128 * rest, k);
    AddMultiple(128 * rest + low, k);
  }

  /** On every stream the contract reads the ideal value modulo 2^256 and stops in the same place;
      its checked addition never reverts. */
  lemma {:induction false} DecodeIsIdealModulo(stream: seq<Byte>, value: nat, wrapped: Word)
    requires value % 128 == 0 && wrapped == value % TWO_256
    ensures DecodeFrom(stream, wrapped)
            == match IdealFrom(stream, value)
               case None => None
               case Some((ideal, rest)) => Some((ideal % TWO_256, rest))
  {
    if stream == [] {
    } else {
      var low := stream[0] % 128;
      GroupWraps(value, low);
      if stream[0] >= 128 {
        ScaleWraps(value + low, 128);
        DecodeIsIdealModulo(stream[1..], (value + low) * 128, (wrapped + low) * 128 % TWO_256);
      }
    }
  }

  lemma {:induction false} IdealSkipsLeading(n: nat, rest: seq<Byte>)
    ensures IdealFrom(Leading(n) + rest, 0) == IdealFrom(rest, 128 * n)
  {
    if n == 0 {
      assert Leading(n) + rest == rest;
    } else {
      var group := [128 + n % 128];
      IdealSkipsLeading(n / 128, group + rest);
      assert Leading(n) + rest == Leading(n / 128) + (group + rest);
      assert (group + rest)[1..] == rest;
    }
  }

  lemma IdealRoundTrip(n: nat, rest: seq<Byte>)
    ensures IdealFrom(Encode(n) + rest, 0) == Some((n, rest))
  {
    var last := [n % 128];
    IdealSkipsLeading(n / 128, last + rest);
    assert Encode(n) + rest == Leading(n / 128) + (last + rest);
    assert (last + rest)[1..] == rest;
  }

  /** For every natural the contract reads back the value modulo 2^256 and leaves the rest. */
  lemma RoundTrip(n: nat, rest: seq<Byte>)
    ensures Decode(Encode(n) + rest) == Some((n % TWO_256, rest))
  {
    IdealRoundTrip(n, rest);
    DecodeIsIdealModulo(Encode(n) + rest, 0, 0);
  }

  lemma WordRoundTrip(n: Word, rest: seq<Byte>)
    ensures Decode(Encode(n) + rest) == Some((n, rest))
  {
    RoundTrip(n, rest);
  }

  /** No encoding is a prefix of another, and different naturals have different encodings. */
  lemma PrefixFree(n: nat, m: nat, afterN: seq<Byte>, afterM: seq<Byte>)
    requires Encode(n) + afterN == Encode(m) + afterM
    ensures n == m && afterN == afterM
  {
    IdealRoundTrip(n, afterN);
    IdealRoundTrip(m, afterM);
  }

  lemma {:induction false} LeadingStartsHigh(n: nat)
    requires n > 0
    ensures Leading(n) != [] && Leading(n)[0] > 128
  {
    if n < 128 {
    } else {
      LeadingStartsHigh(n / 128);
    }
  }

  /** The first group is never a redundant zero. */
  lemma NoRedundantGroup(n: nat)
    ensures Encode(n)[0] != 128
  {
    if n >= 128 {
      LeadingStartsHigh(n / 128);
    }
  }
}
