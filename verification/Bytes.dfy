/** Bytes, 256-bit words, and the fixed-width big-endian encoding the Solidity ABI uses. */
module Bytes {

  type Byte = n: nat | n < 256

  // Spelled as 128 * HALF_WORDS where that factor matters; see WordIsMultiple.
  const TWO_256: nat :=
    0x1_0000_0000_0000_0000_0000_0000_0000_0000_0000_0000_0000_0000_0000_0000_0000_0000

  type Word = n: nat | n < TWO_256

  /** 256 to the power w. */
  function Pow256(w: nat): (p: nat)
    ensures p > 0
  {
    if w == 0 then 1 else 256 * Pow256(w - 1)
  }

  lemma AddMultiple(a: nat, k: nat)
    ensures (a + k * TWO_256) % TWO_256 == a % TWO_256
  {
  }

  lemma NoWrap(n: Word)
    ensures n % TWO_256 == n
  {
  }

  /** Wrapping before a product that wraps changes nothing. */
  lemma ScaleWraps(n: nat, factor: nat)
    ensures n % TWO_256 * factor % TWO_256 == n * factor % TWO_256
  {
    var k, low := n / TWO_256, n % TWO_256;
    assert n == k * TWO_256 + low;
    assert n * factor == low * factor + (k * factor) * TWO_256;
    AddMultiple(low * factor, k * factor);
  }

  function ToBigEndian(n: nat, w: nat): (s: seq<Byte>)
    ensures |s| == w
  {
    if w == 0 then [] else ToBigEndian(n / 256, w - 1) + [n % 256]
  }

  function FromBigEndian(s: seq<Byte>): nat {
    if s == [] then 0 else 256 * FromBigEndian(s[..|s| - 1]) + s[|s| - 1]
  }

  lemma {:induction false} BigEndianRoundTrip(n: nat, w: nat)
    requires n < Pow256(w)
    ensures FromBigEndian(ToBigEndian(n, w)) == n
  {
    if w == 0 {
    } else {
      BigEndianRoundTrip(n / 256, w - 1);
      assert ToBigEndian(n, w)[..w - 1] == ToBigEndian(n / 256, w - 1);
    }
  }

  lemma {:induction false} BigEndianCanonical(s: seq<Byte>)
    ensures FromBigEndian(s) < Pow256(|s|)
    ensures ToBigEndian(FromBigEndian(s), |s|) == s
  {
    if s == [] {
    } else {
      BigEndianCanonical(s[..|s| - 1]);
      assert s == s[..|s| - 1] + [s[|s| - 1]];
    }
  }

  lemma WordIs32Bytes()
    ensures Pow256(32) == TWO_256
  {
    assert Pow256(8) == 0x1_0000_0000_0000_0000;
    assert Pow256(16) == 0x1_0000_0000_0000_0000_0000_0000_0000_0000;
    assert Pow256(24) == 0x1_0000_0000_0000_0000_0000_0000_0000_0000_0000_0000_0000_0000;
  }

  /** A word as 32 bytes, the way the ABI lays out a `uint256`. */
  function EncodeWord(n: Word): (s: seq<Byte>)
    ensures |s| == 32
  {
    ToBigEndian(n, 32)
  }

  /** n without its k lowest base-256 digits. */
  function DropDigits(n: nat, k: nat): nat
    decreases k
  {
    if k == 0 then n else DropDigits(n / 256, k - 1)
  }

  /** Digit i of w base-256 digits, the most significant first. */
  lemma {:induction false} BigEndianDigits(n: nat, w: nat, i: nat)
    requires i < w
    ensures ToBigEndian(n, w)[i] == DropDigits(n, w - 1 - i) % 256
    decreases w
  {
    if i < w - 1 {
      BigEndianDigits(n / 256, w - 1, i);
    }
  }

  /** The bytes of a word are its base-256 digits, the most significant first. */
  lemma WordDigits(n: Word, i: nat)
    requires i < 32
    ensures EncodeWord(n)[i] == DropDigits(n, 31 - i) % 256
  {
    BigEndianDigits(n, 32, i);
  }

  function DecodeWord(s: seq<Byte>): Word
    requires |s| == 32
  {
    BigEndianCanonical(s);
    WordIs32Bytes();
    FromBigEndian(s)
  }

  lemma WordRoundTrip(n: Word)
    ensures DecodeWord(EncodeWord(n)) == n
  {
    WordIs32Bytes();
    BigEndianRoundTrip(n, 32);
  }

  lemma WordCanonical(s: seq<Byte>)
    requires |s| == 32
    ensures EncodeWord(DecodeWord(s)) == s
  {
    BigEndianCanonical(s);
  }

  /** Words one after the other: `abi.encode` of a fixed-size array of `uint256`. */
  function EncodeWords(ws: seq<Word>): (s: seq<Byte>)
    ensures |s| == 32 * |ws|
  {
    if ws == [] then [] else EncodeWord(ws[0]) + EncodeWords(ws[1..])
  }

  function DecodeWords(s: seq<Byte>, count: nat): (ws: seq<Word>)
    requires |s| == 32 * count
    ensures |ws| == count
  {
    if count == 0 then [] else [DecodeWord(s[..32])] + DecodeWords(s[32..], count - 1)
  }

  lemma {:induction false} WordsRoundTrip(ws: seq<Word>)
    ensures DecodeWords(EncodeWords(ws), |ws|) == ws
  {
    if ws == [] {
    } else {
      var s := EncodeWords(ws);
      assert s[..32] == EncodeWord(ws[0]) && s[32..] == EncodeWords(ws[1..]);
      WordRoundTrip(ws[0]);
      WordsRoundTrip(ws[1..]);
    }
  }

  /** The pieces joined in order: what `hexJoin` does to byte strings. */
  function Concat(pieces: seq<seq<Byte>>): seq<Byte> {
    if pieces == [] then [] else pieces[0] + Concat(pieces[1..])
  }

  lemma {:induction false} ConcatSnoc(pieces: seq<seq<Byte>>, last: seq<Byte>)
    ensures Concat(pieces + [last]) == Concat(pieces) + last
  {
    if pieces == [] {
      assert Concat([] + [last]) == last + Concat([]);
    } else {
      assert (pieces + [last])[1..] == pieces[1..] + [last];
      ConcatSnoc(pieces[1..], last);
    }
  }
}
