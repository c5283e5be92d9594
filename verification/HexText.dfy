/** Hex text: the strings the client joins (encodeUtils.ts) and the padded numbers the bundle table
    compares as text (BundleTable.ts). */
module HexText {
  import opened Wrappers
  import opened Bytes

  function HexDigit(n: nat): char
    requires n < 16
  {
    if n < 10 then ('0' as nat + n) as char else ('a' as nat + n - 10) as char
  }

  function DigitValue(c: char): Option<nat> {
    if '0' <= c <= '9' then Some(c as nat - '0' as nat)
    else if 'a' <= c <= 'f' then Some(c as nat - 'a' as nat + 10)
    else None
  }

  lemma DigitsAre(n: nat)
    requires n < 16
    ensures HexDigit(n) == "0123456789abcdef"[n]
  {
  }

  lemma DigitReads(n: nat)
    requires n < 16
    ensures DigitValue(HexDigit(n)) == Some(n)
  {
  }

  function Digits(bytes: seq<Byte>): string {
    if bytes == [] then "" else [HexDigit(bytes[0] / 16), HexDigit(bytes[0] % 16)] + Digits(bytes[1..])
  }

  /** Two digits for each byte, the high one first. */
  lemma {:induction false} DigitsAt(bytes: seq<Byte>, i: nat)
    requires i < |bytes|
    ensures |Digits(bytes)| == 2 * |bytes|
    ensures Digits(bytes)[2 * i] == "0123456789abcdef"[bytes[i] / 16]
    ensures Digits(bytes)[2 * i + 1] == "0123456789abcdef"[bytes[i] % 16]
    decreases |bytes|
  {
    if i == 0 {
      DigitsAre(bytes[0] / 16);
      DigitsAre(bytes[0] % 16);
      DigitsLength(bytes);
    } else {
      DigitsAt(bytes[1..], i - 1);
    }
  }

  lemma {:induction false} DigitsLength(bytes: seq<Byte>)
    ensures |Digits(bytes)| == 2 * |bytes|
  {
    if bytes == [] {
    } else {
      DigitsLength(bytes[1..]);
    }
  }

  function Hex(bytes: seq<Byte>): string {
    "0x" + Digits(bytes)
  }

  /** Throws without the prefix. */
  function Remove0x(s: string): Option<string> {
    if "0x" <= s then Some(s[2..]) else None
  }

  function Remove0xAll(strings: seq<string>): Option<string> {
    if strings == [] then Some("")
    else
      var first :- Remove0x(strings[0]);
      var others :- Remove0xAll(strings[1..]);
      Some(first + others)
  }

  function HexJoin(strings: seq<string>): Option<string> {
    var digits :- Remove0xAll(strings);
    Some("0x" + digits)
  }

  function HexAll(pieces: seq<seq<Byte>>): seq<string> {
    if pieces == [] then [] else [Hex(pieces[0])] + HexAll(pieces[1..])
  }

  lemma {:induction false} DigitsConcat(a: seq<Byte>, b: seq<Byte>)
    ensures Digits(a + b) == Digits(a) + Digits(b)
  {
    if a == [] {
      assert a + b == b;
    } else {
      assert (a + b)[1..] == a[1..] + b;
      DigitsConcat(a[1..], b);
    }
  }

  /** Joining hex strings is joining the bytes they stand for, so working on bytes loses nothing. */
  lemma {:induction false} HexJoinIsConcat(pieces: seq<seq<Byte>>)
    ensures HexJoin(HexAll(pieces)) == Some(Hex(Concat(pieces)))
  {
    if pieces == [] {
    } else {
      HexJoinIsConcat(pieces[1..]);
      assert HexAll(pieces)[1..] == HexAll(pieces[1..]);
      assert Hex(pieces[0])[2..] == Digits(pieces[0]);
      assert ("0x" + Digits(Concat(pieces[1..])))[2..] == Digits(Concat(pieces[1..]));
      DigitsConcat(pieces[0], Concat(pieces[1..]));
    }
  }

  /** The bytes two digits at a time. */
  function Parse(s: string): Option<seq<Byte>> {
    if s == "" then Some([])
    else if |s| == 1 then None
    else
      var high :- DigitValue(s[0]);
      var low :- DigitValue(s[1]);
      var others :- Parse(s[2..]);
      if high < 16 && low < 16 then Some([16 * high + low] + others) else None
  }

  lemma ByteReads(b: Byte)
    ensures var high, low := DigitValue(HexDigit(b / 16)), DigitValue(HexDigit(b % 16));
            high.Some? && low.Some? && high.value < 16 && low.value < 16 && 16 * high.value + low.value == b
  {
    DigitReads(b / 16);
    DigitReads(b % 16);
  }

  lemma {:induction false} HexRoundTrip(bytes: seq<Byte>)
    ensures Parse(Digits(bytes)) == Some(bytes)
  {
    if bytes == [] {
    } else {
      var digits := Digits(bytes);
      ByteReads(bytes[0]);
      HexRoundTrip(bytes[1..]);
      assert digits[0] == HexDigit(bytes[0] / 16) && digits[1] == HexDigit(bytes[0] % 16);
      assert digits[2..] == Digits(bytes[1..]);
      assert bytes == [bytes[0]] + bytes[1..];
    }
  }

  // ---- Numbers as text ----

  function Pow16(w: nat): (p: nat)
    ensures p > 0
  {
    if w == 0 then 1 else 16 * Pow16(w - 1)
  }

  /** The w low hex digits of n. */
  function Fixed(n: nat, w: nat): (s: string)
    ensures |s| == w
  {
    if w == 0 then "" else Fixed(n / 16, w - 1) + [HexDigit(n % 16)]
  }

  /** Hex digits without leading zeros. */
  function Minimal(n: nat): (s: string)
    ensures |s| > 0
  {
    (if n < 16 then "" else Minimal(n / 16)) + [HexDigit(n % 16)]
  }

  /** `toHexString` without its prefix: an even number of digits. */
  function EvenDigits(n: nat): string {
    if |Minimal(n)| % 2 == 0 then Minimal(n) else "0" + Minimal(n)
  }

  function PadStart(s: string, w: nat): string
    decreases w - |s|
  {
    if |s| < w then PadStart("0" + s, w) else s
  }

  function ToUint256Hex(n: nat): string {
    "0x" + PadStart(EvenDigits(n), 64)
  }

  /** Text order as the database compares it: character by character, a proper prefix first. */
  predicate TextLe(a: string, b: string) {
    a == [] || (b != [] && (a[0] < b[0] || (a[0] == b[0] && TextLe(a[1..], b[1..]))))
  }

  lemma {:induction false} MinimalFits(n: nat, w: nat)
    requires n < Pow16(w) && w > 0
    ensures |Minimal(n)| <= w
  {
    if n < 16 {
    } else {
      assert w > 1;
      MinimalFits(n / 16, w - 1);
    }
  }

  lemma {:induction false} PadZeros(n: nat, k: nat)
    ensures Fixed(n, |Minimal(n)| + k) == ZeroDigits(k) + Minimal(n)
  {
    if n < 16 {
      FixedZero(k);
    } else {
      PadZeros(n / 16, k);
      assert ZeroDigits(k) + Minimal(n) == (ZeroDigits(k) + Minimal(n / 16)) + [HexDigit(n % 16)];
    }
  }

  function ZeroDigits(k: nat): (s: string)
    ensures |s| == k
  {
    if k == 0 then "" else ZeroDigits(k - 1) + "0"
  }

  lemma {:induction false} FixedZero(k: nat)
    ensures Fixed(0, k) == ZeroDigits(k)
  {
    if k == 0 {
    } else {
      FixedZero(k - 1);
    }
  }

  lemma {:induction false} ZerosFront(k: nat)
    ensures ZeroDigits(k + 1) == "0" + ZeroDigits(k)
  {
    if k == 0 {
    } else {
      ZerosFront(k - 1);
    }
  }

  lemma {:induction false} PadStartZeros(s: string, w: nat)
    requires |s| <= w
    ensures PadStart(s, w) == ZeroDigits(w - |s|) + s
    decreases w - |s|
  {
    if |s| == w {
    } else {
      PadStartZeros("0" + s, w);
      var k := w - |s| - 1;
      ZerosFront(k);
      assert ZeroDigits(k) + ("0" + s) == ZeroDigits(k + 1) + s;
    }
  }

  lemma {:induction false} Pow16IsPow256(w: nat)
    ensures Pow16(2 * w) == Pow256(w)
  {
    if w == 0 {
    } else {
      Pow16IsPow256(w - 1);
      assert Pow16(2 * w) == 16 * (16 * Pow16(2 * (w - 1)));
    }
  }

  lemma WordIs64Digits()
    ensures Pow16(64) == TWO_256
  {
    Pow16IsPow256(32);
    WordIs32Bytes();
  }

  lemma WordTextIsFixed(n: Word)
    ensures ToUint256Hex(n) == "0x" + Fixed(n, 64)
  {
    WordIs64Digits();
    PaddedIsFixed(n, 64);
  }

  lemma PaddedIsFixed(n: nat, w: nat)
    requires n < Pow16(w) && w > 0 && w % 2 == 0
    ensures PadStart(EvenDigits(n), w) == Fixed(n, w)
  {
    MinimalFits(n, w);
    PadZeros(n, w - |Minimal(n)|);
    PadEven(Minimal(n), w);
  }

  /** Padding does not depend on whether the digits were first made even in number. */
  lemma PadEven(m: string, w: nat)
    requires |m| <= w && w % 2 == 0
    ensures PadStart(if |m| % 2 == 0 then m else "0" + m, w) == ZeroDigits(w - |m|) + m
  {
    PadStartZeros(m, w);
  }

  lemma {:induction false} TextLeSnoc(a: string, b: string, x: char, y: char)
    requires |a| == |b|
    ensures TextLe(a + [x], b + [y]) <==> (if a == b then x <= y else TextLe(a, b))
  {
    if a == [] {
      assert TextLe([x][1..], [y][1..]);
      assert a + [x] == [x] && b + [y] == [y];
    } else {
      TextLeSnoc(a[1..], b[1..], x, y);
      assert (a + [x])[1..] == a[1..] + [x] && (b + [y])[1..] == b[1..] + [y];
      assert a == [a[0]] + a[1..] && b == [b[0]] + b[1..];
    }
  }

  lemma {:induction false} FixedOrder(n: nat, m: nat, w: nat)
    requires n < Pow16(w) && m < Pow16(w)
    ensures TextLe(Fixed(n, w), Fixed(m, w)) <==> n <= m
    ensures Fixed(n, w) == Fixed(m, w) <==> n == m
  {
    if w == 0 {
    } else {
      FixedOrder(n / 16, m / 16, w - 1);
      TextLeSnoc(Fixed(n / 16, w - 1), Fixed(m / 16, w - 1), HexDigit(n % 16), HexDigit(m % 16));
      assert HexDigit(n % 16) <= HexDigit(m % 16) <==> n % 16 <= m % 16;
      var a, b := Fixed(n, w), Fixed(m, w);
      assert a[..w - 1] == Fixed(n / 16, w - 1) && b[..w - 1] == Fixed(m / 16, w - 1);
      assert a == b <==> a[..w - 1] == b[..w - 1] && a[w - 1] == b[w - 1];
    }
  }

  lemma PrefixedOrder(a: string, b: string)
    ensures TextLe("0x" + a, "0x" + b) <==> TextLe(a, b)
  {
    assert ("0x" + a)[1..] == "x" + a && ("0x" + b)[1..] == "x" + b;
    assert ("x" + a)[1..] == a && ("x" + b)[1..] == b;
  }

  /** For 256-bit numbers text order is number order. */
  lemma TextOrderIsNumberOrder(n: Word, m: Word)
    ensures TextLe(ToUint256Hex(n), ToUint256Hex(m)) <==> n <= m
  {
    WordIs64Digits();
    WordTextIsFixed(n);
    WordTextIsFixed(m);
    FixedOrder(n, m, 64);
    PrefixedOrder(Fixed(n, 64), Fixed(m, 64));
  }

  /** Reading a number back from its digits. */
  function ReadDigits(s: string): Option<nat> {
    if s == "" then Some(0)
    else
      var high :- ReadDigits(s[..|s| - 1]);
      var low :- DigitValue(s[|s| - 1]);
      Some(16 * high + low)
  }

  function ReadHex(s: string): Option<nat> {
    var digits :- Remove0x(s);
    ReadDigits(digits)
  }

  lemma {:induction false} ReadFixed(n: nat, w: nat)
    requires n < Pow16(w)
    ensures ReadDigits(Fixed(n, w)) == Some(n)
  {
    if w == 0 {
    } else {
      ReadFixed(n / 16, w - 1);
      DigitReads(n % 16);
      assert Fixed(n, w)[..w - 1] == Fixed(n / 16, w - 1);
    }
  }

  /** The padded text of a 256-bit number reads back as that number. */
  lemma ReadUint256Hex(n: Word)
    ensures ReadHex(ToUint256Hex(n)) == Some(n)
  {
    WordIs64Digits();
    WordTextIsFixed(n);
    ReadFixed(n, 64);
    assert ("0x" + Fixed(n, 64))[2..] == Fixed(n, 64);
  }
}
