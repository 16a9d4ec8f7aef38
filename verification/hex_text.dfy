/**
 * Text conversions between hexadecimal digits, binary digits and numbers,
 * as used around the quantum hash: `int(c, 16)`, `format(v, '04b')`,
 * `int(s, 2)` and `hex(n)[2:]`.
 */
module HexText {

  predicate IsBit(c: char) {
    c == '0' || c == '1'
  }

  predicate IsBitString(s: string) {
    forall i :: 0 <= i < |s| ==> IsBit(s[i])
  }

  /** The digits `hashlib`'s `hexdigest()` and Python's `hex` produce. */
  predicate IsLowerHexDigit(c: char) {
    ('0' <= c <= '9') || ('a' <= c <= 'f')
  }

  predicate IsLowerHex(s: string) {
    forall i :: 0 <= i < |s| ==> IsLowerHexDigit(s[i])
  }

  function Pow2(k: nat): (r: nat)
    ensures r >= 1
  {
    if k == 0 then 1 else 2 * Pow2(k - 1)
  }

  function Pow16(k: nat): (r: nat)
    ensures r >= 1
  {
    if k == 0 then 1 else 16 * Pow16(k - 1)
  }

  /** `int(c, 16)` for one lower-case digit. */
  function DigitValue(c: char): (v: nat)
    requires IsLowerHexDigit(c)
    ensures v < 16
  {
    if c <= '9' then c as int - '0' as int else c as int - 'a' as int + 10
  }

  /** The lower-case digit of a value below 16. */
  function DigitChar(v: nat): (c: char)
    requires v < 16
    ensures IsLowerHexDigit(c) && DigitValue(c) == v
    ensures v == 0 <==> c == '0'
  {
    if v < 10 then ('0' as int + v) as char else ('a' as int + v - 10) as char
  }

  /** `DigitChar` and `DigitValue` are inverse on the lower-case digits. */
  lemma DigitCharOfValue(c: char)
    requires IsLowerHexDigit(c)
    ensures DigitChar(DigitValue(c)) == c
  {
  }

  /** `int(s, 2)`: the value of a string of binary digits, most significant first. */
  function BinValue(s: string): (v: nat)
    requires IsBitString(s)
    ensures v < Pow2(|s|)
  {
    if s == [] then 0 else 2 * BinValue(s[..|s| - 1]) + (if s[|s| - 1] == '1' then 1 else 0)
  }

  /** `int(s, 16)`: the value of a string of lower-case hex digits, most significant first. */
  function HexValue(s: string): nat
    requires IsLowerHex(s)
  {
    if s == [] then 0 else 16 * HexValue(s[..|s| - 1]) + DigitValue(s[|s| - 1])
  }

  function BitChar(b: nat): char {
    if b == 1 then '1' else '0'
  }

  /** `format(v, '04b')`: four binary digits, zero-padded on the left. */
  function Bits4(v: nat): (s: string)
    requires v < 16
    ensures |s| == 4 && IsBitString(s) && BinValue(s) == v
  {
    var s := [BitChar(v / 8), BitChar(v / 4 % 2), BitChar(v / 2 % 2), BitChar(v % 2)];
    var p1, p2, p3 := s[..1], s[..2], s[..3];
    assert p3[..2] == p2 && p2[..1] == p1 && p1[..0] == [];
    assert BinValue(p1) == v / 8;
    assert BinValue(p2) == v / 4;
    assert BinValue(p3) == v / 2;
    s
  }

  /** `''.join(format(int(c, 16), '04b') for c in h)`: four binary digits per hex digit. */
  function HexToBinary(h: string): (b: string)
    requires IsLowerHex(h)
    ensures |b| == 4 * |h| && IsBitString(b)
  {
    if h == [] then [] else Bits4(DigitValue(h[0])) + HexToBinary(h[1..])
  }

  /** Reads a binary string back four digits at a time, one hex digit per group. */
  function BinaryToHex(b: string): (h: string)
    requires IsBitString(b) && |b| % 4 == 0
    ensures |h| == |b| / 4 && IsLowerHex(h)
  {
    if b == [] then []
    else
      Pow16IsPow2(1);
      [DigitChar(BinValue(b[..4]))] + BinaryToHex(b[4..])
  }

  /** Decoding each 4-bit group recovers the hex digits that were expanded. */
  lemma {:induction false} BinaryToHexInverse(h: string)
    requires IsLowerHex(h)
    ensures BinaryToHex(HexToBinary(h)) == h
  {
    if h != [] {
      var b := HexToBinary(h);
      var head := Bits4(DigitValue(h[0]));
      assert b[..4] == head;
      assert b[4..] == HexToBinary(h[1..]);
      DigitCharOfValue(h[0]);
      BinaryToHexInverse(h[1..]);
    }
  }

  /** `hex(n)[2:]`: lower-case hex digits without the `0x` prefix and without leading zeros. */
  function ToHex(n: nat): (s: string)
    ensures |s| >= 1 && IsLowerHex(s)
    ensures s[0] == '0' <==> n == 0
    ensures n == 0 ==> s == "0"
  {
    if n < 16 then [DigitChar(n)] else ToHex(n / 16) + [DigitChar(n % 16)]
  }

  /** The text `ToHex` writes parses back to the same number. */
  lemma {:induction false} ToHexValue(n: nat)
    ensures HexValue(ToHex(n)) == n
  {
    var s := ToHex(n);
    if n < 16 {
      assert s[..|s| - 1] == [];
    } else {
      assert s[..|s| - 1] == ToHex(n / 16);
      ToHexValue(n / 16);
    }
  }

  /** A number below 16^k needs at most k hex digits. */
  lemma {:induction false} ToHexLength(n: nat, k: nat)
    requires k >= 1 && n < Pow16(k)
    ensures |ToHex(n)| <= k
  {
    if n >= 16 {
      assert k >= 2;
      assert n / 16 < Pow16(k - 1);
      ToHexLength(n / 16, k - 1);
    }
  }

  lemma BitStringConcat(a: string, b: string)
    requires IsBitString(a) && IsBitString(b)
    ensures IsBitString(a + b)
  {
  }

  /** One digit step of positional notation: base * (x * y + z) + c == x * (base * y) + (base * z + c). */
  lemma ShiftStep(base: int, x: int, y: int, z: int, c: int)
    ensures base * (x * y + z) + c == x * (base * y) + (base * z + c)
  {
  }

  /** Appending binary digits shifts the value of the prefix left by their count. */
  lemma {:induction false} BinValueAppend(a: string, b: string)
    requires IsBitString(a) && IsBitString(b)
    ensures IsBitString(a + b) && BinValue(a + b) == BinValue(a) * Pow2(|b|) + BinValue(b)
  {
    BitStringConcat(a, b);
    var ab := a + b;
    if b == [] {
      assert ab == a;
    } else {
      var b' := b[..|b| - 1];
      assert ab[..|ab| - 1] == a + b';
      assert ab[|ab| - 1] == b[|b| - 1];
      BinValueAppend(a, b');
      var bit := if b[|b| - 1] == '1' then 1 else 0;
      assert BinValue(ab) == 2 * BinValue(a + b') + bit;
      assert BinValue(b) == 2 * BinValue(b') + bit;
      ShiftStep(2, BinValue(a), Pow2(|b'|), BinValue(b'), bit);
    }
  }

  /** The value of hex text, split after its leading digit. */
  lemma {:induction false} HexValueFront(h: string)
    requires IsLowerHex(h) && h != []
    ensures HexValue(h) == DigitValue(h[0]) * Pow16(|h| - 1) + HexValue(h[1..])
  {
    if |h| > 1 {
      var init := h[..|h| - 1];
      var tail := h[1..];
      assert init[0] == h[0] && init[1..] == tail[..|tail| - 1];
      HexValueFront(init);
      var d := DigitValue(h[|h| - 1]);
      assert HexValue(h) == 16 * HexValue(init) + d;
      assert HexValue(tail) == 16 * HexValue(init[1..]) + d;
      ShiftStep(16, DigitValue(h[0]), Pow16(|h| - 2), HexValue(init[1..]), d);
    } else {
      assert h[..0] == [] && h[1..] == [];
    }
  }

  /** The expanded bit string has the same value as the hex digits it came from. */
  lemma {:induction false} HexToBinaryValue(h: string)
    requires IsLowerHex(h)
    ensures BinValue(HexToBinary(h)) == HexValue(h)
  {
    if h != [] {
      var d := DigitValue(h[0]);
      HexToBinaryValue(h[1..]);
      BinValueAppend(Bits4(d), HexToBinary(h[1..]));
      Pow16IsPow2(|h| - 1);
      HexValueFront(h);
    }
  }

  /** 16^k == 2^(4k): k hex digits carry exactly 4k bits. */
  lemma {:induction false} Pow16IsPow2(k: nat)
    ensures Pow16(k) == Pow2(4 * k)
  {
    if k > 0 {
      Pow16IsPow2(k - 1);
      assert Pow2(4 * k) == 2 * Pow2(4 * k - 1) == 4 * Pow2(4 * k - 2) == 8 * Pow2(4 * k - 3);
    }
  }
}
