/** Bytes, fixed-width integers and their little-endian layout. */
module Bytes {
  import Arith

  type byte = x: int | 0 <= x < 256
  type u16 = x: int | 0 <= x < 0x1_0000
  type u32 = x: int | 0 <= x < 0x1_0000_0000
  type u64 = x: int | 0 <= x < 0x1_0000_0000_0000_0000
  type i32 = x: int | -0x8000_0000 <= x < 0x8000_0000
  type bytes = seq<byte>

  /** What a `std::vector<uint8_t>` or `std::string` can hold: its size is a 64-bit `size_t`. */
  type Buffer = s: bytes | |s| < 0x1_0000_0000_0000_0000

  const U32_MAX: nat := 0xFFFF_FFFF

  datatype Option<+T> = None | Some(value: T)

  /** `static_cast<int>` of a `uint32_t`, and back. */
  function ToI32(v: u32): i32 {
    if v < 0x8000_0000 then v else v - 0x1_0000_0000
  }

  function ToU32(v: i32): u32 {
    v % 0x1_0000_0000
  }

  /** The bytes of a literal text. */
  function Ascii(text: string): bytes {
    seq(|text|, i requires 0 <= i < |text| => text[i] as int % 256)
  }

  /** The decimal digits of a count, as `std::to_string` gives them. */
  function Decimal(n: nat): bytes {
    if n < 10 then [48 + n] else Decimal(n / 10) + [48 + n % 10]
  }

  /** Digits, of which the first is not zero unless it is the only one. */
  predicate IsNumeral(s: bytes) {
    && s != [] && (forall i :: 0 <= i < |s| ==> 48 <= s[i] <= 57)
    && (s[0] == 48 ==> |s| == 1)
  }

  /** What a numeral stands for. */
  function NumeralValue(s: bytes): int {
    if s == [] then 0 else 10 * NumeralValue(s[..|s| - 1]) + (s[|s| - 1] as int - 48)
  }

  lemma {:induction false} DecimalMeans(n: nat)
    ensures IsNumeral(Decimal(n)) && NumeralValue(Decimal(n)) == n
    ensures n > 0 ==> Decimal(n)[0] != 48
  {
    if n < 10 {
      assert Decimal(n)[..0] == [];
    } else {
      DecimalMeans(n / 10);
      assert Decimal(n)[..|Decimal(n)| - 1] == Decimal(n / 10);
    }
  }

  /** Every numeral of two digits or more is at least ten. */
  lemma {:induction false} NumeralUnique(s: bytes)
    requires IsNumeral(s)
    ensures NumeralValue(s) >= 0 && (s[0] != 48 ==> NumeralValue(s) > 0) && Decimal(NumeralValue(s)) == s
  {
    var n := |s| - 1;
    if n == 0 {
      assert NumeralValue(s[..0]) == 0;
      assert s == [s[0]];
    } else {
      assert s[..n][0] == s[0];
      NumeralUnique(s[..n]);
      assert NumeralValue(s) / 10 == NumeralValue(s[..n]);
      assert s == s[..n] + [s[n]];
    }
  }

  /** The decimal digits of `n` are the one numeral that stands for it. */
  lemma DecimalIs(n: nat, s: bytes)
    ensures s == Decimal(n) <==> IsNumeral(s) && NumeralValue(s) == n
  {
    DecimalMeans(n);
    if IsNumeral(s) { NumeralUnique(s); }
  }

  function Pow256(n: nat): (p: nat)
    ensures p > 0
  {
    if n == 0 then 1 else 256 * Pow256(n - 1)
  }

  lemma Widths()
    ensures Pow256(2) == 0x1_0000
    ensures Pow256(4) == 0x1_0000_0000
    ensures Pow256(8) == 0x1_0000_0000_0000_0000
  {
    assert Pow256(3) == 256 * Pow256(2);
    assert Pow256(5) == 256 * Pow256(4);
    assert Pow256(6) == 256 * Pow256(5);
    assert Pow256(7) == 256 * Pow256(6);
  }

  /** The low `n` bytes of `v`, least significant first. */
  function LE(v: nat, n: nat): (s: bytes)
    ensures |s| == n
  {
    if n == 0 then [] else [v % 256] + LE(v / 256, n - 1)
  }

  function FromLE(s: bytes): nat {
    if s == [] then 0 else s[0] + 256 * FromLE(s[1..])
  }

  lemma {:induction false} FromLEBound(s: bytes)
    ensures FromLE(s) < Pow256(|s|)
  {
    if s != [] {
      FromLEBound(s[1..]);
    }
  }

  lemma LowDigits(v: nat, p: nat)
    requires p > 0
    ensures v % (256 * p) == v % 256 + 256 * (v / 256 % p)
  {
    var q, r := v / 256, v % 256;
    var k, m := q / p, q % p;
    assert q == k * p + m;
    assert v == k * (256 * p) + (256 * m + r);
    Arith.DigitsOf(k, 256 * m + r, 256 * p);
  }

  /** Reading back the low bytes of a value gives it modulo what they can hold. */
  lemma {:induction false} FromLEOfLE(v: nat, n: nat)
    ensures FromLE(LE(v, n)) == v % Pow256(n)
    ensures v < Pow256(n) ==> FromLE(LE(v, n)) == v
  {
    if n > 0 {
      FromLEOfLE(v / 256, n - 1);
      assert LE(v, n)[1..] == LE(v / 256, n - 1);
      LowDigits(v, Pow256(n - 1));
    }
  }

  lemma LastDigit(b: byte, n: nat)
    ensures (b + 256 * n) % 256 == b && (b + 256 * n) / 256 == n
  {
  }

  lemma {:induction false} LEOfFromLE(s: bytes)
    ensures LE(FromLE(s), |s|) == s
  {
    if s != [] {
      var n := FromLE(s[1..]);
      LEOfFromLE(s[1..]);
      LastDigit(s[0], n);
      assert LE(FromLE(s), |s|) == [s[0]] + LE(n, |s| - 1);
      assert s == [s[0]] + s[1..];
    }
  }

  /** Shifting right by `8 * i` bits and masking picks byte `i`. */
  function ShiftRight8(v: nat, i: nat): nat {
    if i == 0 then v else ShiftRight8(v / 256, i - 1)
  }

  lemma {:induction false} LEAt(v: nat, n: nat, i: nat)
    requires i < n
    ensures LE(v, n)[i] == ShiftRight8(v, i) % 256
  {
    if i > 0 {
      LEAt(v / 256, n - 1, i - 1);
    }
  }

  lemma Carried(b: nat, p: nat)
    ensures 256 * (b * p) == b * (256 * p)
  {
  }

  /** Or-ing byte `i` shifted left by `8 * i` bits extends the value read so far. */
  lemma {:induction false} FromLEPush(s: bytes, b: byte)
    ensures FromLE(s + [b]) == FromLE(s) + b * Pow256(|s|)
  {
    if s == [] {
      assert (s + [b])[1..] == [];
    } else {
      FromLEPush(s[1..], b);
      assert (s + [b])[1..] == s[1..] + [b];
      Carried(b, Pow256(|s| - 1));
    }
  }

  function Get16(s: bytes): u16
    requires |s| >= 2
  {
    Widths(); FromLEBound(s[..2]); FromLE(s[..2])
  }

  function Get32(s: bytes): u32
    requires |s| >= 4
  {
    Widths(); FromLEBound(s[..4]); FromLE(s[..4])
  }

  function Get64(s: bytes): u64
    requires |s| >= 8
  {
    Widths(); FromLEBound(s[..8]); FromLE(s[..8])
  }

  lemma Get16Of(v: u16, rest: bytes)
    ensures Get16(LE(v, 2) + rest) == v && (LE(v, 2) + rest)[2..] == rest
  {
    Widths(); FromLEOfLE(v, 2);
    assert (LE(v, 2) + rest)[..2] == LE(v, 2);
  }

  lemma Get32Of(v: u32, rest: bytes)
    ensures Get32(LE(v, 4) + rest) == v && (LE(v, 4) + rest)[4..] == rest
  {
    Widths(); FromLEOfLE(v, 4);
    assert (LE(v, 4) + rest)[..4] == LE(v, 4);
  }

  lemma Get64Of(v: u64, rest: bytes)
    ensures Get64(LE(v, 8) + rest) == v && (LE(v, 8) + rest)[8..] == rest
  {
    Widths(); FromLEOfLE(v, 8);
    assert (LE(v, 8) + rest)[..8] == LE(v, 8);
  }

  lemma OfGet16(s: bytes, k: nat)
    requires k + 2 <= |s|
    ensures LE(Get16(s[k..]), 2) + s[k + 2..] == s[k..]
  {
    LEOfFromLE(s[k..][..2]);
  }

  lemma OfGet32(s: bytes, k: nat)
    requires k + 4 <= |s|
    ensures LE(Get32(s[k..]), 4) + s[k + 4..] == s[k..]
  {
    LEOfFromLE(s[k..][..4]);
  }

  lemma OfGet64(s: bytes, k: nat)
    requires k + 8 <= |s|
    ensures LE(Get64(s[k..]), 8) + s[k + 8..] == s[k..]
  {
    LEOfFromLE(s[k..][..8]);
  }

  // ------------------------------------------------------------- concatenation

  lemma Associate<T>(a: seq<T>, b: seq<T>, c: seq<T>)
    ensures (a + b) + c == a + (b + c)
  {
  }

  lemma DropTwice<T>(s: seq<T>, i: nat, j: nat)
    requires i + j <= |s|
    ensures s[i..][j..] == s[i + j..]
  {
  }

  lemma TakeAfter<T>(s: seq<T>, i: nat, j: nat)
    requires i + j <= |s|
    ensures s[i..][..j] == s[i..i + j]
  {
  }
}
