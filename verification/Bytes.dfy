/** Byte strings: little-endian integers, ASCII text, and the hash functions applied to them. */
module Bytes {
  import opened Wrappers

  type byte = x: int | 0 <= x < 256
  type bytes = seq<byte>

  /** SHA-256 is any function from byte strings to 32-byte digests. */
  type Digest = d: bytes | |d| == 32 witness seq(32, _ => 0)
  type Sha256 = bytes -> Digest

  // ---------------------------------------------------------------- integers

  function Pow256(n: nat): (p: nat)
    ensures p > 0
  {
    if n == 0 then 1 else 256 * Pow256(n - 1)
  }

  function FromLE(b: bytes): nat {
    if b == [] then 0 else b[0] + 256 * FromLE(b[1..])
  }

  /** The n low bytes of v, least significant first. */
  function LE(v: nat, n: nat): (b: bytes)
    ensures |b| == n
  {
    seq(n, i requires 0 <= i < n => LowByteOf(v, i))
  }

  function LowByteOf(v: nat, i: nat): byte {
    v / Pow256(i) % 256
  }

  lemma DivideTwice(v: nat, p: nat)
    requires p > 0
    ensures v / (256 * p) == v / 256 / p
  {
    var q := v / 256;
    var k, s := q / p, q % p;
    assert q == p * k + s;
    assert v == (256 * p) * k + (256 * s + v % 256);
    QuotientIs(256 * p, k, 256 * s + v % 256);
  }

  lemma QuotientIs(d: int, k: int, r: int)
    requires 0 <= r < d
    ensures (d * k + r) / d == k
  {
    var n := d * k + r;
    var q := n / d;
    DivisionBounds(n, d);
    if q < k { Scaled(d, q + 1, k); }
    if k < q { Scaled(d, k + 1, q); }
  }

  lemma DivisionBounds(n: int, d: int)
    requires d > 0
    ensures d * (n / d) <= n < d * (n / d + 1)
  {
  }

  lemma Scaled(d: int, a: int, b: int)
    requires d > 0 && a <= b
    ensures d * a <= d * b
  {
  }

  lemma LEStep(v: nat, n: nat)
    requires n > 0
    ensures LE(v, n) == [v % 256] + LE(v / 256, n - 1)
  {
    forall i | 0 <= i < n ensures LE(v, n)[i] == ([v % 256] + LE(v / 256, n - 1))[i] {
      if i > 0 { DivideTwice(v, Pow256(i - 1)); }
    }
  }

  lemma {:induction false} LEInverse(v: nat, n: nat)
    requires v < Pow256(n)
    ensures FromLE(LE(v, n)) == v
  {
    if n > 0 {
      LEInverse(v / 256, n - 1);
      LEStep(v, n);
      assert LE(v, n)[1..] == LE(v / 256, n - 1);
    }
  }

  lemma {:induction false} FromLEInverse(b: bytes)
    ensures FromLE(b) < Pow256(|b|)
    ensures LE(FromLE(b), |b|) == b
  {
    if b != [] {
      FromLEInverse(b[1..]);
      LowByte(b[0], FromLE(b[1..]));
      LEStep(FromLE(b), |b|);
      assert b == [b[0]] + b[1..];
    }
  }

  lemma LowByte(low: byte, high: nat)
    ensures (low + 256 * high) % 256 == low && (low + 256 * high) / 256 == high
  {
  }

  lemma Widths()
    ensures Pow256(4) == 0x1_0000_0000
    ensures Pow256(8) == 0x1_0000_0000_0000_0000
  {
    assert Pow256(2) == 0x1_0000;
  }

  // ---------------------------------------------------------------- NUL-terminated fields

  function FirstZero(b: bytes): nat {
    if b == [] || b[0] == 0 then 0 else 1 + FirstZero(b[1..])
  }

  lemma {:induction false} FirstZeroEnds(v: bytes, s: bytes)
    requires 0 !in v
    ensures FirstZero(v + [0] + s) == |v|
  {
    if v != [] {
      assert (v + [0] + s)[1..] == v[1..] + [0] + s;
      FirstZeroEnds(v[1..], s);
    }
  }

  lemma SplitAtNul(v: bytes, w: bytes, s: bytes, t: bytes)
    requires 0 !in v && 0 !in w && v + [0] + s == w + [0] + t
    ensures v == w && s == t
  {
    FirstZeroEnds(v, s);
    FirstZeroEnds(w, t);
    var a, b := v + [0] + s, w + [0] + t;
    assert a[..|v|] == v && b[..|w|] == w;
    assert a[|v| + 1..] == s && b[|w| + 1..] == t;
  }

  // ---------------------------------------------------------------- text

  predicate IsAscii(s: string) {
    forall i :: 0 <= i < |s| ==> s[i] < 128 as char
  }

  /** s.encode("ascii") */
  function Ascii(s: string): (b: bytes)
    requires IsAscii(s)
    ensures |b| == |s|
  {
    seq(|s|, i requires 0 <= i < |s| => s[i] as int)
  }

  /** b.decode("ascii") */
  function Decode(b: bytes): (r: Result<string>)
    ensures r.Ok? ==> IsAscii(r.value) && Ascii(r.value) == b
    ensures r.Ok? <==> forall i :: 0 <= i < |b| ==> b[i] < 128
    ensures r.Err? ==> r.error == UnicodeDecodeError
  {
    if forall i :: 0 <= i < |b| ==> b[i] < 128
    then Ok(seq(|b|, i requires 0 <= i < |b| => b[i] as char))
    else Err(UnicodeDecodeError)
  }

  lemma DecodeAscii(s: string)
    requires IsAscii(s)
    ensures Decode(Ascii(s)) == Ok(s)
  {
    var r := Decode(Ascii(s)).value;
    assert forall i :: 0 <= i < |s| ==> Ascii(s)[i] == s[i] as int;
    assert forall i :: 0 <= i < |s| ==> r[i] == s[i];
    assert r == s;
  }

  function HexDigit(n: nat): byte
    requires n < 16
  {
    if n < 10 then 48 + n else 87 + n
  }

  /** b.hex() as ASCII text. */
  function Hex(b: bytes): (h: bytes)
    ensures |h| == 2 * |b|
  {
    if b == [] then [] else [HexDigit(b[0] / 16), HexDigit(b[0] % 16)] + Hex(b[1..])
  }

  /** The value of a lower-case hexadecimal digit. */
  function DigitValue(c: byte): int {
    if 48 <= c <= 57 then c - 48 else if 97 <= c <= 102 then c - 87 else -1
  }

  /** Hexadecimal text reads back, high digit first. */
  lemma {:induction false} HexReadsBack(b: bytes, i: nat)
    requires i < |b|
    ensures var high, low := DigitValue(Hex(b)[2 * i]), DigitValue(Hex(b)[2 * i + 1]);
      0 <= high < 16 && 0 <= low < 16 && b[i] == 16 * high + low
  {
    if i > 0 { HexReadsBack(b[1..], i - 1); }
  }
}
