/** Little-endian integers as Python's `int.from_bytes(bs, 'little', signed=...)`
    computes them: byte 0 is the least significant. */
module LittleEndian {
  import opened Arith

  /** One byte of the input file. */
  type Byte = b: int | 0 <= b < 256

  /** 256^n, the number of distinct values an n-byte field can hold. */
  function Pow256(n: nat): (r: nat)
    ensures r >= 1
  {
    if n == 0 then 1 else 256 * Pow256(n - 1)
  }

  /** 2^(8w-1): the magnitude bound of a signed w-byte two's-complement integer. */
  function SignedLimit(w: nat): nat
    requires w >= 1
  {
    128 * Pow256(w - 1)
  }

  /** The unsigned little-endian integer of `s`; the empty sequence reads as 0. */
  function LeUnsigned(s: seq<Byte>): nat
  {
    if s == [] then 0 else s[0] + 256 * LeUnsigned(s[1..])
  }

  /** The signed (two's-complement) little-endian integer of `s`:
      the unsigned value, less 256^|s| when the top bit of the last byte is set. */
  function LeSigned(s: seq<Byte>): int
  {
    if s == [] then 0
    else
      var u := LeUnsigned(s);
      if u >= SignedLimit(|s|) then u - Pow256(|s|) else u
  }

  /** An n-byte field holds less than 256^n. */
  lemma {:induction false} LeUnsignedBound(s: seq<Byte>)
    ensures LeUnsigned(s) < Pow256(|s|)
  {
    if s != [] {
      LeUnsignedBound(s[1..]);
    }
  }

  /** A signed w-byte value lies in [-2^(8w-1), 2^(8w-1)) and is negative
      exactly when the top bit of its last byte is set. */
  lemma LeSignedRange(s: seq<Byte>)
    requires |s| >= 1
    ensures -(SignedLimit(|s|) as int) <= LeSigned(s) < SignedLimit(|s|)
    ensures LeSigned(s) < 0 <==> s[|s| - 1] >= 128
  {
    LeUnsignedBound(s);
    LeTopByte(s);
    assert Pow256(|s|) == 2 * SignedLimit(|s|);
  }

  /** The top bit of the last byte decides whether the unsigned value reaches 2^(8|s|-1). */
  lemma {:induction false} LeTopByte(s: seq<Byte>)
    requires |s| >= 1
    ensures LeUnsigned(s) >= SignedLimit(|s|) <==> s[|s| - 1] >= 128
  {
    if |s| > 1 {
      LeTopByte(s[1..]);
      assert s[1..][|s[1..]| - 1] == s[|s| - 1];
      assert LeUnsigned(s) == s[0] + 256 * LeUnsigned(s[1..]);
      assert SignedLimit(|s|) == 256 * SignedLimit(|s| - 1);
    }
  }

  lemma {:induction false} Pow256Monotone(m: nat, n: nat)
    requires m <= n
    ensures Pow256(m) <= Pow256(n)
  {
    if m < n {
      Pow256Monotone(m, n - 1);
    }
  }

  /** A shorter group reads within the signed bounds of a longer one. */
  lemma SignedLimitMonotone(m: nat, n: nat)
    requires 1 <= m <= n
    ensures SignedLimit(m) <= SignedLimit(n)
  {
    Pow256Monotone(m - 1, n - 1);
  }

  /** The w-byte little-endian encoding of the residue of `v` modulo 256^w. */
  function LeBytes(v: int, w: nat): (s: seq<Byte>)
    ensures |s| == w
    decreases w
  {
    if w == 0 then [] else [v % 256] + LeBytes(v / 256, w - 1)
  }

  /** Encoding then decoding unsigned gives back the residue of `v` modulo 256^w. */
  lemma {:induction false} LeUnsignedOfBytes(v: int, w: nat)
    ensures LeUnsigned(LeBytes(v, w)) == v % Pow256(w)
    decreases w
  {
    if w > 0 {
      var s := LeBytes(v, w);
      assert s[1..] == LeBytes(v / 256, w - 1);
      LeUnsignedOfBytes(v / 256, w - 1);
      DivModNested(v, 256, Pow256(w - 1));
    }
  }

  /** v mod (a*b) splits into the low digit and the high part: the usual mixed-radix law. */
  lemma DivModNested(v: int, a: nat, b: nat)
    requires a > 0 && b > 0
    ensures v % (a * b) == v % a + a * ((v / a) % b)
  {
    var q := v / a;
    MixedRadix(v, a, b, q, v % a, q / b, q % b);
    DivModUnique(v, a * b, q / b, v % a + a * (q % b));
  }

  /** Two digits in radices a and b form one digit in radix a*b. */
  lemma MixedRadix(v: int, a: nat, b: nat, q: int, r: int, q2: int, r2: int)
    requires v == a * q + r && 0 <= r < a
    requires q == b * q2 + r2 && 0 <= r2 < b
    ensures a * b > 0
    ensures v == (a * b) * q2 + (r + a * r2)
    ensures 0 <= r + a * r2 < a * b
  {
    MulAtLeast(a, b);
    assert a * q == (a * b) * q2 + a * r2 by {
      MixedRadixProduct(a, b, q2, r2);
    }
    MixedRadixDigit(a, b, r2, r);
  }

  lemma MixedRadixProduct(a: int, b: int, q2: int, r2: int)
    ensures a * (b * q2 + r2) == (a * b) * q2 + a * r2
  {
  }

  lemma MixedRadixDigit(a: nat, b: nat, r2: nat, r: nat)
    requires r2 < b && r < a
    ensures 0 <= a * r2 + r < a * b
  {
    MulMonotone(r2, b - 1, a);
    assert (b - 1) * a == a * b - a;
  }

  /** Encoding a value within the signed w-byte range and decoding signed gives it back. */
  lemma LeSignedOfBytes(v: int, w: nat)
    requires w >= 1 && -(SignedLimit(w) as int) <= v < SignedLimit(w)
    ensures LeSigned(LeBytes(v, w)) == v
  {
    LeUnsignedOfBytes(v, w);
    var p := Pow256(w);
    assert p == 2 * SignedLimit(w);
    if v >= 0 {
      DivModUnique(v, p, 0, v);
    } else {
      DivModUnique(v, p, -1, v + p);
    }
  }

  /** Encoding a byte-sized value and decoding unsigned gives it back. */
  lemma LeUnsignedOfByte(v: int)
    requires 0 <= v < 256
    ensures LeUnsigned(LeBytes(v, 1)) == v
  {
    LeUnsignedOfBytes(v, 1);
  }
}
