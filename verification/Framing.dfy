/**
 Length-prefixed framing of byte strings, big- and little-endian, and its inverse.
 A byte is a character below 256.
 */
module Framing {
  import opened Wrappers

  type Byte = char
  type Bytes = string

  const U64: nat := 0x1_0000_0000_0000_0000

  function Power256(k: nat): (p: nat)
    ensures p >= 1
  {
    if k == 0 then 1 else 256 * Power256(k - 1)
  }

  lemma EightBytes()
    ensures Power256(8) == U64
  {
    assert Power256(2) == 65536;
    assert Power256(4) == 65536 * 65536;
    assert Power256(6) == 65536 * 65536 * 65536;
  }

  /** `k` bytes of `n`, most significant first. */
  function BigEndian(n: nat, k: nat): (r: Bytes)
    ensures |r| == k
  {
    if k == 0 then [] else BigEndian(n / 256, k - 1) + [(n % 256) as char]
  }

  function LittleEndian(n: nat, k: nat): (r: Bytes)
    ensures |r| == k
  {
    if k == 0 then [] else [(n % 256) as char] + LittleEndian(n / 256, k - 1)
  }

  function ReadBig(s: Bytes): nat {
    if s == [] then 0 else ReadBig(s[..|s| - 1]) * 256 + s[|s| - 1] as int
  }

  function ReadLittle(s: Bytes): nat {
    if s == [] then 0 else s[0] as int + 256 * ReadLittle(s[1..])
  }

  lemma DivSmaller(n: nat, p: nat)
    requires n < 256 * p
    ensures n / 256 < p
  {
  }

  lemma {:induction false} BigRoundTrip(n: nat, k: nat)
    requires n < Power256(k)
    ensures ReadBig(BigEndian(n, k)) == n
  {
    if k > 0 {
      DivSmaller(n, Power256(k - 1));
      BigRoundTrip(n / 256, k - 1);
      var s := BigEndian(n, k);
      assert s[..|s| - 1] == BigEndian(n / 256, k - 1);
    }
  }

  lemma {:induction false} LittleRoundTrip(n: nat, k: nat)
    requires n < Power256(k)
    ensures ReadLittle(LittleEndian(n, k)) == n
  {
    if k > 0 {
      DivSmaller(n, Power256(k - 1));
      LittleRoundTrip(n / 256, k - 1);
      assert LittleEndian(n, k)[1..] == LittleEndian(n / 256, k - 1);
    }
  }

  // ----- Digits -----

  lemma DivDiv(n: nat, a: nat, b: nat)
    requires a > 0 && b > 0
    ensures a * b > 0 && n / a / b == n / (a * b)
  {
    var q, r := n / a, n % a;
    var p, s := q / b, q % b;
    assert n == (p * b + s) * a + r;
    assert (p * b + s) * a == p * (a * b) + s * a by { Spread(p, b, s, a); }
    assert s * a + r < a * b by { Bounded(s, a, b, r); }
    Quotient(n, a * b, p, s * a + r);
  }

  lemma Spread(p: nat, b: nat, s: nat, a: nat)
    ensures (p * b + s) * a == p * (a * b) + s * a
  {
    assert (p * b + s) * a == p * b * a + s * a;
    assert p * b * a == p * (b * a);
  }

  lemma Bounded(s: nat, a: nat, b: nat, r: nat)
    requires s < b && r < a
    ensures a * b > 0 && s * a + r < a * b
  {
    assert s + 1 <= b;
    assert (s + 1) * a <= b * a;
    assert (s + 1) * a == s * a + a;
  }

  lemma Quotient(n: nat, d: nat, p: nat, r: nat)
    requires d > 0 && n == p * d + r && r < d
    ensures n / d == p
  {
    var q, t := n / d, n % d;
    assert n == q * d + t;
    if q < p { Apart(q, p, d); } else if p < q { Apart(p, q, d); }
  }

  lemma Apart(q: nat, p: nat, d: nat)
    requires q < p
    ensures p * d >= q * d + d
  {
    assert q + 1 <= p;
    assert (q + 1) * d <= p * d;
    assert (q + 1) * d == q * d + d;
  }

  /** Digit `i` of a big-endian number counts from its most significant end. */
  lemma {:induction false} BigDigit(n: nat, k: nat, i: nat)
    requires i < k
    ensures BigEndian(n, k)[i] as int == n / Power256(k - 1 - i) % 256
  {
    if i < k - 1 {
      BigDigit(n / 256, k - 1, i);
      DivDiv(n, 256, Power256(k - 2 - i));
    }
  }

  /** Digit `i` of a little-endian number counts from its least significant end. */
  lemma {:induction false} LittleDigit(n: nat, k: nat, i: nat)
    requires i < k
    ensures LittleEndian(n, k)[i] as int == n / Power256(i) % 256
  {
    if i > 0 {
      LittleDigit(n / 256, k - 1, i - 1);
      DivDiv(n, 256, Power256(i - 1));
    }
  }

  // ----- Fields -----

  /** A 64-bit length followed by the bytes. */
  function BigField(data: Bytes): Bytes { BigEndian(|data|, 8) + data }
  function LittleField(data: Bytes): Bytes { LittleEndian(|data|, 8) + data }

  function TakeBig(s: Bytes): Option<(Bytes, Bytes)> {
    if |s| < 8 then None
    else
      var n := ReadBig(s[..8]);
      if |s| < 8 + n then None else Some((s[8..8 + n], s[8 + n..]))
  }

  function TakeLittle(s: Bytes): Option<(Bytes, Bytes)> {
    if |s| < 8 then None
    else
      var n := ReadLittle(s[..8]);
      if |s| < 8 + n then None else Some((s[8..8 + n], s[8 + n..]))
  }

  lemma BigFieldRoundTrip(data: Bytes, rest: Bytes)
    requires |data| < U64
    ensures TakeBig(BigField(data) + rest) == Some((data, rest))
  {
    EightBytes();
    BigRoundTrip(|data|, 8);
    var s := BigField(data) + rest;
    assert s[..8] == BigEndian(|data|, 8);
    assert s[8..8 + |data|] == data && s[8 + |data|..] == rest;
  }

  lemma LittleFieldRoundTrip(data: Bytes, rest: Bytes)
    requires |data| < U64
    ensures TakeLittle(LittleField(data) + rest) == Some((data, rest))
  {
    EightBytes();
    LittleRoundTrip(|data|, 8);
    var s := LittleField(data) + rest;
    assert s[..8] == LittleEndian(|data|, 8);
    assert s[8..8 + |data|] == data && s[8 + |data|..] == rest;
  }

  // ----- Reading in chunks -----

  const CHUNK: nat := 65536

  function Least(a: nat, b: nat): nat { if a < b then a else b }

  /** How many bytes the next read returns: at least one if any are left. */
  function ReadCount(wanted: nat, left: nat, hint: nat): (n: nat)
    ensures n <= wanted && n <= left && (wanted > 0 && left > 0 ==> n > 0)
  {
    var most := Least(wanted, left);
    if hint == 0 || hint > most then most else hint
  }
}
