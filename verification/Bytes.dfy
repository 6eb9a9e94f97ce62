/** Octet strings, big-endian integers and the length-prefixed fields built from them. */
module Bytes {

  type byte = n: int | 0 <= n < 256
  type Bytes = seq<byte>

  const UINT32_LIMIT := 0x1_0000_0000
  const UINT64_LIMIT := 0x1_0000_0000_0000_0000

  /** The octets of an ASCII literal; none is zero. */
  function Ascii(text: string): (s: Bytes)
    requires forall i :: 0 <= i < |text| ==> 0 as char < text[i] < 128 as char
    ensures |s| == |text|
    ensures forall i :: 0 <= i < |s| ==> s[i] == text[i] as int && s[i] != 0
  {
    seq(|text|, i requires 0 <= i < |text| => text[i] as int)
  }

  function Power256(k: nat): (p: nat)
    ensures p >= 1
  {
    if k == 0 then 1 else 256 * Power256(k - 1)
  }

  lemma {:induction false} PowerMonotonic(a: nat, b: nat)
    requires a <= b
    ensures Power256(a) <= Power256(b)
  {
    if a > 0 {
      PowerMonotonic(a - 1, b - 1);
    }
  }

  /** The unsigned integer whose big-endian octets are `s`. */
  function FromBytes(s: Bytes): (n: nat)
    ensures n < Power256(|s|)
  {
    if s == [] then 0 else FromBytes(s[..|s| - 1]) * 256 + s[|s| - 1]
  }

  /** The low `width` big-endian octets of `n`. */
  function ToBytes(n: nat, width: nat): (s: Bytes)
    ensures |s| == width
  {
    if width == 0 then [] else ToBytes(n / 256, width - 1) + [n % 256]
  }

  /** The shortest big-endian octets of `n`; zero has none. */
  function Minimal(n: nat): (s: Bytes)
    ensures s != [] ==> s[0] != 0
    ensures s == [] <==> n == 0
  {
    if n == 0 then [] else Minimal(n / 256) + [n % 256]
  }

  lemma {:induction false} FromToBytes(n: nat, width: nat)
    requires n < Power256(width)
    ensures FromBytes(ToBytes(n, width)) == n
  {
    if width > 0 {
      FromToBytes(n / 256, width - 1);
      assert ToBytes(n, width)[..width - 1] == ToBytes(n / 256, width - 1);
    }
  }

  lemma {:induction false} ToFromBytes(s: Bytes)
    ensures ToBytes(FromBytes(s), |s|) == s
  {
    if s != [] {
      ToFromBytes(s[..|s| - 1]);
      assert s == s[..|s| - 1] + [s[|s| - 1]];
    }
  }

  lemma {:induction false} FromMinimal(n: nat)
    ensures FromBytes(Minimal(n)) == n
  {
    if n > 0 {
      FromMinimal(n / 256);
      assert Minimal(n)[..|Minimal(n)| - 1] == Minimal(n / 256);
    }
  }

  /** An octet string without a leading zero is the shortest encoding of its value. */
  lemma {:induction false} MinimalFrom(s: Bytes)
    requires s != [] ==> s[0] != 0
    ensures Minimal(FromBytes(s)) == s
  {
    if s != [] {
      var front, last := s[..|s| - 1], s[|s| - 1];
      MinimalFrom(front);
      assert s == front + [last];
      assert FromBytes(s) == FromBytes(front) * 256 + last;
      LastOctet(FromBytes(front), last);
      if front == [] {
        assert Minimal(0) == [];
      } else {
        assert FromBytes(front) != 0;
      }
    }
  }

  lemma LastOctet(n: nat, last: byte)
    requires n * 256 + last > 0
    ensures Minimal(n * 256 + last) == Minimal(n) + [last]
  {
  }

  lemma {:induction false} FromConcat(a: Bytes, b: Bytes)
    ensures FromBytes(a + b) == FromBytes(a) * Power256(|b|) + FromBytes(b)
  {
    if b == [] {
      assert a + b == a;
    } else {
      var front := b[..|b| - 1];
      FromConcat(a, front);
      assert (a + b)[..|a + b| - 1] == a + front;
      calc {
        FromBytes(a + b);
        (FromBytes(a) * Power256(|front|) + FromBytes(front)) * 256 + b[|b| - 1];
        { Distribute(FromBytes(a), Power256(|front|)); }
        FromBytes(a) * Power256(|b|) + FromBytes(b);
      }
    }
  }

  lemma Distribute(x: int, p: int)
    ensures (x * p) * 256 == x * (256 * p)
  {
  }

  /** A value below the modulus never needs more octets than the modulus. */
  lemma {:induction false} MinimalLength(a: nat, b: nat)
    requires a <= b
    ensures |Minimal(a)| <= |Minimal(b)|
  {
    if a > 0 {
      MinimalLength(a / 256, b / 256);
    }
  }

  /** Integer division is determined by any quotient and remainder. */
  lemma Division(x: nat, q: nat, r: nat, d: nat)
    requires 0 <= r < d && x == q * d + r
    ensures x / d == q && x % d == r
  {
    var p := x / d;
    assert x == p * d + x % d;
    Monotonic(q + 1, p, d);
    Monotonic(p + 1, q, d);
  }

  lemma Monotonic(a: nat, b: nat, d: nat)
    ensures a <= b ==> a * d <= b * d
  {
  }

  lemma ConcatAssociative(a: Bytes, b: Bytes, c: Bytes)
    ensures (a + b) + c == a + (b + c)
  {
  }

  // ---- framing

  function U32(n: nat): (s: Bytes)
    ensures |s| == 4
  {
    ToBytes(n, 4)
  }

  function U64(n: nat): (s: Bytes)
    ensures |s| == 8
  {
    ToBytes(n, 8)
  }

  /** A field behind its 32-bit length: `string` of section 5 of RFC 4251. */
  function Frame32(s: Bytes): (f: Bytes)
    ensures |f| == 4 + |s|
  {
    U32(|s|) + s
  }

  /** A field behind its 64-bit length: `append_value` of the sources. */
  function Frame64(s: Bytes): (f: Bytes)
    ensures |f| == 8 + |s|
  {
    U64(|s|) + s
  }

  lemma PowerFacts()
    ensures Power256(4) == UINT32_LIMIT
    ensures Power256(8) == UINT64_LIMIT
  {
    assert Power256(2) == 65536;
    assert Power256(3) == 256 * 65536;
    assert Power256(4) == UINT32_LIMIT;
    assert Power256(5) == 256 * UINT32_LIMIT;
    assert Power256(6) == 65536 * UINT32_LIMIT;
    assert Power256(7) == 16777216 * UINT32_LIMIT;
  }
}
