/** What the encoded texts of `Base64` spell, independently of how they are put together. */
module Base64Letters {
  import opened Base64
  import opened Bytes

  /** The alphabets of tables 1 and 2 of RFC 4648. */
  function Alphabets(alphabet: Alphabet): string {
    "ABCDEFGHIJKLMNOPQRSTUVWXYZabcdefghijklmnopqrstuvwxyz0123456789" + Last(alphabet)
  }

  function Last(alphabet: Alphabet): (s: string)
    ensures |s| == 2
  {
    if alphabet.Standard? then "+/" else "-_"
  }

  lemma LettersAreTheAlphabet(v: sextet, alphabet: Alphabet)
    ensures |Alphabets(alphabet)| == 64 && Letter(v, alphabet) as char == Alphabets(alphabet)[v]
  {
    hide Letter;
    if v < 26 {
      UpperLetter(v, alphabet);
    } else if v < 52 {
      LowerLetter(v, alphabet);
    } else if v < 62 {
      DigitLetter(v, alphabet);
    } else {
      LastLetter(v, alphabet);
    }
  }

  lemma UpperLetter(v: sextet, alphabet: Alphabet)
    requires v < 26
    ensures Letter(v, alphabet) as char == Alphabets(alphabet)[v]
  {
    assert Letter(v, alphabet) as char == "ABCDEFGHIJKLMNOPQRSTUVWXYZ"[v];
  }

  lemma LowerLetter(v: sextet, alphabet: Alphabet)
    requires 26 <= v < 52
    ensures Letter(v, alphabet) as char == Alphabets(alphabet)[v]
  {
  }

  lemma DigitLetter(v: sextet, alphabet: Alphabet)
    requires 52 <= v < 62
    ensures Letter(v, alphabet) as char == Alphabets(alphabet)[v]
  {
  }

  lemma LastLetter(v: sextet, alphabet: Alphabet)
    requires 62 <= v
    ensures Letter(v, alphabet) as char == Alphabets(alphabet)[v]
  {
  }

  /** The number that sextets spell, high ones first. */
  function Number64(v: seq<sextet>): nat {
    if v == [] then 0 else Number64(v[..|v| - 1]) * 64 + v[|v| - 1]
  }

  lemma {:induction false} NumberAppend(a: seq<sextet>, b: seq<sextet>)
    ensures Number64(a + b) == Number64(a) * Power64(|b|) + Number64(b)
  {
    if b == [] {
      assert a + b == a;
    } else {
      var front := b[..|b| - 1];
      NumberAppend(a, front);
      assert (a + b)[..|a + b| - 1] == a + front;
      Scale64(Number64(a), Power64(|front|), Number64(front), b[|b| - 1]);
    }
  }

  lemma Scale64(a: nat, p: nat, n: nat, last: nat)
    ensures (a * p + n) * 64 + last == a * (64 * p) + (n * 64 + last)
  {
  }

  function Power64(k: nat): (p: nat)
    ensures p >= 1
  {
    if k == 0 then 1 else 64 * Power64(k - 1)
  }

  lemma ThreeSextets(a: sextet, b: sextet, c: sextet)
    ensures Number64([a, b]) == a as int * 64 + b as int
    ensures Number64([a, b, c]) == (a as int * 64 + b as int) * 64 + c as int
  {
    assert [a][..0] == [] && [a, b][..1] == [a] && [a, b, c][..2] == [a, b];
    assert Number64([a]) == a as int;
  }

  lemma FourSextets(a: sextet, b: sextet, c: sextet, d: sextet)
    ensures Number64([a, b, c, d]) == ((a as int * 64 + b as int) * 64 + c as int) * 64 + d as int
  {
    ThreeSextets(a, b, c);
    assert [a, b, c, d][..3] == [a, b, c];
  }

  lemma ThreeOctets(a: byte, b: byte, c: byte)
    ensures FromBytes([a]) == a as int && FromBytes([a, b]) == a as int * 256 + b as int
    ensures FromBytes([a, b, c]) == (a as int * 256 + b as int) * 256 + c as int
  {
    assert [a][..0] == [] && [a, b][..1] == [a] && [a, b, c][..2] == [a, b];
    assert FromBytes([a]) == a as int;
  }

  lemma GroupNumber(a: byte, b: byte, c: byte)
    ensures Number64(Sextets(a, b, c)) == FromBytes([a, b, c])
  {
    hide Number64, FromBytes;
    var v := Sextets(a, b, c);
    FourSextets(v[0], v[1], v[2], v[3]);
    ThreeOctets(a, b, c);
    assert v == [v[0], v[1], v[2], v[3]];
  }

  /** The zero bits behind the octets, as a factor. */
  function Filler(size: nat): nat {
    if size % 3 == 0 then 1 else if size % 3 == 1 then 16 else 4
  }

  /** The sextets whose letters make up an encoding. */
  function Digits(x: Bytes): (v: seq<sextet>)
    ensures |v| == (4 * |x| + 2) / 3
  {
    if |x| >= 3 then Sextets(x[0], x[1], x[2]) + Digits(x[3..])
    else if |x| == 2 then Sextets(x[0], x[1], 0)[..3]
    else if |x| == 1 then Sextets(x[0], 0, 0)[..2]
    else []
  }

  /** Padding to whole groups, in the standard alphabet. */
  function Padding(size: nat, alphabet: Alphabet): Bytes {
    if alphabet.UrlSafe? || size % 3 == 0 then [] else if size % 3 == 1 then [PAD, PAD] else [PAD]
  }

  /** The text spells the octets, read as one number and followed by zero bits up to whole sextets: sections 4 and 5 of
      RFC 4648. */
  lemma EncodingIsTheNumber(x: Bytes, alphabet: Alphabet)
    ensures Encode(x, alphabet) == Spell(Digits(x), alphabet) + Padding(|x|, alphabet)
    ensures Number64(Digits(x)) == FromBytes(x) * Filler(|x|)
  {
    hide Encode, Spell, Digits, Number64, FromBytes;
    TextOfDigits(x, alphabet);
    NumberOfDigits(x);
  }

  lemma {:induction false} TextOfDigits(x: Bytes, alphabet: Alphabet)
    ensures Encode(x, alphabet) == Spell(Digits(x), alphabet) + Padding(|x|, alphabet)
  {
    hide Letter, Sextets;
    if |x| >= 3 {
      hide Spell;
      TextOfDigits(x[3..], alphabet);
      SpellAppend(Sextets(x[0], x[1], x[2]), Digits(x[3..]), alphabet);
      assert |x[3..]| % 3 == |x| % 3;
    }
  }

  lemma SpellAppend(a: seq<sextet>, b: seq<sextet>, alphabet: Alphabet)
    ensures Spell(a + b, alphabet) == Spell(a, alphabet) + Spell(b, alphabet)
  {
  }

  lemma {:induction false} NumberOfDigits(x: Bytes)
    ensures Number64(Digits(x)) == FromBytes(x) * Filler(|x|)
    ensures Power64(|Digits(x)|) == Power256(|x|) * Filler(|x|)
  {
    hide Number64, FromBytes, Sextets, Filler, Power64, Power256;
    if |x| >= 3 {
      NumberOfDigits(x[3..]);
      assert x == [x[0], x[1], x[2]] + x[3..];
      NumberOfGroup(x[0], x[1], x[2], x[3..], Digits(x[3..]));
    } else {
      NumberOfTail(x);
    }
  }

  /** One group in front of octets whose sextets are known. */
  lemma NumberOfGroup(a: byte, b: byte, c: byte, x: Bytes, rest: seq<sextet>)
    requires Number64(rest) == FromBytes(x) * Filler(|x|) && Power64(|rest|) == Power256(|x|) * Filler(|x|)
    ensures Number64(Sextets(a, b, c) + rest) == FromBytes([a, b, c] + x) * Filler(3 + |x|)
    ensures Power64(4 + |rest|) == Power256(3 + |x|) * Filler(3 + |x|)
  {
    hide Number64, FromBytes, Sextets, Filler, Power64, Power256;
    NumberAppend(Sextets(a, b, c), rest);
    GroupNumber(a, b, c);
    FromConcat([a, b, c], x);
    FillerRepeats(|x|);
    Shifted(FromBytes([a, b, c]), Power256(|x|), FromBytes(x), Filler(|x|));
    Powers(|rest|, |x|);
    Scaled(Power256(|x|), Filler(|x|));
  }

  lemma FillerRepeats(size: nat)
    ensures Filler(3 + size) == Filler(size)
  {
  }

  lemma Scaled(p: nat, f: nat)
    ensures 16777216 * (p * f) == (16777216 * p) * f
  {
  }

  lemma NumberOfTail(x: Bytes)
    requires |x| < 3
    ensures Number64(Digits(x)) == FromBytes(x) * Filler(|x|)
    ensures Power64(|Digits(x)|) == Power256(|x|) * Filler(|x|)
  {
    hide Number64, FromBytes, Sextets, Power64, Power256;
    SmallPowers();
    if |x| == 0 {
      NoNumber();
      assert x == [];
    } else if |x| == 1 {
      assert x == [x[0]];
      OneNumber(x[0]);
    } else {
      assert x == [x[0], x[1]];
      TwoNumber(x[0], x[1]);
    }
  }

  lemma NoNumber()
    ensures Number64([]) == 0 && FromBytes([]) == 0
  {
  }

  lemma OneNumber(a: byte)
    ensures Number64(Sextets(a, 0, 0)[..2]) == FromBytes([a]) * 16
  {
    hide Number64, FromBytes;
    var v := Sextets(a, 0, 0);
    ThreeSextets(v[0], v[1], v[2]);
    ThreeOctets(a, 0, 0);
    assert v[..2] == [v[0], v[1]];
  }

  lemma TwoNumber(a: byte, b: byte)
    ensures Number64(Sextets(a, b, 0)[..3]) == FromBytes([a, b]) * 4
  {
    hide Number64, FromBytes;
    var v := Sextets(a, b, 0);
    ThreeSextets(v[0], v[1], v[2]);
    ThreeOctets(a, b, 0);
    assert v[..3] == [v[0], v[1], v[2]];
  }

  lemma Shifted(g: nat, p: nat, n: nat, f: nat)
    ensures g * (p * f) + n * f == (g * p + n) * f
  {
  }

  lemma SmallPowers()
    ensures Power64(0) == 1 && Power64(2) == 4096 && Power64(3) == 262144
    ensures Power256(0) == 1 && Power256(1) == 256 && Power256(2) == 65536
  {
    assert Power64(1) == 64 && Power64(2) == 4096;
    assert Power256(1) == 256;
  }

  lemma Powers(k: nat, n: nat)
    ensures Power64(4 + k) == 16777216 * Power64(k) && Power256(3 + n) == 16777216 * Power256(n)
  {
    assert Power64(4 + k) == 64 * Power64(3 + k) && Power64(3 + k) == 64 * Power64(2 + k);
    assert Power64(2 + k) == 64 * Power64(1 + k);
    assert Power256(3 + n) == 256 * Power256(2 + n) && Power256(2 + n) == 256 * Power256(1 + n);
  }

  /** No letter and no padding is a control, a space, a quote, a comma or a backslash. */
  lemma EncodedOctets(x: Bytes, alphabet: Alphabet)
    ensures forall b :: b in Encode(x, alphabet) ==> 43 <= b <= 122 && b != 44 && b != 92
  {
    hide Encode, Digits;
    TextOfDigits(x, alphabet);
    SpelledOctets(Digits(x), alphabet);
  }

  lemma SpelledOctets(v: seq<sextet>, alphabet: Alphabet)
    ensures forall b :: b in Spell(v, alphabet) ==> 43 <= b <= 122 && b != 44 && b != 92
  {
  }
}
