/** The two base64 decoders and the two encoders: `src/base64url.cpp`, `decode_base64` of
    `src/command.cpp`, and `encode_base64url` and `encode_base64` of `src/direct_verifier.cpp`.
    Shifts and masks on octets are written as division and remainder by powers of two. */
module Base64 {
  import opened Bytes
  import opened Errors

  /** Section 4 of RFC 4648 with padding, or section 5 without. */
  datatype Alphabet = Standard | UrlSafe

  type sextet = n: int | 0 <= n < 64

  const PAD: byte := 61

  function Letter(v: sextet, alphabet: Alphabet): byte {
    if v < 26 then 65 + v
    else if v < 52 then 97 + (v - 26)
    else if v < 62 then 48 + (v - 52)
    else if v == 62 then (if alphabet.Standard? then 43 else 45)
    else (if alphabet.Standard? then 47 else 95)
  }

  const INVALID: byte := 255

  /** The sextet of a letter; 255 for every other octet, like the sources' tables. */
  function Entry(c: byte, alphabet: Alphabet): (v: byte)
    ensures v < 64 || v == INVALID
    ensures v < 64 ==> Letter(v, alphabet) == c
  {
    if 65 <= c <= 90 then c - 65
    else if 97 <= c <= 122 then c - 97 + 26
    else if 48 <= c <= 57 then c - 48 + 52
    else if c == Letter(62, alphabet) then 62
    else if c == Letter(63, alphabet) then 63
    else INVALID
  }

  lemma EntryOfLetter(v: sextet, alphabet: Alphabet)
    ensures Entry(Letter(v, alphabet), alphabet) == v
    ensures Letter(v, alphabet) != PAD
  {
  }

  // ---- encoding

  function Spell(v: seq<sextet>, alphabet: Alphabet): (t: Bytes)
    ensures |t| == |v|
  {
    seq(|v|, i requires 0 <= i < |v| => Letter(v[i], alphabet))
  }

  /** Three octets as four sextets. */
  function Sextets(a: byte, b: byte, c: byte): (v: seq<sextet>)
    ensures |v| == 4
  {
    [a / 4, (a % 4) * 16 + b / 16, (b % 16) * 4 + c / 64, c % 64]
  }

  function EncodeGroup(a: byte, b: byte, c: byte, alphabet: Alphabet): (t: Bytes)
    ensures |t| == 4
  {
    Spell(Sextets(a, b, c), alphabet)
  }

  function EncodeTail(x: Bytes, alphabet: Alphabet): Bytes
    requires |x| < 3
  {
    match |x|
    case 0 => []
    case 1 =>
      var t := EncodeGroup(x[0], 0, 0, alphabet);
      [t[0], t[1]] + (if alphabet.Standard? then [PAD, PAD] else [])
    case _ =>
      var t := EncodeGroup(x[0], x[1], 0, alphabet);
      [t[0], t[1], t[2]] + (if alphabet.Standard? then [PAD] else [])
  }

  function Encode(x: Bytes, alphabet: Alphabet): Bytes {
    if |x| >= 3 then
      EncodeGroup(x[0], x[1], x[2], alphabet) + Encode(x[3..], alphabet)
    else
      EncodeTail(x, alphabet)
  }

  lemma {:induction false} EncodeLength(x: Bytes, alphabet: Alphabet)
    ensures alphabet.Standard? ==> |Encode(x, alphabet)| % 4 == 0 && |Encode(x, alphabet)| / 4 == (|x| + 2) / 3
    ensures alphabet.UrlSafe? ==> |Encode(x, alphabet)| % 4 != 1 && DecodedLength(|Encode(x, alphabet)|) == |x|
  {
    hide EncodeGroup;
    if |x| >= 3 {
      EncodeLength(x[3..], alphabet);
    }
  }

  /** The four sextets of a 24-bit word, high bits first. */
  function WordSextets(value: nat): (v: seq<sextet>)
    ensures |v| == 4
  {
    [value / 262144 % 64, value / 4096 % 64, value / 64 % 64, value % 64]
  }

  /** The loop shared by both encoders; only the alphabet and the tail differ. */
  method EncodeText(input: Bytes, alphabet: Alphabet) returns (output: Bytes)
    ensures output == Encode(input, alphabet)
  {
    hide Spell, WordSextets, Encode;
    output := [];
    var offset := 0;
    assert input[0..] == input;
    while |input| - offset >= 3
      invariant 0 <= offset <= |input|
      invariant output + Encode(input[offset..], alphabet) == Encode(input, alphabet)
    {
      var value := input[offset] as int * 65536 + input[offset + 1] as int * 256 + input[offset + 2] as int;
      EncodeStep(output, input, offset, alphabet);
      output := output + Spell(WordSextets(value), alphabet);
      offset := offset + 3;
    }
    var tail := EncodeRemaining(input[offset..], alphabet);
    output := output + tail;
  }

  method EncodeRemaining(rest: Bytes, alphabet: Alphabet) returns (output: Bytes)
    requires |rest| < 3
    ensures output == Encode(rest, alphabet)
  {
    output := [];
    if |rest| == 1 {
      var value := rest[0] as int * 65536;
      WordBits(rest[0], 0, 0);
      var t := Spell(WordSextets(value), alphabet);
      output := [t[0], t[1]] + (if alphabet.Standard? then [PAD, PAD] else []);
    } else if |rest| == 2 {
      var value := rest[0] as int * 65536 + rest[1] as int * 256;
      WordBits(rest[0], rest[1], 0);
      var t := Spell(WordSextets(value), alphabet);
      output := [t[0], t[1], t[2]] + (if alphabet.Standard? then [PAD] else []);
    }
  }

  lemma EncodeStep(output: Bytes, input: Bytes, offset: nat, alphabet: Alphabet)
    requires offset + 3 <= |input|
    ensures var value := input[offset] as int * 65536 + input[offset + 1] as int * 256 + input[offset + 2] as int;
            (output + Encode(input[offset..], alphabet)
             == (output + Spell(WordSextets(value), alphabet)) + Encode(input[offset + 3..], alphabet))
  {
    WordBits(input[offset], input[offset + 1], input[offset + 2]);
    assert input[offset..][3..] == input[offset + 3..];
  }

  lemma WordBits(a: byte, b: byte, c: byte)
    ensures WordSextets(a as int * 65536 + b as int * 256 + c as int) == Sextets(a, b, c)
  {
    SplitWord(a / 4, a % 4, b / 16, b % 16, c / 64, c % 64,
              a as int * 65536 + b as int * 256 + c as int);
  }

  lemma SplitWord(a1: nat, a0: nat, b1: nat, b0: nat, c1: nat, c0: nat, value: nat)
    requires a1 < 64 && a0 < 4 && b1 < 16 && b0 < 16 && c1 < 4 && c0 < 64
    requires value == (a1 * 4 + a0) * 65536 + (b1 * 16 + b0) * 256 + c1 * 64 + c0
    ensures WordSextets(value) == [a1, a0 * 16 + b1, b0 * 4 + c1, c0]
  {
    Division(value, a1, a0 * 65536 + (b1 * 16 + b0) * 256 + c1 * 64 + c0, 262144);
    Division(a1, 0, a1, 64);
    Division(value, a1 * 64 + a0 * 16 + b1, b0 * 256 + c1 * 64 + c0, 4096);
    Division(a1 * 64 + a0 * 16 + b1, a1, a0 * 16 + b1, 64);
    Division(value, a1 * 4096 + a0 * 1024 + b1 * 64 + b0 * 4 + c1, c0, 64);
    Division(a1 * 4096 + a0 * 1024 + b1 * 64 + b0 * 4 + c1, a1 * 64 + a0 * 16 + b1, b0 * 4 + c1, 64);
  }

  // ---- base64url decoding

  /** `(a << 2) | (b >> 4)` and its neighbours, truncated to an octet. */
  function DecodeGroup(a: sextet, b: sextet, c: sextet, d: sextet): (x: Bytes)
    ensures |x| == 3
  {
    [(a * 4 + b / 16) % 256, (b * 16 + c / 4) % 256, (c * 64 + d) % 256]
  }

  lemma GroupInverse(a: byte, b: byte, c: byte)
    ensures var v := Sextets(a, b, c); DecodeGroup(v[0], v[1], v[2], v[3]) == [a, b, c]
  {
    JoinGroup(a / 4, a % 4, b / 16, b % 16, c / 64, c % 64);
  }

  lemma JoinGroup(a1: nat, a0: nat, b1: nat, b0: nat, c1: nat, c0: nat)
    requires a1 < 64 && a0 < 4 && b1 < 16 && b0 < 16 && c1 < 4 && c0 < 64
    ensures DecodeGroup(a1, a0 * 16 + b1, b0 * 4 + c1, c0) == [a1 * 4 + a0, b1 * 16 + b0, c1 * 64 + c0]
  {
    Division(a0 * 16 + b1, a0, b1, 16);
    Division(b0 * 4 + c1, b0, c1, 4);
    Division(a1 * 4 + a0, 0, a1 * 4 + a0, 256);
    Division((a0 * 16 + b1) * 16 + b0, a0, b1 * 16 + b0, 256);
    Division((b0 * 4 + c1) * 64 + c0, b0, c1 * 64 + c0, 256);
  }

  lemma GroupForward(a: sextet, b: sextet, c: sextet, d: sextet)
    ensures var x := DecodeGroup(a, b, c, d);
            && x[0] / 4 == a && (x[0] % 4) * 16 + x[1] / 16 == b
            && (x[1] % 16) * 4 + x[2] / 64 == c && x[2] % 64 == d
  {
    Division(a * 4 + b / 16, a, b / 16, 4);
    Division(b * 16 + c / 4, b / 16, (b % 16) * 16 + c / 4, 256);
    Division((b % 16) * 16 + c / 4, b % 16, c / 4, 16);
    Division(c * 64 + d, c / 4, (c % 4) * 64 + d, 256);
    Division((c % 4) * 64 + d, c % 4, d, 64);
  }

  function DecodedLength(size: nat): nat {
    size / 4 * 3 + (if size % 4 == 0 then 0 else size % 4 - 1)
  }

  function DecodeUrl(text: Bytes): Option<Bytes> {
    if |text| >= 4 then
      var a, b := Entry(text[0], UrlSafe), Entry(text[1], UrlSafe);
      var c, d := Entry(text[2], UrlSafe), Entry(text[3], UrlSafe);
      if a == INVALID || b == INVALID || c == INVALID || d == INVALID then None
      else
        Prepend(DecodeGroup(a, b, c, d), DecodeUrl(text[4..]))
    else if |text| == 3 then
      var a, b, c := Entry(text[0], UrlSafe), Entry(text[1], UrlSafe), Entry(text[2], UrlSafe);
      if a == INVALID || b == INVALID || c == INVALID || c % 4 != 0 then None
      else Some([(a as int * 4 + b as int / 16) % 256, (b as int * 16 + c as int / 4) % 256])
    else if |text| == 2 then
      var a, b := Entry(text[0], UrlSafe), Entry(text[1], UrlSafe);
      if a == INVALID || b == INVALID || b % 16 != 0 then None
      else Some([(a as int * 4 + b as int / 16) % 256])
    else if text == [] then Some([])
    else None
  }

  /** The whole of `base64url::decode` as a function. */
  function DecodeBounded(encoded: Bytes, maximum: nat): (r: Result<Bytes>)
  {
    if maximum == 0 then Failure(ResourceLimit)
    else if encoded == [] || |encoded| % 4 == 1 then Failure(MalformedInput)
    else if DecodedLength(|encoded|) > maximum then Failure(ResourceLimit)
    else match DecodeUrl(encoded)
      case Some(x) => Success(x)
      case None => Failure(MalformedInput)
  }

  lemma {:induction false} DecodeEncodeUrl(x: Bytes)
    ensures DecodeUrl(Encode(x, UrlSafe)) == Some(x)
  {
    if |x| >= 3 {
      DecodeEncodeUrl(x[3..]);
      DecodeUrlGroup(x[0], x[1], x[2], Encode(x[3..], UrlSafe));
      assert x == [x[0], x[1], x[2]] + x[3..];
    } else {
      DecodeUrlTail(x);
    }
  }

  lemma DecodeUrlGroup(a: byte, b: byte, c: byte, rest: Bytes)
    ensures DecodeUrl(EncodeGroup(a, b, c, UrlSafe) + rest) == Prepend([a, b, c], DecodeUrl(rest))
  {
    EncodeGroupEntries(a, b, c, UrlSafe);
    assert (EncodeGroup(a, b, c, UrlSafe) + rest)[4..] == rest;
  }

  lemma DecodeUrlTail(x: Bytes)
    requires |x| < 3
    ensures DecodeUrl(EncodeTail(x, UrlSafe)) == Some(x)
  {
    if |x| == 2 {
      DecodeUrlTwo(x[0], x[1]);
      assert x == [x[0], x[1]];
    } else if |x| == 1 {
      DecodeUrlOne(x[0]);
      assert x == [x[0]];
    }
  }

  lemma DecodeUrlTwo(a: byte, b: byte)
    ensures DecodeUrl(EncodeTail([a, b], UrlSafe)) == Some([a, b])
  {
    hide Entry, EncodeGroup;
    EncodeGroupEntries(a, b, 0, UrlSafe);
    var t := EncodeGroup(a, b, 0, UrlSafe);
    assert EncodeTail([a, b], UrlSafe) == [t[0], t[1], t[2]];
  }

  lemma DecodeUrlOne(a: byte)
    ensures DecodeUrl(EncodeTail([a], UrlSafe)) == Some([a])
  {
    hide Entry, EncodeGroup;
    EncodeGroupEntries(a, 0, 0, UrlSafe);
    var t := EncodeGroup(a, 0, 0, UrlSafe);
    assert EncodeTail([a], UrlSafe) == [t[0], t[1]];
  }

  lemma EncodeGroupEntries(a: byte, b: byte, c: byte, alphabet: Alphabet)
    ensures var t := EncodeGroup(a, b, c, alphabet);
            && Entry(t[0], alphabet) < 64 && Entry(t[1], alphabet) < 64
            && Entry(t[2], alphabet) < 64 && Entry(t[3], alphabet) < 64
            && DecodeGroup(Entry(t[0], alphabet), Entry(t[1], alphabet),
                           Entry(t[2], alphabet), Entry(t[3], alphabet)) == [a, b, c]
            && (c == 0 ==> Entry(t[2], alphabet) % 4 == 0 && Entry(t[3], alphabet) == 0)
            && (b == c == 0 ==> Entry(t[1], alphabet) % 16 == 0 && Entry(t[2], alphabet) == 0)
            && PAD !in t
  {
    hide Entry, Letter, DecodeGroup;
    EntryOfLetter(a / 4, alphabet);
    EntryOfLetter((a % 4) * 16 + b / 16, alphabet);
    EntryOfLetter((b % 16) * 4 + c / 64, alphabet);
    EntryOfLetter(c % 64, alphabet);
    GroupInverse(a, b, c);
  }

  lemma DecodeGroupLetters(a: sextet, b: sextet, c: sextet, d: sextet, alphabet: Alphabet)
    ensures var x := DecodeGroup(a, b, c, d);
            && EncodeGroup(x[0], x[1], x[2], alphabet) == Spell([a, b, c, d], alphabet)
            && (c % 4 == 0 && d == 0 ==> x[2] == 0)
            && (b % 16 == 0 && c == d == 0 ==> x[1] == x[2] == 0)
  {
    hide Spell;
    GroupForward(a, b, c, d);
    var x := DecodeGroup(a, b, c, d);
    assert Sextets(x[0], x[1], x[2]) == [a, b, c, d];
    UnusedBits(b, c, d);
  }

  lemma UnusedBits(b: sextet, c: sextet, d: sextet)
    ensures c % 4 == 0 && d == 0 ==> (c * 64 + d) % 256 == 0
    ensures b % 16 == 0 && c == 0 ==> (b * 16 + c / 4) % 256 == 0
  {
    if c % 4 == 0 && d == 0 {
      Division(c * 64, c / 4, 0, 256);
    }
    if b % 16 == 0 && c == 0 {
      Division(b * 16, b / 16, 0, 256);
    }
  }

  lemma {:induction false} EncodeDecodeUrl(text: Bytes)
    ensures var x := DecodeUrl(text); x.Some? ==> Encode(x.value, UrlSafe) == text
  {
    hide Entry, Sextets;
    var x := DecodeUrl(text);
    if x.None? {
    } else if |text| >= 4 {
      EncodeDecodeUrl(text[4..]);
      DecodeGroupLetters(Entry(text[0], UrlSafe), Entry(text[1], UrlSafe),
                         Entry(text[2], UrlSafe), Entry(text[3], UrlSafe), UrlSafe);
      assert x.value[3..] == DecodeUrl(text[4..]).value;
      assert text == [text[0], text[1], text[2], text[3]] + text[4..];
    } else if |text| == 3 {
      DecodeGroupLetters(Entry(text[0], UrlSafe), Entry(text[1], UrlSafe), Entry(text[2], UrlSafe), 0, UrlSafe);
      assert text == [text[0], text[1], text[2]];
    } else if |text| == 2 {
      DecodeGroupLetters(Entry(text[0], UrlSafe), Entry(text[1], UrlSafe), 0, 0, UrlSafe);
      assert text == [text[0], text[1]];
    }
  }

  /** Acceptance is exactly canonicity: the accepted texts are the unpadded encodings of
      non-empty octet strings within the bound, and the result is the string encoded. */
  lemma DecodeBoundedIsCanonical(encoded: Bytes, maximum: nat, x: Bytes)
    ensures DecodeBounded(encoded, maximum) == Success(x)
       <==> x != [] && |x| <= maximum && Encode(x, UrlSafe) == encoded
  {
    EncodeLength(x, UrlSafe);
    DecodeEncodeUrl(x);
    EncodeDecodeUrl(encoded);
  }

  /** `decode_table`: every octet maps to its sextet, all others to 255. */
  method DecodeTable() returns (table: array<byte>)
    ensures fresh(table) && table.Length == 256
    ensures forall c: byte :: table[c] == Entry(c, UrlSafe)
  {
    table := new byte[256](_ => INVALID);
    var index := 0;
    while index < 26
      invariant 0 <= index <= 26
      invariant forall c: byte | 65 <= c < 65 + index || 97 <= c < 97 + index :: table[c] == Entry(c, UrlSafe)
      invariant forall c: byte | !(65 <= c < 65 + index || 97 <= c < 97 + index) :: table[c] == INVALID
    {
      table[65 + index] := index;
      table[97 + index] := 26 + index;
      index := index + 1;
    }
    index := 0;
    while index < 10
      invariant 0 <= index <= 10
      invariant forall c: byte | 65 <= c < 91 || 97 <= c < 123 || 48 <= c < 48 + index :: table[c] == Entry(c, UrlSafe)
      invariant forall c: byte | !(65 <= c < 91 || 97 <= c < 123 || 48 <= c < 48 + index) :: table[c] == INVALID
    {
      table[48 + index] := 52 + index;
      index := index + 1;
    }
    table[45] := 62;
    table[95] := 63;
  }

  /** `sextet`: one character through the table. */
  method Sextet(table: array<byte>, c: byte) returns (v: byte)
    requires table.Length == 256 && forall c: byte :: table[c] == Entry(c, UrlSafe)
    ensures v == Entry(c, UrlSafe)
  {
    v := table[c];
  }

  method Decode(encoded: Bytes, maximum: nat) returns (r: Result<Bytes>)
    ensures r == DecodeBounded(encoded, maximum)
  {
    if maximum == 0 {
      return Failure(ResourceLimit);
    }
    if encoded == [] || |encoded| % 4 == 1 {
      return Failure(MalformedInput);
    }
    var groups, remainder := |encoded| / 4, |encoded| % 4;
    if groups > maximum / 3 || groups * 3 + (if remainder == 0 then 0 else remainder - 1) > maximum {
      return Failure(ResourceLimit);
    }
    var x := DecodeLetters(encoded);
    r := if x.Some? then Success(x.value) else Failure(MalformedInput);
  }

  /** The loop and the tail of `decode`, once the lengths are known to be right. */
  method DecodeLetters(encoded: Bytes) returns (r: Option<Bytes>)
    requires |encoded| % 4 != 1
    ensures r == DecodeUrl(encoded)
  {
    hide Entry, DecodeGroup, DecodeUrl;
    var table := DecodeTable();
    var output: Bytes := [];
    var offset := 0;
    assert encoded[0..] == encoded;
    PrependNothing(DecodeUrl(encoded));
    while |encoded| - offset >= 4
      invariant 0 <= offset <= |encoded| && offset % 4 == 0
      invariant forall c: byte :: table[c] == Entry(c, UrlSafe)
      invariant DecodeUrl(encoded) == Prepend(output, DecodeUrl(encoded[offset..]))
    {
      var a := Sextet(table, encoded[offset]);
      var b := Sextet(table, encoded[offset + 1]);
      var c := Sextet(table, encoded[offset + 2]);
      var d := Sextet(table, encoded[offset + 3]);
      DecodeStep(output, encoded, offset, a, b, c, d);
      if a == INVALID || b == INVALID || c == INVALID || d == INVALID {
        return None;
      }
      var group := DecodeGroup(a, b, c, d);
      ghost var rest := DecodeUrl(encoded[offset + 4..]);
      assert DecodeUrl(encoded) == Prepend(output + group, rest);
      output := output + group;
      offset := offset + 4;
    }
    var tail := DecodeTail(table, encoded[offset..]);
    r := Prepend(output, tail);
  }

  lemma DecodeStep(output: Bytes, encoded: Bytes, offset: nat, a: byte, b: byte, c: byte, d: byte)
    requires offset + 4 <= |encoded|
    requires a == Entry(encoded[offset], UrlSafe) && b == Entry(encoded[offset + 1], UrlSafe)
    requires c == Entry(encoded[offset + 2], UrlSafe) && d == Entry(encoded[offset + 3], UrlSafe)
    ensures a == INVALID || b == INVALID || c == INVALID || d == INVALID ==> DecodeUrl(encoded[offset..]) == None
    ensures a < 64 && b < 64 && c < 64 && d < 64 ==>
      Prepend(output, DecodeUrl(encoded[offset..]))
      == Prepend(output + DecodeGroup(a, b, c, d), DecodeUrl(encoded[offset + 4..]))
  {
    var text := encoded[offset..];
    assert text[4..] == encoded[offset + 4..];
    if a < 64 && b < 64 && c < 64 && d < 64 {
      PrependConcat(output, DecodeGroup(a, b, c, d), DecodeUrl(text[4..]));
    }
  }

  method DecodeTail(table: array<byte>, tail: Bytes) returns (r: Option<Bytes>)
    requires table.Length == 256 && forall c: byte :: table[c] == Entry(c, UrlSafe)
    requires |tail| < 4 && |tail| != 1
    ensures r == DecodeUrl(tail)
  {
    if |tail| == 2 {
      var a := Sextet(table, tail[0]);
      var b := Sextet(table, tail[1]);
      if a == INVALID || b == INVALID || b % 16 != 0 {
        return None;
      }
      return Some([(a as int * 4 + b as int / 16) % 256]);
    } else if |tail| == 3 {
      var a := Sextet(table, tail[0]);
      var b := Sextet(table, tail[1]);
      var c := Sextet(table, tail[2]);
      if a == INVALID || b == INVALID || c == INVALID || c % 4 != 0 {
        return None;
      }
      return Some([(a as int * 4 + b as int / 16) % 256, (b as int * 16 + c as int / 4) % 256]);
    }
    r := Some([]);
  }

  function Prepend(x: Bytes, y: Option<Bytes>): Option<Bytes> {
    match y case Some(z) => Some(x + z) case None => None
  }

  lemma PrependNothing(z: Option<Bytes>)
    ensures Prepend([], z) == z
  {
    if z.Some? {
      assert [] + z.value == z.value;
    }
  }

  lemma PrependConcat(x: Bytes, y: Bytes, z: Option<Bytes>)
    ensures Prepend(x, Prepend(y, z)) == Prepend(x + y, z)
  {
    if z.Some? {
      assert x + (y + z.value) == (x + y) + z.value;
    }
  }

  // ---- the padded decoder of the offered key

  /** One group of four characters; padding is admitted only in the last one, and the bits
      it leaves unused must be zero. */
  function DecodePaddedGroup(t: Bytes, last: bool): (g: Option<Bytes>)
    requires |t| == 4
    ensures g.Some? ==> 1 <= |g.value| <= 3
  {
    var pad2, pad3 := t[2] == PAD, t[3] == PAD;
    var a, b := Entry(t[0], Standard), Entry(t[1], Standard);
    var c, d := if pad2 then 0 else Entry(t[2], Standard), if pad3 then 0 else Entry(t[3], Standard);
    if a == INVALID || b == INVALID || c == INVALID || d == INVALID || (!last && (pad2 || pad3))
       || (pad2 && !pad3) || (pad2 && b % 16 != 0) || (!pad2 && pad3 && c % 4 != 0)
    then
      None
    else
      Some(DecodeGroup(a, b, c, d)[..if pad2 then 1 else if pad3 then 2 else 3])
  }

  function DecodePadded(text: Bytes, produced: nat, maximum: nat): Result<Bytes>
    requires |text| % 4 == 0
  {
    if text == [] then Success([])
    else
      match DecodePaddedGroup(text[..4], |text| == 4)
      case None => Failure(MalformedInput)
      case Some(g) =>
        if produced + |g| > maximum then Failure(ResourceLimit)
        else
          var x :- DecodePadded(text[4..], produced + |g|, maximum);
          Success(g + x)
  }

  function DecodeOffered(input: Bytes, maximum: nat): Result<Bytes> {
    if input == [] || |input| % 4 != 0 || |input| / 4 > (maximum + 2) / 3 then Failure(MalformedInput)
    else DecodePadded(input, 0, maximum)
  }

  lemma PaddedGroupOf(x: Bytes, last: bool)
    requires 1 <= |x| <= 3 && (|x| == 3 || last)
    ensures |Encode(x, Standard)| == 4
    ensures DecodePaddedGroup(Encode(x, Standard), last) == Some(x)
  {
    match |x| {
      case 3 => PaddedGroupOfThree(x, last);
      case 2 => PaddedGroupOfTwo(x);
      case _ => PaddedGroupOfOne(x);
    }
  }

  lemma PaddedGroupOfThree(x: Bytes, last: bool)
    requires |x| == 3
    ensures |Encode(x, Standard)| == 4 && DecodePaddedGroup(Encode(x, Standard), last) == Some(x)
  {
    EncodeGroupEntries(x[0], x[1], x[2], Standard);
    EncodeThree(x);
    var t := EncodeGroup(x[0], x[1], x[2], Standard);
    assert t[2] in t && t[3] in t;
    assert DecodeGroup(Entry(t[0], Standard), Entry(t[1], Standard),
                       Entry(t[2], Standard), Entry(t[3], Standard))[..3] == x;
  }

  lemma PaddedGroupOfTwo(x: Bytes)
    requires |x| == 2
    ensures |Encode(x, Standard)| == 4 && DecodePaddedGroup(Encode(x, Standard), true) == Some(x)
  {
    EncodeGroupEntries(x[0], x[1], 0, Standard);
    var t := EncodeGroup(x[0], x[1], 0, Standard);
    assert t[2] in t && Encode(x, Standard) == [t[0], t[1], t[2], PAD];
    assert DecodeGroup(Entry(t[0], Standard), Entry(t[1], Standard), Entry(t[2], Standard), 0)[..2] == x;
  }

  lemma PaddedGroupOfOne(x: Bytes)
    requires |x| == 1
    ensures |Encode(x, Standard)| == 4 && DecodePaddedGroup(Encode(x, Standard), true) == Some(x)
  {
    EncodeGroupEntries(x[0], 0, 0, Standard);
    var t := EncodeGroup(x[0], 0, 0, Standard);
    assert Encode(x, Standard) == [t[0], t[1], PAD, PAD];
    assert DecodeGroup(Entry(t[0], Standard), Entry(t[1], Standard), 0, 0)[..1] == x;
  }

  lemma DecodePaddedStep(t: Bytes, rest: Bytes, produced: nat, maximum: nat)
    requires |t| == 4 && |rest| % 4 == 0
    ensures DecodePadded(t + rest, produced, maximum) ==
      match DecodePaddedGroup(t, rest == [])
      case None => Failure(MalformedInput)
      case Some(g) =>
        if produced + |g| > maximum then Failure(ResourceLimit)
        else PrependResult(g, DecodePadded(rest, produced + |g|, maximum))
  {
    assert (t + rest)[..4] == t && (t + rest)[4..] == rest;
  }

  lemma FourLess(n: nat, k: nat)
    requires n % 4 == 0 && k % 4 == 0 && k < n
    ensures k + 4 <= n && (n - k) % 4 == 0 && (n - k - 4) % 4 == 0 && (k + 4) % 4 == 0
  {
  }

  lemma EncodeOfPaddedGroup(t: Bytes, last: bool)
    requires |t| == 4
    ensures var g := DecodePaddedGroup(t, last);
            g.Some? ==> (|g.value| == 3 || last) && Encode(g.value, Standard) == t
  {
    var g := DecodePaddedGroup(t, last);
    if g.Some? {
      var a, b := Entry(t[0], Standard), Entry(t[1], Standard);
      var c, d := if t[2] == PAD then 0 else Entry(t[2], Standard), if t[3] == PAD then 0 else Entry(t[3], Standard);
      DecodeGroupLetters(a, b, c, d, Standard);
      assert Spell([a, b, c, d], Standard)[0] == t[0] && Spell([a, b, c, d], Standard)[1] == t[1];
      if |g.value| == 3 {
        EncodeThree(g.value);
        assert Encode(g.value, Standard) == t;
      }
    }
  }

  lemma EncodeSplit(x: Bytes)
    requires |x| >= 3
    ensures Encode(x, Standard) == Encode(x[..3], Standard) + Encode(x[3..], Standard)
  {
    EncodeThree(x[..3]);
  }

  lemma EncodeThree(x: Bytes)
    requires |x| == 3
    ensures Encode(x, Standard) == EncodeGroup(x[0], x[1], x[2], Standard)
  {
    assert x[3..] == [];
    assert Encode([], Standard) == [];
  }

  lemma {:induction false} DecodePaddedOf(x: Bytes, produced: nat, maximum: nat)
    requires produced + |x| <= maximum
    ensures |Encode(x, Standard)| % 4 == 0
    ensures DecodePadded(Encode(x, Standard), produced, maximum) == Success(x)
  {
    EncodeLength(x, Standard);
    if |x| > 3 {
      EncodeSplit(x);
      EncodeLength(x[3..], Standard);
      PaddedGroupOf(x[..3], false);
      DecodePaddedOf(x[3..], produced + 3, maximum);
      DecodePaddedStep(Encode(x[..3], Standard), Encode(x[3..], Standard), produced, maximum);
      assert x == x[..3] + x[3..];
    } else if |x| > 0 {
      PaddedGroupOf(x, true);
      DecodePaddedStep(Encode(x, Standard), [], produced, maximum);
      assert Encode(x, Standard) + [] == Encode(x, Standard) && x + [] == x;
    }
  }

  lemma {:induction false} EncodeOfDecodePadded(text: Bytes, produced: nat, maximum: nat)
    requires |text| % 4 == 0
    ensures var r := DecodePadded(text, produced, maximum);
            r.Success? ==> (Encode(r.value, Standard) == text
                            && (text != [] ==> r.value != [] && produced + |r.value| <= maximum))
  {
    var r := DecodePadded(text, produced, maximum);
    if text != [] && r.Success? {
      var g := DecodePaddedGroup(text[..4], |text| == 4).value;
      EncodeOfPaddedGroup(text[..4], |text| == 4);
      EncodeOfDecodePadded(text[4..], produced + |g|, maximum);
      assert text == text[..4] + text[4..];
      if |g| == 3 {
        EncodeSplit(r.value);
        assert r.value[..3] == g && r.value[3..] == r.value[|g|..];
      } else {
        assert text[4..] == [] && r.value == g;
      }
    }
  }

  /** The offered key is accepted exactly when it is the canonical padded encoding of a
      non-empty octet string within the bound; the early test on the text length agrees
      with the test on the decoded length. */
  lemma DecodeOfferedIsCanonical(input: Bytes, maximum: nat, x: Bytes)
    ensures DecodeOffered(input, maximum) == Success(x)
       <==> x != [] && |x| <= maximum && Encode(x, Standard) == input
  {
    if x != [] && |x| <= maximum && Encode(x, Standard) == input {
      EncodeLength(x, Standard);
      DecodePaddedOf(x, 0, maximum);
    }
    if |input| % 4 == 0 {
      EncodeOfDecodePadded(input, 0, maximum);
    }
  }

  /** `decode_base64`. */
  method DecodeOfferedKey(input: Bytes, maximum: nat) returns (r: Result<Bytes>)
    ensures r == DecodeOffered(input, maximum)
  {
    if input == [] || |input| % 4 != 0 || |input| / 4 > (maximum + 2) / 3 {
      return Failure(MalformedInput);
    }
    var output: Bytes := [];
    var offset := 0;
    assert input[0..] == input;
    PrependResultNothing(DecodePadded(input, 0, maximum));
    while offset < |input|
      invariant 0 <= offset <= |input| && offset % 4 == 0 && |input[offset..]| % 4 == 0
      invariant DecodeOffered(input, maximum)
             == PrependResult(output, DecodePadded(input[offset..], |output|, maximum))
    {
      var last := offset + 4 == |input|;
      FourLess(|input|, offset);
      var group := ReadPaddedGroup(input[offset..offset + 4], last);
      ghost var before := output;
      DecodePaddedStep(input[offset..offset + 4], input[offset + 4..], |before|, maximum);
      assert input[offset..] == input[offset..offset + 4] + input[offset + 4..];
      if group.None? {
        return Failure(MalformedInput);
      }
      output := output + group.value;
      if |output| > maximum {
        return Failure(ResourceLimit);
      }
      PrependResultConcat(before, group.value, DecodePadded(input[offset + 4..], |output|, maximum));
      offset := offset + 4;
    }
    assert input[offset..] == [] && output + [] == output;
    r := Success(output);
  }

  /** The body of the loop, with the signed sextets of the source: -1 for no letter. */
  method ReadPaddedGroup(t: Bytes, last: bool) returns (g: Option<Bytes>)
    requires |t| == 4
    ensures g == DecodePaddedGroup(t, last)
  {
    var pad2, pad3 := t[2] == PAD, t[3] == PAD;
    var a, b := SignedEntry(t[0]), SignedEntry(t[1]);
    var c, d := if pad2 then 0 else SignedEntry(t[2]), if pad3 then 0 else SignedEntry(t[3]);
    if a < 0 || b < 0 || c < 0 || d < 0 || (!last && (pad2 || pad3))
       || (pad2 && !pad3) || (pad2 && b % 16 != 0) || (!pad2 && pad3 && c % 4 != 0) {
      return None;
    }
    var output: Bytes := [(a * 4 + b / 16) % 256];
    if !pad2 {
      output := output + [(b * 16 + c / 4) % 256];
    }
    if !pad3 {
      output := output + [(c * 64 + d) % 256];
    }
    assert output == DecodeGroup(a, b, c, d)[..|output|];
    g := Some(output);
  }

  function SignedEntry(c: byte): int {
    if Entry(c, Standard) == INVALID then -1 else Entry(c, Standard)
  }

  function PrependResult(x: Bytes, y: Result<Bytes>): Result<Bytes> {
    match y case Success(z) => Success(x + z) case Failure(kind) => Failure(kind)
  }

  lemma PrependResultNothing(z: Result<Bytes>)
    ensures PrependResult([], z) == z
  {
    if z.Success? {
      assert [] + z.value == z.value;
    }
  }

  lemma PrependResultConcat(x: Bytes, y: Bytes, z: Result<Bytes>)
    ensures PrependResult(x, PrependResult(y, z)) == PrependResult(x + y, z)
  {
    if z.Success? {
      assert x + (y + z.value) == (x + y) + z.value;
    }
  }
}
