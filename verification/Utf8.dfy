/** Account names: the UTF-8 validators of `src/config.cpp`, `src/direct_verifier.cpp` and
    `src/syslog_logger.cpp` against section 3 of RFC 3629. */
module Utf8 {
  import opened Bytes
  import opened Errors

  const MAXIMUM_NAME_BYTES := 256

  /** A Unicode scalar value. */
  type scalar = n: int | 0 <= n < 0xD800 || 0xE000 <= n < 0x110000

  /** Neither C0, DEL nor C1. */
  predicate Printable(n: scalar) {
    0x20 <= n && !(0x7F <= n <= 0x9F)
  }

  /** The table of section 3 of RFC 3629. */
  function EncodeScalar(n: scalar): (e: Bytes)
    ensures 1 <= |e| <= 4
  {
    if n < 0x80 then [n]
    else if n < 0x800 then [0xC0 + n / 64, 0x80 + n % 64]
    else if n < 0x10000 then [0xE0 + n / 4096, 0x80 + n / 64 % 64, 0x80 + n % 64]
    else [0xF0 + n / 262144, 0x80 + n / 4096 % 64, 0x80 + n / 64 % 64, 0x80 + n % 64]
  }

  function EncodeText(text: seq<scalar>): Bytes {
    if text == [] then [] else EncodeScalar(text[0]) + EncodeText(text[1..])
  }

  /** What an account name has to be. */
  ghost predicate IsName(value: Bytes) {
    && |value| <= MAXIMUM_NAME_BYTES
    && exists text: seq<scalar> :: text != [] && (forall c :: c in text ==> Printable(c)) && value == EncodeText(text)
  }

  // ---- one character

  /** The lead octet: the octets of the character and the bits it carries. */
  function Lead(first: byte): Option<(nat, nat)> {
    if first <= 0x7F then Some((1, first))
    else if 0xC2 <= first <= 0xDF then Some((2, first % 32))
    else if 0xE0 <= first <= 0xEF then Some((3, first % 16))
    else if 0xF0 <= first <= 0xF4 then Some((4, first % 8))
    else None
  }

  /** The bits a continuation octet carries. */
  function Low(b: byte): (n: nat)
    ensures n < 64
  {
    b % 64
  }

  /** The continuation octets behind the bits so far. */
  function Continue(value: Bytes, bits: nat): Option<nat>
    decreases |value|
  {
    if value == [] then Some(bits)
    else if value[0] / 64 != 2 then None
    else Continue(value[1..], bits * 64 + Low(value[0]))
  }

  predicate Admitted(length: nat, codepoint: nat) {
    && !(length == 3 && codepoint < 0x800)
    && !(length == 4 && codepoint < 0x10000)
    && codepoint <= 0x10FFFF && !(0xD800 <= codepoint <= 0xDFFF)
    && !(codepoint <= 0x1F) && !(0x7F <= codepoint <= 0x9F)
  }

  /** The length of the leading character, when it is an admitted one. */
  function Character(value: Bytes): (length: Option<nat>)
    requires value != []
    ensures length.Some? ==> 1 <= length.value <= |value|
  {
    var lead := Lead(value[0]);
    if lead.None? || lead.value.0 > |value| then None
    else
      var codepoint := Continue(value[1..lead.value.0], lead.value.1);
      if codepoint.None? || !Admitted(lead.value.0, codepoint.value) then None else Some(lead.value.0)
  }

  predicate Characters(value: Bytes)
    decreases |value|
  {
    value == [] || (Character(value).Some? && Characters(value[Character(value).value..]))
  }

  predicate ValidName(value: Bytes, maximum: nat) {
    value != [] && |value| <= maximum && Characters(value)
  }

  // ---- exactly RFC 3629

  lemma Bits(n: nat)
    ensures n / 4096 == n / 64 / 64 && n / 262144 == n / 64 / 64 / 64
    ensures n == n / 64 * 64 + n % 64
  {
  }

  /** The bits a whole character spells. */
  function Codepoint(c: Bytes): Option<nat>
    requires c != [] && Lead(c[0]).Some?
  {
    Continue(c[1..], Lead(c[0]).value.1)
  }

  lemma ContinueFrom(c: Bytes, i: nat, bits: nat)
    requires i <= |c|
    ensures Continue(c[i..], bits)
            == if i == |c| then Some(bits) else if c[i] / 64 != 2 then None
               else Continue(c[i + 1..], bits * 64 + Low(c[i]))
  {
    if i < |c| {
      assert c[i..][1..] == c[i + 1..];
    }
  }

  /** All the continuation octets of a character at once. */
  lemma ContinueAll(c: Bytes, bits: nat)
    requires 1 <= |c| <= 4
    ensures Continue(c[1..], bits)
            == if exists i :: 1 <= i < |c| && c[i] / 64 != 2 then None
               else if |c| == 1 then Some(bits)
               else if |c| == 2 then Some(bits * 64 + Low(c[1]))
               else if |c| == 3 then Some((bits * 64 + Low(c[1])) * 64 + Low(c[2]))
               else Some(((bits * 64 + Low(c[1])) * 64 + Low(c[2])) * 64 + Low(c[3]))
  {
    hide Continue, Low;
    ContinueFrom(c, 1, bits);
    if |c| > 1 {
      ContinueFrom(c, 2, bits * 64 + Low(c[1]));
    }
    if |c| > 2 {
      ContinueFrom(c, 3, (bits * 64 + Low(c[1])) * 64 + Low(c[2]));
    }
    if |c| > 3 {
      ContinueFrom(c, 4, ((bits * 64 + Low(c[1])) * 64 + Low(c[2])) * 64 + Low(c[3]));
    }
  }

  predicate Reads(n: scalar, e: Bytes) {
    e != [] && Lead(e[0]).Some? && Lead(e[0]).value.0 == |e| && Codepoint(e) == Some(n) && Admitted(|e|, n)
  }

  lemma EncodedIsRead(n: scalar)
    requires Printable(n)
    ensures Reads(n, EncodeScalar(n))
  {
    hide Continue;
    Bits(n);
    if n < 0x80 {
      ContinueAll(EncodeScalar(n), n);
    } else if n < 0x800 {
      ContinueAll(EncodeScalar(n), n / 64);
    } else if n < 0x10000 {
      ThreeRead(n);
    } else {
      FourRead(n);
    }
  }

  lemma ThreeRead(n: scalar)
    requires 0x800 <= n < 0x10000
    ensures Reads(n, EncodeScalar(n))
  {
    hide Continue;
    Bits(n);
    var e := EncodeScalar(n);
    assert Lead(e[0]) == Some((3, n / 4096));
    ContinueAll(e, n / 4096);
    assert Low(e[1]) == n / 64 % 64 && Low(e[2]) == n % 64;
  }

  lemma FourRead(n: scalar)
    requires 0x10000 <= n
    ensures Reads(n, EncodeScalar(n))
  {
    hide Continue;
    Bits(n);
    Bits(n / 64);
    var e := EncodeScalar(n);
    assert Lead(e[0]) == Some((4, n / 262144));
    ContinueAll(e, n / 262144);
    assert Low(e[1]) == n / 4096 % 64 && Low(e[2]) == n / 64 % 64 && Low(e[3]) == n % 64;
  }

  lemma ReadIsEncoded(c: Bytes, n: nat)
    requires c != [] && Lead(c[0]).Some? && Lead(c[0]).value.0 == |c|
    requires Codepoint(c) == Some(n) && Admitted(|c|, n)
    ensures (n < 0xD800 || 0xE000 <= n < 0x110000) && Printable(n) && EncodeScalar(n) == c
  {
    if |c| == 1 {
      assert c[1..] == [];
    } else if |c| == 2 {
      ContinuesTwo(c, n);
    } else if |c| == 3 {
      ContinuesThree(c, n);
    } else {
      ContinuesFour(c, n);
    }
  }

  lemma ContinuesTwo(c: Bytes, n: nat)
    requires |c| == 2 && 0xC2 <= c[0] <= 0xDF && Codepoint(c) == Some(n)
    ensures 0x80 <= n < 0x800 && EncodeScalar(n) == c
  {
    hide Continue;
    var lead: int := c[0] as int % 32;
    ContinueAll(c, lead);
    assert n / 64 == lead && n % 64 == Low(c[1]);
  }

  lemma ContinuesThree(c: Bytes, n: nat)
    requires |c| == 3 && 0xE0 <= c[0] <= 0xEF && Codepoint(c) == Some(n)
    requires 0x800 <= n && !(0xD800 <= n <= 0xDFFF)
    ensures n < 0x10000 && EncodeScalar(n) == c
  {
    hide Continue;
    var lead: int := c[0] as int % 16;
    ContinueAll(c, lead);
    Bits(n);
    assert n / 64 == lead * 64 + Low(c[1]) && n % 64 == Low(c[2]);
    assert n / 64 / 64 == lead && n / 64 % 64 == Low(c[1]);
  }

  lemma ContinuesFour(c: Bytes, n: nat)
    requires |c| == 4 && 0xF0 <= c[0] <= 0xF4 && Codepoint(c) == Some(n)
    requires 0x10000 <= n <= 0x10FFFF
    ensures EncodeScalar(n) == c
  {
    hide Continue;
    var lead: int := c[0] as int % 8;
    ContinueAll(c, lead);
    Bits(n);
    var high := lead * 64 + Low(c[1]);
    assert n / 64 == high * 64 + Low(c[2]) && n % 64 == Low(c[3]);
    assert n / 64 / 64 == high && n / 64 % 64 == Low(c[2]);
    assert n / 64 / 64 / 64 == lead && n / 64 / 64 % 64 == Low(c[1]);
  }

  lemma {:induction false} TextIsAccepted(text: seq<scalar>)
    requires forall c :: c in text ==> Printable(c)
    ensures Characters(EncodeText(text))
    decreases |text|
  {
    if text != [] {
      var e, rest := EncodeScalar(text[0]), EncodeText(text[1..]);
      EncodedIsRead(text[0]);
      TextIsAccepted(text[1..]);
      assert (e + rest)[1..|e|] == e[1..];
      assert (e + rest)[|e|..] == rest;
    }
  }

  lemma {:induction false} AcceptedIsText(value: Bytes) returns (text: seq<scalar>)
    requires Characters(value)
    ensures forall c :: c in text ==> Printable(c)
    ensures value == EncodeText(text) && (text == [] <==> value == [])
    decreases |value|
  {
    hide Character, EncodeScalar, Continue, Lead, Admitted;
    if value == [] {
      return [];
    }
    var k := Character(value).value;
    var n := CharacterIsEncoded(value);
    var rest := AcceptedIsText(value[k..]);
    text := [n] + rest;
    assert text[1..] == rest && value == value[..k] + value[k..];
  }

  lemma CharacterIsEncoded(value: Bytes) returns (n: scalar)
    requires value != [] && Character(value).Some?
    ensures Printable(n) && EncodeScalar(n) == value[..Character(value).value]
  {
    hide Continue, Characters, EncodeScalar;
    var k := Character(value).value;
    var c := value[..k];
    assert c[1..] == value[1..k];
    ReadIsEncoded(c, Codepoint(c).value);
    n := Codepoint(c).value;
  }

  /** The validators accept exactly the encodings of one or more printable scalar values in 256 octets. */
  lemma ValidNameIsName(value: Bytes)
    ensures ValidName(value, MAXIMUM_NAME_BYTES) <==> IsName(value)
  {
    if ValidName(value, MAXIMUM_NAME_BYTES) {
      var text := AcceptedIsText(value);
    }
    if IsName(value) {
      var text: seq<scalar> :| text != [] && (forall c :: c in text ==> Printable(c)) && value == EncodeText(text);
      TextIsAccepted(text);
      assert value != [];
    }
  }

  /** A name is the encoding of one text only. */
  lemma {:induction false} OneText(a: seq<scalar>, b: seq<scalar>)
    requires forall c :: c in a || c in b ==> Printable(c)
    requires EncodeText(a) == EncodeText(b)
    ensures a == b
    decreases |a|
  {
    if a != [] && b != [] {
      EncodedIsRead(a[0]);
      EncodedIsRead(b[0]);
      var x, y := EncodeScalar(a[0]), EncodeScalar(b[0]);
      assert (x + EncodeText(a[1..]))[0] == (y + EncodeText(b[1..]))[0];
      assert (x + EncodeText(a[1..]))[..|x|] == x && (y + EncodeText(b[1..]))[..|x|] == y;
      assert (x + EncodeText(a[1..]))[|x|..] == EncodeText(a[1..])
             && (y + EncodeText(b[1..]))[|x|..] == EncodeText(b[1..]);
      OneText(a[1..], b[1..]);
      assert a == [a[0]] + a[1..] && b == [b[0]] + b[1..];
    }
  }

  // ---- the loops

  lemma CharactersStep(value: Bytes, offset: nat)
    requires offset < |value|
    ensures var k := Character(value[offset..]);
            Characters(value[offset..]) == (k.Some? && Characters(value[offset + k.value..]))
  {
    var k := Character(value[offset..]);
    if k.Some? {
      assert value[offset..][k.value..] == value[offset + k.value..];
    }
  }

  /** The inner loop: `length - 1` continuation octets, shifted in six bits at a time. */
  method ReadContinuation(value: Bytes, offset: nat, length: nat, lead: nat) returns (codepoint: Option<nat>)
    requires 1 <= length && offset + length <= |value|
    ensures codepoint == Continue(value[offset + 1..offset + length], lead)
  {
    var c := value[offset..offset + length];
    assert c[1..] == value[offset + 1..offset + length];
    var bits: nat := lead;
    var index := 1;
    while index < length
      invariant 1 <= index <= length
      invariant Continue(c[1..], lead) == Continue(c[index..], bits)
    {
      ContinueFrom(c, index, bits);
      var next := value[offset + index];
      if next / 64 != 2 {
        return None;
      }
      bits := bits * 64 + Low(next);
      index := index + 1;
    }
    ContinueFrom(c, length, bits);
    codepoint := Some(bits);
  }

  /** `utf8_without_controls`, and with the bound 256 `safe_username`. */
  method WithoutControls(value: Bytes, maximum: nat) returns (ok: bool)
    ensures ok == ValidName(value, maximum)
  {
    hide Characters, Continue;
    if value == [] || |value| > maximum {
      return false;
    }
    var offset := 0;
    assert value[0..] == value;
    while offset < |value|
      invariant 0 <= offset <= |value|
      invariant Characters(value) == Characters(value[offset..])
    {
      CharactersStep(value, offset);
      assert value[offset..][0] == value[offset];
      var lead := Lead(value[offset]);
      if lead.None? {
        return false;
      }
      var length := lead.value.0;
      if length > |value| - offset {
        return false;
      }
      SliceOfSlice(value, offset, length);
      var codepoint := ReadContinuation(value, offset, length, lead.value.1);
      if codepoint.None? {
        return false;
      }
      if (length == 3 && codepoint.value < 0x800) || (length == 4 && codepoint.value < 0x10000)
         || codepoint.value > 0x10FFFF || 0xD800 <= codepoint.value <= 0xDFFF || codepoint.value <= 0x1F
         || 0x7F <= codepoint.value <= 0x9F {
        return false;
      }
      offset := offset + length;
    }
    assert value[offset..] == [];
    NoCharacters();
    ok := true;
  }

  lemma SliceOfSlice(value: Bytes, offset: nat, length: nat)
    requires 1 <= length && offset + length <= |value|
    ensures value[offset..][1..length] == value[offset + 1..offset + length]
  {
  }

  lemma NoCharacters()
    ensures Characters([])
  {
  }

  /** `valid_requested_user`, which counts the octets behind the lead instead of the whole character. */
  method ValidRequestedUser(value: Bytes) returns (ok: bool)
    ensures ok == ValidName(value, MAXIMUM_NAME_BYTES)
  {
    hide Characters, Continue;
    if value == [] || |value| > 256 {
      return false;
    }
    var offset := 0;
    assert value[0..] == value;
    while offset < |value|
      invariant 0 <= offset <= |value|
      invariant Characters(value) == Characters(value[offset..])
    {
      CharactersStep(value, offset);
      assert value[offset..][0] == value[offset];
      var first := value[offset];
      var codepoint: nat := 0;
      var continuationCount := 0;
      if first <= 0x7F {
        codepoint := first;
      } else if 0xC2 <= first <= 0xDF {
        codepoint, continuationCount := first as int % 32, 1;
      } else if 0xE0 <= first <= 0xEF {
        codepoint, continuationCount := first as int % 16, 2;
      } else if 0xF0 <= first <= 0xF4 {
        codepoint, continuationCount := first as int % 8, 3;
      } else {
        return false;
      }
      if continuationCount > |value| - offset - 1 {
        return false;
      }
      SliceOfSlice(value, offset, continuationCount + 1);
      var read := ReadContinuation(value, offset, continuationCount + 1, codepoint);
      if read.None? {
        return false;
      }
      codepoint := read.value;
      if (continuationCount == 2 && codepoint < 0x800) || (continuationCount == 3 && codepoint < 0x10000)
         || 0xD800 <= codepoint <= 0xDFFF || codepoint > 0x10FFFF || codepoint <= 0x1F || 0x7F <= codepoint <= 0x9F {
        return false;
      }
      offset := offset + continuationCount + 1;
    }
    assert value[offset..] == [];
    NoCharacters();
    ok := true;
  }
}
