/** The bounds-checked cursors of `src/crypto.cpp`, `src/openssh_certificate.cpp` and
    `src/issuer_verifier.cpp`, with the functions on the unread octets that specify them. */
module Cursor {
  import opened Bytes
  import opened Errors

  /** What a read returns and what it leaves unread, also when it fails. */
  datatype Taken<+T> = Taken(result: Result<T>, rest: Bytes)

  function TakeInteger(s: Bytes, width: nat, kind: Kind): (t: Taken<nat>)
    ensures |t.rest| <= |s|
    ensures t.result.Success? ==> t.result.value < Power256(width)
  {
    if |s| < width then
      Taken(Failure(kind), s)
    else
      Taken(Success(FromBytes(s[..width])), s[width..])
  }

  /** An SSH string: the length is consumed even if the octets behind it are not there. */
  function TakeString(s: Bytes, maximum: nat): (t: Taken<Bytes>)
    ensures |t.rest| <= |s|
  {
    var length := TakeInteger(s, 4, MalformedInput);
    if length.result.Failure? then
      Taken(Failure(length.result.kind), length.rest)
    else if length.result.value > |length.rest| then
      Taken(Failure(MalformedInput), length.rest)
    else if length.result.value > maximum then
      Taken(Failure(ResourceLimit), length.rest)
    else
      Taken(Success(length.rest[..length.result.value]), length.rest[length.result.value..])
  }

  /** A non-empty evidence field behind a 64-bit length. */
  function TakeValue(s: Bytes, maximum: nat, kind: Kind): (t: Taken<Bytes>)
    ensures |t.rest| <= |s|
  {
    var length := TakeInteger(s, 8, kind);
    if length.result.Failure? then
      Taken(Failure(kind), length.rest)
    else if length.result.value == 0 || length.result.value > maximum || length.result.value > |length.rest| then
      Taken(Failure(kind), length.rest)
    else
      Taken(Success(length.rest[..length.result.value]), length.rest[length.result.value..])
  }

  lemma TakeIntegerOf(n: nat, width: nat, rest: Bytes, kind: Kind)
    requires n < Power256(width)
    ensures TakeInteger(ToBytes(n, width) + rest, width, kind) == Taken(Success(n), rest)
  {
    FromToBytes(n, width);
    assert (ToBytes(n, width) + rest)[..width] == ToBytes(n, width);
    assert (ToBytes(n, width) + rest)[width..] == rest;
  }

  lemma TakeIntegerInverse(s: Bytes, width: nat, kind: Kind)
    ensures var t := TakeInteger(s, width, kind);
            t.result.Success? ==> s == ToBytes(t.result.value, width) + t.rest
  {
    if |s| >= width {
      ToFromBytes(s[..width]);
      assert s == s[..width] + s[width..];
    }
  }

  lemma TakeStringOf(x: Bytes, rest: Bytes, maximum: nat)
    requires |x| <= maximum && |x| < UINT32_LIMIT
    ensures TakeString(Frame32(x) + rest, maximum) == Taken(Success(x), rest)
  {
    PowerFacts();
    assert Frame32(x) + rest == U32(|x|) + (x + rest);
    TakeIntegerOf(|x|, 4, x + rest, MalformedInput);
    assert (x + rest)[..|x|] == x && (x + rest)[|x|..] == rest;
  }

  lemma TakeStringInverse(s: Bytes, maximum: nat)
    ensures var t := TakeString(s, maximum);
            t.result.Success? ==>
              && s == Frame32(t.result.value) + t.rest
              && |t.result.value| <= maximum && |t.result.value| < UINT32_LIMIT
  {
    hide FromBytes, ToBytes, Power256;
    PowerFacts();
    TakeIntegerInverse(s, 4, MalformedInput);
    var t := TakeString(s, maximum);
    if t.result.Success? {
      var length := TakeInteger(s, 4, MalformedInput);
      assert length.rest == t.result.value + t.rest;
      assert s == U32(|t.result.value|) + (t.result.value + t.rest);
    }
  }

  lemma TakeValueOf(x: Bytes, rest: Bytes, maximum: nat, kind: Kind)
    requires 0 < |x| <= maximum && |x| < UINT64_LIMIT
    ensures TakeValue(Frame64(x) + rest, maximum, kind) == Taken(Success(x), rest)
  {
    PowerFacts();
    assert Frame64(x) + rest == U64(|x|) + (x + rest);
    TakeIntegerOf(|x|, 8, x + rest, kind);
    assert (x + rest)[..|x|] == x && (x + rest)[|x|..] == rest;
  }

  lemma TakeValueInverse(s: Bytes, maximum: nat, kind: Kind)
    ensures var t := TakeValue(s, maximum, kind);
            t.result.Success? ==>
              && s == Frame64(t.result.value) + t.rest
              && 0 < |t.result.value| <= maximum && |t.result.value| < UINT64_LIMIT
  {
    hide FromBytes, ToBytes, Power256;
    PowerFacts();
    TakeIntegerInverse(s, 8, kind);
    var t := TakeValue(s, maximum, kind);
    if t.result.Success? {
      var length := TakeInteger(s, 8, kind);
      assert length.rest == t.result.value + t.rest;
      assert s == U64(|t.result.value|) + (t.result.value + t.rest);
    }
  }

  /** Shifting in one more octet drops nothing while the octets fit the word. */
  lemma ShiftFits(s: Bytes, width: nat)
    requires |s| < width
    ensures (FromBytes(s) * 256) % Power256(width) == FromBytes(s) * 256
  {
    PowerMonotonic(|s| + 1, width);
    SmallModulo(FromBytes(s) * 256, Power256(width));
  }

  lemma SmallModulo(x: nat, m: nat)
    requires x < m
    ensures x % m == x
  {
  }

  class Reader {
    const input: Bytes
    var offset: nat

    ghost predicate Valid()
      reads this
    {
      offset <= |input|
    }

    ghost function Rest(): Bytes
      requires Valid()
      reads this
    {
      input[offset..]
    }

    constructor (octets: Bytes)
      ensures Valid() && input == octets && offset == 0 && Rest() == octets
    {
      input := octets;
      offset := 0;
    }

    /** Unsigned arithmetic of the given width; the shift drops nothing because four or
        eight octets fit the word. */
    method Integer(width: nat, kind: Kind) returns (r: Result<nat>)
      requires Valid()
      modifies this`offset
      ensures Valid()
      ensures Taken(r, Rest()) == TakeInteger(old(Rest()), width, kind)
    {
      if |input| - offset < width {
        return Failure(kind);
      }
      var value: nat := 0;
      var index := 0;
      while index < width
        invariant 0 <= index <= width
        invariant offset == old(offset)
        invariant value == FromBytes(Rest()[..index])
      {
        ShiftFits(Rest()[..index], width);
        assert Rest()[..index + 1][..index] == Rest()[..index];
        assert Rest()[..index + 1][index] == input[offset + index];
        value := (value * 256) % Power256(width) + input[offset + index];
        index := index + 1;
      }
      ghost var rest := Rest();
      offset := offset + width;
      assert rest[width..] == Rest();
      r := Success(value);
    }

    method String(maximum: nat) returns (r: Result<Bytes>)
      requires Valid()
      modifies this`offset
      ensures Valid()
      ensures Taken(r, Rest()) == TakeString(old(Rest()), maximum)
    {
      hide FromBytes, Power256;
      var length := Integer(4, MalformedInput);
      if length.Failure? {
        return Failure(length.kind);
      }
      if length.value > |input| - offset {
        return Failure(MalformedInput);
      }
      if length.value > maximum {
        return Failure(ResourceLimit);
      }
      ghost var rest := Rest();
      r := Success(input[offset..offset + length.value]);
      offset := offset + length.value;
      assert rest[..length.value] == r.value && rest[length.value..] == Rest();
    }

    method Value(maximum: nat, kind: Kind) returns (r: Result<Bytes>)
      requires Valid()
      modifies this`offset
      ensures Valid()
      ensures Taken(r, Rest()) == TakeValue(old(Rest()), maximum, kind)
    {
      hide FromBytes, Power256;
      var length := Integer(8, kind);
      if length.Failure? || length.value == 0 || length.value > maximum || length.value > |input| - offset {
        return Failure(kind);
      }
      ghost var rest := Rest();
      r := Success(input[offset..offset + length.value]);
      offset := offset + length.value;
      assert rest[..length.value] == r.value && rest[length.value..] == Rest();
    }

    method Empty() returns (empty: bool)
      requires Valid()
      ensures empty <==> Rest() == []
    {
      empty := offset == |input|;
    }
  }
}
