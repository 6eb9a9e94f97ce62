/** The evidence format of the Guillou-Quisquater proof in `src/crypto.cpp`.
    SHA-256 is any function to 32 octets; OpenSSL integers are natural numbers. */
module GqEvidence {
  import opened Bytes
  import opened Errors
  import opened Cursor
  import Base64

  const EXPONENT: nat := 65537
  const ROUNDS: nat := 8
  const MAXIMUM_EVIDENCE_BYTES: nat := 16384
  const MAXIMUM_HEADER_BYTES: nat := 32768
  const MAXIMUM_CHALLENGE: nat := 65536
  const MAXIMUM_INTEGER_BYTES: nat := 0x7fff_ffff

  type Digest = d: Bytes | |d| == 32 witness seq(32, _ => 0)
  type Sha256 = Bytes -> Digest

  datatype RsaPublicKey = RsaPublicKey(modulus: Bytes, exponent: nat) {
    function Modulus(): nat {
      FromBytes(modulus)
    }
  }

  /** What the proof is about: the encoded payload, the caller commitment, the issuer. */
  datatype Statement = Statement(payload: Bytes, commitment: Bytes, issuer: Bytes)

  datatype Round = Round(commitment: nat, response: nat)
  datatype Proof = Proof(header: Bytes, rounds: seq<Round>)

  // ---- key and message

  /** `BN_num_bits`. */
  function BitLength(n: nat): nat {
    if n == 0 then 0 else 1 + BitLength(n / 2)
  }

  /** The checks of `make_rsa_key` and `make_bn` that do not depend on OpenSSL's internals. */
  predicate Eligible(key: RsaPublicKey) {
    && key.modulus != [] && key.modulus[0] != 0 && |key.modulus| <= MAXIMUM_INTEGER_BYTES
    && key.exponent == EXPONENT
    && BitLength(key.Modulus()) >= 2048
  }

  lemma {:induction false} BitLengthBound(s: Bytes)
    ensures BitLength(FromBytes(s)) <= 8 * |s|
  {
    if s != [] {
      BitLengthBound(s[..|s| - 1]);
      BitLengthOctet(FromBytes(s));
    }
  }

  lemma BitLengthOctet(n: nat)
    ensures BitLength(n) <= 8 + BitLength(n / 256)
  {
    BitLengthHalf(n, n / 2);
    BitLengthHalf(n / 2, n / 4);
    BitLengthHalf(n / 4, n / 8);
    BitLengthHalf(n / 8, n / 16);
    BitLengthHalf(n / 16, n / 32);
    BitLengthHalf(n / 32, n / 64);
    BitLengthHalf(n / 64, n / 128);
    BitLengthHalf(n / 128, n / 256);
  }

  lemma BitLengthHalf(n: nat, half: nat)
    requires half == n / 2
    ensures BitLength(n) <= 1 + BitLength(half)
  {
  }

  lemma EligibleSize(key: RsaPublicKey)
    requires Eligible(key)
    ensures |key.modulus| >= 256 && key.Modulus() > 1
    ensures Minimal(key.Modulus()) == key.modulus
  {
    BitLengthBound(key.modulus);
    MinimalFrom(key.modulus);
    assert BitLength(0) == 0 && BitLength(1) == 1;
  }

  const DIGEST_INFO_PREFIX: Bytes :=
    [0x30, 0x31, 0x30, 0x0d, 0x06, 0x09, 0x60, 0x86, 0x48, 0x01,
     0x65, 0x03, 0x04, 0x02, 0x01, 0x05, 0x00, 0x04, 0x20]

  const MINIMUM_MESSAGE_BYTES: nat := 19 + 32 + 11

  function Filler(count: nat): (s: Bytes)
    ensures |s| == count
  {
    seq(count, _ => 0xff)
  }

  /** EMSA-PKCS1-v1_5 of section 9.2 of RFC 8017. */
  function EncodedMessage(size: nat, digest: Digest): (em: Bytes)
    requires size >= MINIMUM_MESSAGE_BYTES
    ensures |em| == size
  {
    [0, 1] + Filler(size - (19 + 32) - 3) + [0] + DIGEST_INFO_PREFIX + digest
  }

  function SigningInput(header: Bytes, payload: Bytes): Bytes {
    header + [46] + payload
  }

  /** The message octets cover the modulus length exactly and stay below the modulus: the
      first octet is zero where the first octet of the modulus is not. */
  lemma MessageBelowModulus(key: RsaPublicKey, digest: Digest)
    requires Eligible(key)
    ensures |key.modulus| >= MINIMUM_MESSAGE_BYTES
    ensures |EncodedMessage(|key.modulus|, digest)| == |key.modulus|
    ensures FromBytes(EncodedMessage(|key.modulus|, digest)) < key.Modulus()
  {
    EligibleSize(key);
    var em := EncodedMessage(|key.modulus|, digest);
    assert em == [0] + em[1..];
    FromConcat([0], em[1..]);
    assert key.modulus == [key.modulus[0]] + key.modulus[1..];
    FromConcat([key.modulus[0]], key.modulus[1..]);
    assert FromBytes([0]) == 0 && FromBytes([key.modulus[0]]) == key.modulus[0];
    Monotonic(1, key.modulus[0], Power256(|key.modulus| - 1));
  }

  // ---- evidence

  function EncodeRounds(rounds: seq<Round>): Bytes {
    if rounds == [] then []
    else
      Frame64(Minimal(rounds[0].commitment)) + (Frame64(Minimal(rounds[0].response)) + EncodeRounds(rounds[1..]))
  }

  function EncodeProof(p: Proof): Bytes {
    Frame64(p.header) + (U32(|p.rounds|) + EncodeRounds(p.rounds))
  }

  predicate InRange(r: Round, n: nat) {
    0 < r.commitment < n && 0 < r.response < n
  }

  predicate WellFormed(p: Proof, n: nat) {
    && |p.header| <= MAXIMUM_HEADER_BYTES
    && Base64.DecodeBounded(p.header, MAXIMUM_HEADER_BYTES).Success?
    && |p.rounds| == ROUNDS
    && forall i :: 0 <= i < ROUNDS ==> InRange(p.rounds[i], n)
  }

  function CanonicalInteger(s: Bytes, n: nat): Result<nat> {
    if s == [] || s[0] == 0 then Failure(EvidenceInvalid)
    else if FromBytes(s) == 0 || FromBytes(s) >= n then Failure(EvidenceInvalid)
    else Success(FromBytes(s))
  }

  function TakeRound(s: Bytes, key: RsaPublicKey): Result<(Round, Bytes)> {
    var c := TakeValue(s, |key.modulus|, EvidenceInvalid);
    var r := TakeValue(c.rest, |key.modulus|, EvidenceInvalid);
    var commitmentOctets :- c.result;
    var responseOctets :- r.result;
    var commitment :- CanonicalInteger(commitmentOctets, key.Modulus());
    var response :- CanonicalInteger(responseOctets, key.Modulus());
    Success((Round(commitment, response), r.rest))
  }

  function TakeRounds(s: Bytes, count: nat, key: RsaPublicKey): Result<(seq<Round>, Bytes)> {
    if count == 0 then Success(([], s))
    else
      var (round, rest) :- TakeRound(s, key);
      var (rounds, end) :- TakeRounds(rest, count - 1, key);
      Success(([round] + rounds, end))
  }

  function ParseProof(s: Bytes, key: RsaPublicKey): Result<Proof> {
    var h := TakeValue(s, MAXIMUM_HEADER_BYTES, EvidenceInvalid);
    var header :- h.result;
    var _ :- Need(Base64.DecodeBounded(header, MAXIMUM_HEADER_BYTES).Success?, EvidenceInvalid);
    var c := TakeInteger(h.rest, 4, EvidenceInvalid);
    var count :- c.result;
    var _ :- Need(count == ROUNDS, EvidenceInvalid);
    var (rounds, end) :- TakeRounds(c.rest, ROUNDS, key);
    var _ :- Need(end == [], EvidenceInvalid);
    Success(Proof(header, rounds))
  }

  lemma CanonicalOf(x: nat, key: RsaPublicKey)
    requires Eligible(key) && 0 < x < key.Modulus()
    ensures CanonicalInteger(Minimal(x), key.Modulus()) == Success(x)
    ensures 0 < |Minimal(x)| <= |key.modulus|
  {
    EligibleSize(key);
    FromMinimal(x);
    MinimalLength(x, key.Modulus());
  }

  lemma TakeRoundOf(round: Round, rest: Bytes, key: RsaPublicKey)
    requires Eligible(key) && InRange(round, key.Modulus())
    ensures TakeRound(EncodeRounds([round]) + rest, key) == Success((round, rest))
  {
    hide Frame64, Minimal, TakeValue, CanonicalInteger;
    var c, r := Minimal(round.commitment), Minimal(round.response);
    CanonicalOf(round.commitment, key);
    CanonicalOf(round.response, key);
    EncodeOneRound(round);
    assert EncodeRounds([round]) + rest == Frame64(c) + (Frame64(r) + rest);
    TakeValueOf(c, Frame64(r) + rest, |key.modulus|, EvidenceInvalid);
    TakeValueOf(r, rest, |key.modulus|, EvidenceInvalid);
  }

  lemma CanonicalInverse(s: Bytes, n: nat)
    ensures var x := CanonicalInteger(s, n); x.Success? ==> 0 < x.value < n && Minimal(x.value) == s
  {
    if s != [] && s[0] != 0 {
      MinimalFrom(s);
    }
  }

  lemma TakeRoundInverse(s: Bytes, key: RsaPublicKey)
    ensures var t := TakeRound(s, key);
            t.Success? ==> InRange(t.value.0, key.Modulus()) && s == EncodeRounds([t.value.0]) + t.value.1
  {
    hide Frame64, Minimal, TakeValue, CanonicalInteger;
    var t := TakeRound(s, key);
    if t.Success? {
      var c := TakeValue(s, |key.modulus|, EvidenceInvalid);
      var r := TakeValue(c.rest, |key.modulus|, EvidenceInvalid);
      TakeValueInverse(s, |key.modulus|, EvidenceInvalid);
      TakeValueInverse(c.rest, |key.modulus|, EvidenceInvalid);
      CanonicalInverse(c.result.value, key.Modulus());
      CanonicalInverse(r.result.value, key.Modulus());
      EncodeOneRound(t.value.0);
      assert s == Frame64(c.result.value) + Frame64(r.result.value) + r.rest;
    }
  }

  lemma EncodeNoRounds()
    ensures EncodeRounds([]) == []
  {
  }

  lemma EncodeOneRound(round: Round)
    ensures EncodeRounds([round]) == Frame64(Minimal(round.commitment)) + Frame64(Minimal(round.response))
  {
    assert [round][1..] == [];
    assert EncodeRounds([]) == [];
  }

  lemma EncodeRoundsSplit(rounds: seq<Round>, rest: Bytes)
    requires rounds != []
    ensures EncodeRounds(rounds) + rest == EncodeRounds([rounds[0]]) + (EncodeRounds(rounds[1..]) + rest)
  {
    hide Frame64, Minimal;
    EncodeOneRound(rounds[0]);
    Regroup(Frame64(Minimal(rounds[0].commitment)), Frame64(Minimal(rounds[0].response)),
            EncodeRounds(rounds[1..]), rest);
  }

  lemma Regroup(a: Bytes, b: Bytes, c: Bytes, d: Bytes)
    ensures (a + (b + c)) + d == (a + b) + (c + d)
  {
  }

  lemma {:induction false} TakeRoundsOf(rounds: seq<Round>, rest: Bytes, key: RsaPublicKey)
    requires Eligible(key) && forall i :: 0 <= i < |rounds| ==> InRange(rounds[i], key.Modulus())
    ensures TakeRounds(EncodeRounds(rounds) + rest, |rounds|, key) == Success((rounds, rest))
  {
    if rounds == [] {
      assert EncodeRounds(rounds) + rest == rest;
    } else {
      EncodeRoundsSplit(rounds, rest);
      TakeRoundOf(rounds[0], EncodeRounds(rounds[1..]) + rest, key);
      TakeRoundsOf(rounds[1..], rest, key);
      assert rounds == [rounds[0]] + rounds[1..];
    }
  }

  lemma {:induction false} TakeRoundsInverse(s: Bytes, count: nat, key: RsaPublicKey)
    ensures var t := TakeRounds(s, count, key);
            t.Success? ==>
              && |t.value.0| == count
              && (forall i :: 0 <= i < count ==> InRange(t.value.0[i], key.Modulus()))
              && s == EncodeRounds(t.value.0) + t.value.1
    decreases count
  {
    hide EncodeRounds, TakeRound;
    var t := TakeRounds(s, count, key);
    if t.Success? {
      if count == 0 {
        EncodeNoRounds();
        assert s == [] + s;
      } else {
        TakeRoundInverse(s, key);
        var head := TakeRound(s, key).value;
        TakeRoundsInverse(head.1, count - 1, key);
        EncodeRoundsSplit(t.value.0, t.value.1);
        assert t.value.0[1..] == TakeRounds(head.1, count - 1, key).value.0;
      }
    }
  }

  /** The evidence format is canonical: an octet string parses to a proof exactly when it is
      the encoding of that proof, so no proof has two encodings and none is a prefix. */
  lemma ParseProofIsCanonical(s: Bytes, key: RsaPublicKey, p: Proof)
    requires Eligible(key)
    ensures ParseProof(s, key) == Success(p) <==> WellFormed(p, key.Modulus()) && EncodeProof(p) == s
  {
    PowerFacts();
    if WellFormed(p, key.Modulus()) && EncodeProof(p) == s {
      assert p.header != [];
      TakeValueOf(p.header, U32(ROUNDS) + EncodeRounds(p.rounds), MAXIMUM_HEADER_BYTES, EvidenceInvalid);
      TakeIntegerOf(ROUNDS, 4, EncodeRounds(p.rounds), EvidenceInvalid);
      assert EncodeRounds(p.rounds) == EncodeRounds(p.rounds) + [];
      TakeRoundsOf(p.rounds, [], key);
    }
    if ParseProof(s, key) == Success(p) {
      var h := TakeValue(s, MAXIMUM_HEADER_BYTES, EvidenceInvalid);
      TakeValueInverse(s, MAXIMUM_HEADER_BYTES, EvidenceInvalid);
      var c := TakeInteger(h.rest, 4, EvidenceInvalid);
      TakeIntegerInverse(h.rest, 4, EvidenceInvalid);
      TakeRoundsInverse(c.rest, ROUNDS, key);
      assert EncodeRounds(p.rounds) + [] == EncodeRounds(p.rounds);
    }
  }

  /** The issuer layer reads the header out of the same evidence on its own (`read_text`):
      it finds the header that the proof binds. */
  lemma IssuerReadsTheBoundHeader(key: RsaPublicKey, p: Proof)
    requires Eligible(key) && WellFormed(p, key.Modulus())
    ensures TakeValue(EncodeProof(p), MAXIMUM_HEADER_BYTES, MalformedInput).result == Success(p.header)
  {
    TakeValueOf(p.header, U32(|p.rounds|) + EncodeRounds(p.rounds), MAXIMUM_HEADER_BYTES, MalformedInput);
  }
}
