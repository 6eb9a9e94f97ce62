/** The Guillou-Quisquater verifier: `verify_gq_rs256` of `src/crypto.cpp`, with what an
    accepted proof means (special soundness) and that honest proofs are accepted. */
module Gq {
  import opened Bytes
  import opened Errors
  import opened Cursor
  import opened NumberTheory
  import opened Preimages
  import opened GqEvidence
  import Base64

  const PROFILE: Bytes := Ascii("gq-rs256-v1")
  const HASH_SUITE: Bytes := Ascii("credbind-sha256-v1")

  function Commitments(rounds: seq<Round>): (c: seq<Bytes>)
    ensures |c| == |rounds|
  {
    seq(|rounds|, i requires 0 <= i < |rounds| => Minimal(rounds[i].commitment))
  }

  function MessageOctets(H: Sha256, header: Bytes, payload: Bytes, key: RsaPublicKey): Bytes
    requires |key.modulus| >= MINIMUM_MESSAGE_BYTES
  {
    EncodedMessage(|key.modulus|, H(SigningInput(header, payload)))
  }

  /** Everything the challenges depend on. */
  function ProofTranscript(H: Sha256, s: Statement, key: RsaPublicKey, header: Bytes, commitments: seq<Bytes>): Preimage
    requires |key.modulus| >= MINIMUM_MESSAGE_BYTES
  {
    Transcript([PROFILE, HASH_SUITE, header, s.payload, s.commitment, s.issuer, key.modulus,
                Minimal(key.exponent), MessageOctets(H, header, s.payload, key)], commitments)
  }

  function TranscriptHash(H: Sha256, s: Statement, key: RsaPublicKey, header: Bytes, commitments: seq<Bytes>): Digest
    requires |key.modulus| >= MINIMUM_MESSAGE_BYTES
  {
    H(Encode(ProofTranscript(H, s, key, header, commitments)))
  }

  // ---- challenges

  /** The top seventeen bits of the digest. */
  function Candidate(H: Sha256, hash: Digest, round: nat, retry: nat): nat {
    var d := H(Encode(Challenge(hash, round, retry)));
    (d[0] as int * 65536 + d[1] as int * 256 + d[2] as int) / 128
  }

  /** The first candidate in range, from `retry` on. */
  function FirstInRange(H: Sha256, hash: Digest, round: nat, retry: nat): (c: Option<nat>)
    requires retry < UINT32_LIMIT
    ensures c.Some? ==> c.value <= MAXIMUM_CHALLENGE
    decreases UINT32_LIMIT - retry
  {
    if Candidate(H, hash, round, retry) <= MAXIMUM_CHALLENGE then Some(Candidate(H, hash, round, retry))
    else if retry == UINT32_LIMIT - 1 then None
    else FirstInRange(H, hash, round, retry + 1)
  }

  const DROPPED_BITS: nat := 239

  /** The digest as a number, without its low 239 bits. */
  function Leading(d: Digest): nat {
    PowerOfTwo(DROPPED_BITS);
    FromBytes(d) / Pow(2, DROPPED_BITS)
  }

  function Drawn(H: Sha256, hash: Digest, round: nat, retry: nat): nat {
    Leading(H(Encode(Challenge(hash, round, retry))))
  }

  /** The challenge of a round is the first number drawn that is at most 65536. */
  ghost predicate IsChallenge(H: Sha256, hash: Digest, round: nat, c: nat) {
    && c <= 65536
    && exists retry: nat ::
         && retry < UINT32_LIMIT && Drawn(H, hash, round, retry) == c
         && forall before: nat :: before < retry ==> Drawn(H, hash, round, before) > 65536
  }

  /** No draw gives one. */
  ghost predicate NoChallenge(H: Sha256, hash: Digest, round: nat) {
    forall retry: nat :: retry < UINT32_LIMIT ==> Drawn(H, hash, round, retry) > 65536
  }

  lemma Distribute(a: int, b: int, n: int)
    ensures (a + b) * n == a * n + b * n
  {
  }

  lemma Bounded(r: int, n: int, limit: int)
    requires 0 <= r < limit && n > 0
    ensures 0 <= r * n <= (limit - 1) * n
  {
  }

  lemma QuotientOfLeading(a: nat, b: nat, unit: nat)
    requires b < unit
    ensures 128 * unit > 0 && (a * unit + b) / (128 * unit) == a / 128
  {
    var q, r := a / 128, a % 128;
    Distribute(q * 128, r, unit);
    Associate(q, 128, unit);
    Bounded(r, unit, 128);
    QuotientIsUnique(a * unit + b, q, r * unit + b, 128 * unit);
  }

  lemma CandidateIsDrawn(H: Sha256, hash: Digest, round: nat, retry: nat)
    ensures Candidate(H, hash, round, retry) == Drawn(H, hash, round, retry)
  {
    hide Encode, Pow, FromBytes, Power256;
    DigestIsDrawn(H(Encode(Challenge(hash, round, retry))));
  }

  lemma DigestIsDrawn(d: Digest)
    ensures Leading(d) == (d[0] as int * 65536 + d[1] as int * 256 + d[2] as int) / 128
  {
    hide Pow, Power256;
    assert d == d[..3] + d[3..];
    FromConcat(d[..3], d[3..]);
    FirstThree(d);
    Power256IsPower(29);
    PowAdd(2, 7, 232);
    SevenBits();
    QuotientOfLeading(FromBytes(d[..3]), FromBytes(d[3..]), Power256(29));
  }

  lemma {:induction false} Power256IsPower(k: nat)
    ensures Power256(k) == Pow(2, 8 * k)
  {
    if k > 0 {
      Power256IsPower(k - 1);
      PowAdd(2, 8, 8 * (k - 1));
      assert Pow(2, 8) == 256;
    }
  }

  lemma SevenBits()
    ensures Pow(2, 7) == 128
  {
  }

  lemma FirstThree(d: Digest)
    ensures FromBytes(d[..3]) == d[0] as int * 65536 + d[1] as int * 256 + d[2] as int
  {
    assert d[..3][..2] == d[..2] && d[..2][..1] == d[..1] && d[..1][..0] == [];
    assert FromBytes([]) == 0 && FromBytes(d[..1]) == d[0] as int;
    assert FromBytes(d[..2]) == d[0] as int * 256 + d[1] as int;
  }

  lemma {:induction false} FirstIsChallenge(H: Sha256, hash: Digest, round: nat, retry: nat)
    requires retry < UINT32_LIMIT
    requires forall before: nat :: before < retry ==> Drawn(H, hash, round, before) > 65536
    ensures var c := FirstInRange(H, hash, round, retry);
            if c.Some? then IsChallenge(H, hash, round, c.value) else NoChallenge(H, hash, round)
    decreases UINT32_LIMIT - retry
  {
    hide Candidate, Drawn;
    CandidateIsDrawn(H, hash, round, retry);
    if Drawn(H, hash, round, retry) > 65536 && retry < UINT32_LIMIT - 1 {
      FirstIsChallenge(H, hash, round, retry + 1);
    }
  }

  /** There is one challenge at most, and the retry loop finds it. */
  lemma ChallengeIsFirst(H: Sha256, hash: Digest, round: nat, c: nat)
    ensures IsChallenge(H, hash, round, c) <==> FirstInRange(H, hash, round, 0) == Some(c)
    ensures NoChallenge(H, hash, round) <==> FirstInRange(H, hash, round, 0) == None
  {
    hide Candidate, Drawn, FirstInRange;
    FirstIsChallenge(H, hash, round, 0);
    var first := FirstInRange(H, hash, round, 0);
    if IsChallenge(H, hash, round, c) {
      var retry: nat :| retry < UINT32_LIMIT && Drawn(H, hash, round, retry) == c
                        && forall before: nat :: before < retry ==> Drawn(H, hash, round, before) > 65536;
      assert !NoChallenge(H, hash, round);
      var other: nat :| other < UINT32_LIMIT && Drawn(H, hash, round, other) == first.value
                        && forall before: nat :: before < other ==> Drawn(H, hash, round, before) > 65536;
      assert retry == other;
    }
  }

  /** `derive_challenge`: the first number drawn that is in range, and a failure when none of 2^32 is. */
  method DeriveChallenge(H: Sha256, hash: Digest, round: nat) returns (r: Result<nat>)
    requires round < UINT32_LIMIT
    ensures r == match FirstInRange(H, hash, round, 0) case Some(c) => Success(c) case None => Failure(EvidenceInvalid)
    ensures forall c: nat :: r == Success(c) <==> IsChallenge(H, hash, round, c)
    ensures r.Failure? <==> NoChallenge(H, hash, round)
    ensures r.Failure? ==> r.kind == EvidenceInvalid
  {
    hide Encode, U32, U64, IsChallenge, NoChallenge;
    ChallengeIsFirst(H, hash, round, 0);
    forall c: nat ensures IsChallenge(H, hash, round, c) <==> FirstInRange(H, hash, round, 0) == Some(c) {
      ChallengeIsFirst(H, hash, round, c);
    }
    var retry := 0;
    while true
      invariant 0 <= retry < UINT32_LIMIT
      invariant FirstInRange(H, hash, round, 0) == FirstInRange(H, hash, round, retry)
      decreases UINT32_LIMIT - retry
    {
      var buffer := new Buffer(CHALLENGE_LABEL);
      buffer.AppendU64(|hash|);
      buffer.data := buffer.data + hash;
      buffer.AppendU32(round);
      buffer.AppendU32(retry);
      ChallengeOctets(hash, round, retry);
      var digest := H(buffer.data);
      var candidate := (digest[0] as int * 65536 + digest[1] as int * 256 + digest[2] as int) / 128;
      if candidate <= MAXIMUM_CHALLENGE {
        return Success(candidate);
      }
      if retry == UINT32_LIMIT - 1 {
        return Failure(EvidenceInvalid);
      }
      retry := retry + 1;
    }
  }

  lemma ChallengeOctets(hash: Bytes, round: nat, retry: nat)
    ensures Encode(Challenge(hash, round, retry))
         == CHALLENGE_LABEL + [0] + U64(|hash|) + hash + U32(round) + U32(retry)
  {
    hide ToBytes;
    FramesOfOne(hash);
  }

  // ---- acceptance

  /** The equation checked for one round: z^e = t * m^c modulo n. */
  predicate RoundHolds(n: nat, e: nat, m: nat, t: nat, c: nat, z: nat)
    requires n > 0
  {
    Pow(z, e) % n == (t * (Pow(m, c) % n)) % n
  }

  predicate RoundAccepted(H: Sha256, hash: Digest, key: RsaPublicKey, m: nat, p: Proof, i: nat)
    requires Eligible(key) && i < |p.rounds|
  {
    EligibleSize(key);
    var c := FirstInRange(H, hash, i, 0);
    c.Some? && RoundHolds(key.Modulus(), key.exponent, m, p.rounds[i].commitment, c.value, p.rounds[i].response)
  }

  predicate ProofAccepted(H: Sha256, s: Statement, key: RsaPublicKey, p: Proof) {
    && Eligible(key)
    && WellFormed(p, key.Modulus())
    && (EligibleSize(key);
        var hash := TranscriptHash(H, s, key, p.header, Commitments(p.rounds));
        var m := FromBytes(MessageOctets(H, p.header, s.payload, key));
        forall i :: 0 <= i < ROUNDS ==> RoundAccepted(H, hash, key, m, p, i))
  }

  ghost predicate Accepted(H: Sha256, s: Statement, key: RsaPublicKey, evidence: Bytes) {
    |evidence| <= MAXIMUM_EVIDENCE_BYTES && exists p :: ProofAccepted(H, s, key, p) && EncodeProof(p) == evidence
  }

  // ---- the verifier

  /** One pass of the round loop: both fields are read before either is judged. */
  method ReadRound(reader: Reader, key: RsaPublicKey) returns (r: Result<Round>)
    requires reader.Valid()
    modifies reader
    ensures reader.Valid()
    ensures match TakeRound(old(reader.Rest()), key)
            case Success(t) => r == Success(t.0) && reader.Rest() == t.1
            case Failure(_) => r == Failure(EvidenceInvalid)
  {
    hide TakeValue;
    var commitment := reader.Value(|key.modulus|, EvidenceInvalid);
    var response := reader.Value(|key.modulus|, EvidenceInvalid);
    if commitment.Failure? || response.Failure? {
      return Failure(EvidenceInvalid);
    }
    var t := CanonicalInteger(commitment.value, key.Modulus());
    var z := CanonicalInteger(response.value, key.Modulus());
    if t.Failure? || z.Failure? {
      return Failure(EvidenceInvalid);
    }
    r := Success(Round(t.value, z.value));
  }

  method ReadRounds(reader: Reader, key: RsaPublicKey) returns (r: Result<seq<Round>>)
    requires reader.Valid()
    modifies reader
    ensures reader.Valid()
    ensures match TakeRounds(old(reader.Rest()), ROUNDS, key)
            case Success(t) => r == Success(t.0) && reader.Rest() == t.1
            case Failure(_) => r == Failure(EvidenceInvalid)
  {
    hide TakeRounds, TakeRound;
    var rounds: seq<Round> := [];
    var index := 0;
    ghost var start := reader.Rest();
    PrependNoRounds(TakeRounds(start, ROUNDS, key));
    while index < ROUNDS
      invariant 0 <= index <= ROUNDS && reader.Valid()
      invariant TakeRounds(start, ROUNDS, key) == PrependRounds(rounds, TakeRounds(reader.Rest(), ROUNDS - index, key))
    {
      TakeRoundsStep(rounds, reader.Rest(), ROUNDS - index, key);
      var round := ReadRound(reader, key);
      if round.Failure? {
        return round.PropagateFailure();
      }
      rounds := rounds + [round.value];
      index := index + 1;
    }
    TakeNoRounds(reader.Rest(), key);
    assert rounds + [] == rounds;
    r := Success(rounds);
  }

  lemma TakeNoRounds(s: Bytes, key: RsaPublicKey)
    ensures TakeRounds(s, 0, key) == Success(([], s))
  {
  }

  function PrependRounds(rounds: seq<Round>, t: Result<(seq<Round>, Bytes)>): Result<(seq<Round>, Bytes)> {
    match t case Success(u) => Success((rounds + u.0, u.1)) case Failure(kind) => Failure(kind)
  }

  lemma PrependNoRounds(t: Result<(seq<Round>, Bytes)>)
    ensures PrependRounds([], t) == t
  {
    if t.Success? {
      assert [] + t.value.0 == t.value.0;
    }
  }

  lemma TakeRoundsStep(rounds: seq<Round>, s: Bytes, count: nat, key: RsaPublicKey)
    requires count > 0
    ensures PrependRounds(rounds, TakeRounds(s, count, key)) ==
      match TakeRound(s, key)
      case Failure(kind) => Failure(kind)
      case Success(t) => PrependRounds(rounds + [t.0], TakeRounds(t.1, count - 1, key))
    ensures TakeRound(s, key).Failure? ==> TakeRound(s, key).kind == EvidenceInvalid
  {
    TakeRoundFailure(s, key);
    hide TakeRound;
    var t := TakeRound(s, key);
    if t.Success? {
      var rest := TakeRounds(t.value.1, count - 1, key);
      if rest.Success? {
        assert (rounds + [t.value.0]) + rest.value.0 == rounds + ([t.value.0] + rest.value.0);
      }
    }
  }

  lemma TakeRoundFailure(s: Bytes, key: RsaPublicKey)
    ensures TakeRound(s, key).Failure? ==> TakeRound(s, key).kind == EvidenceInvalid
  {
    hide FromBytes;
  }

  /** Lines 302 to 336: header, count, rounds and nothing behind them. */
  method ReadProof(evidence: Bytes, key: RsaPublicKey) returns (r: Result<Proof>)
    ensures match ParseProof(evidence, key)
            case Success(p) => r == Success(p)
            case Failure(_) => r == Failure(EvidenceInvalid)
  {
    hide TakeValue, TakeInteger, TakeRounds, Base64.DecodeBounded;
    var reader := new Reader(evidence);
    var header := reader.Value(MAXIMUM_HEADER_BYTES, EvidenceInvalid);
    if header.Failure? {
      return Failure(EvidenceInvalid);
    }
    var decoded := Base64.Decode(header.value, MAXIMUM_HEADER_BYTES);
    if decoded.Failure? {
      return Failure(EvidenceInvalid);
    }
    var count := reader.Integer(4, EvidenceInvalid);
    if count.Failure? || count.value != ROUNDS {
      return Failure(EvidenceInvalid);
    }
    var rounds := ReadRounds(reader, key);
    if rounds.Failure? {
      return Failure(EvidenceInvalid);
    }
    var empty := reader.Empty();
    if !empty {
      return Failure(EvidenceInvalid);
    }
    r := Success(Proof(header.value, rounds.value));
  }

  /** Lines 359 to 367: the octets of the exponent without leading zeros. */
  method ExponentOctets(exponent: nat) returns (octets: Bytes)
    requires exponent < UINT32_LIMIT
    ensures octets == Minimal(exponent)
  {
    octets := [];
    var started := false;
    var shift := 4;
    WordShift(exponent);
    while shift > 0
      invariant 0 <= shift <= 4
      invariant octets == Minimal(ShiftRight(exponent, shift))
      invariant started <==> octets != []
    {
      shift := shift - 1;
      var octet := ShiftRight(exponent, shift) % 256;
      if octet != 0 || started {
        octets := octets + [octet];
        started := true;
      }
    }
  }

  lemma WordShift(word: nat)
    requires word < UINT32_LIMIT
    ensures ShiftRight(word, 4) == 0 && ShiftRight(word, 0) == word
  {
    assert ShiftRight(word, 1) == word / 256;
    assert ShiftRight(word, 2) == word / 256 / 256;
    assert ShiftRight(word, 3) == word / 256 / 256 / 256;
  }

  /** `append_value`, keeping track of the fields appended so far. */
  method AppendField(buffer: Buffer, ghost start: Bytes, ghost fields: seq<Bytes>, value: Bytes)
    returns (ghost extended: seq<Bytes>)
    requires buffer.data == start + Frames(fields) && |value| < UINT64_LIMIT
    modifies buffer
    ensures extended == fields + [value] && buffer.data == start + Frames(extended)
  {
    hide Frame64;
    buffer.AppendValue(value);
    extended := fields + [value];
    FramesAppend(fields, value);
    ConcatAssociative(start, Frames(fields), Frame64(value));
  }

  /** Lines 348 to 373. */
  method TranscriptOctets(s: Statement, key: RsaPublicKey, header: Bytes, em: Bytes, rounds: seq<Round>)
    returns (input: Bytes)
    requires key.exponent < UINT32_LIMIT && |rounds| == ROUNDS
    requires |header| < UINT64_LIMIT && |s.payload| < UINT64_LIMIT && |s.commitment| < UINT64_LIMIT
    requires |s.issuer| < UINT64_LIMIT && |key.modulus| < UINT64_LIMIT && |em| < UINT64_LIMIT
    requires forall i :: 0 <= i < |rounds| ==> |Minimal(rounds[i].commitment)| < UINT64_LIMIT
    requires |Minimal(key.exponent)| < UINT64_LIMIT
    ensures input == Encode(Transcript(
      [PROFILE, HASH_SUITE, header, s.payload, s.commitment, s.issuer, key.modulus, Minimal(key.exponent), em],
      Commitments(rounds)))
  {
    hide Frames, U32, Minimal, Commitments, Encode;
    var buffer := new Buffer(TRANSCRIPT_LABEL);
    ghost var start := buffer.data;
    NoFrames(start);
    ghost var f := AppendField(buffer, start, [], PROFILE);
    f := AppendField(buffer, start, f, HASH_SUITE);
    f := AppendField(buffer, start, f, header);
    f := AppendField(buffer, start, f, s.payload);
    f := AppendField(buffer, start, f, s.commitment);
    f := AppendField(buffer, start, f, s.issuer);
    f := AppendField(buffer, start, f, key.modulus);
    var exponent := ExponentOctets(key.exponent);
    f := AppendField(buffer, start, f, exponent);
    f := AppendField(buffer, start, f, em);
    buffer.AppendU32(ROUNDS);
    ghost var middle := buffer.data;
    NoFrames(middle);
    ghost var c: seq<Bytes> := [];
    var index := 0;
    while index < |rounds|
      invariant 0 <= index <= |rounds|
      invariant c == Commitments(rounds)[..index]
      invariant buffer.data == middle + Frames(c)
    {
      CommitmentAt(rounds, index);
      c := AppendField(buffer, middle, c, Minimal(rounds[index].commitment));
      index := index + 1;
    }
    assert c == Commitments(rounds);
    assert f == [PROFILE, HASH_SUITE, header, s.payload, s.commitment, s.issuer, key.modulus, Minimal(key.exponent),
                 em];
    input := buffer.data;
    Assemble(start, Frames(f), U32(ROUNDS), Frames(c));
    TranscriptEncoding(f, c);
  }

  lemma CommitmentAt(rounds: seq<Round>, index: nat)
    requires index < |rounds|
    ensures Commitments(rounds)[..index + 1] == Commitments(rounds)[..index] + [Minimal(rounds[index].commitment)]
  {
  }

  lemma TranscriptEncoding(parameters: seq<Bytes>, commitments: seq<Bytes>)
    ensures Encode(Transcript(parameters, commitments))
         == TRANSCRIPT_LABEL + [0] + (Frames(parameters) + (U32(|commitments|) + Frames(commitments)))
  {
    hide Frames, U32;
  }

  lemma NoFrames(start: Bytes)
    ensures start == start + Frames([])
  {
  }

  lemma Assemble(a: Bytes, b: Bytes, c: Bytes, d: Bytes)
    ensures a + b + c + d == a + (b + (c + d))
  {
  }

  lemma {:induction false} FramesAppend(fields: seq<Bytes>, field: Bytes)
    ensures Frames(fields + [field]) == Frames(fields) + Frame64(field)
  {
    hide Frame64;
    if fields == [] {
      assert [] + [field] == [field];
      FramesOfOne(field);
    } else {
      FramesAppend(fields[1..], field);
      assert (fields + [field])[1..] == fields[1..] + [field];
      ConcatAssociative(Frame64(fields[0]), Frames(fields[1..]), Frame64(field));
    }
  }

  /** `encoded_message`. */
  method EncodeMessage(size: nat, H: Sha256, signingInput: Bytes) returns (r: Result<Bytes>)
    ensures r == if size < MINIMUM_MESSAGE_BYTES then Failure(EvidenceInvalid)
                 else Success(EncodedMessage(size, H(signingInput)))
  {
    var digest := H(signingInput);
    var digestInfoSize := |DIGEST_INFO_PREFIX| + |digest|;
    if size < digestInfoSize + 11 {
      return Failure(EvidenceInvalid);
    }
    var result: Bytes := [];
    result := result + [0];
    result := result + [1];
    result := result + Filler(size - digestInfoSize - 3);
    result := result + [0];
    result := result + DIGEST_INFO_PREFIX;
    result := result + digest;
    assert result == EncodedMessage(size, digest);
    r := Success(result);
  }

  lemma AcceptedMeansParsed(H: Sha256, s: Statement, key: RsaPublicKey, evidence: Bytes)
    requires |evidence| <= MAXIMUM_EVIDENCE_BYTES && Eligible(key)
    ensures Accepted(H, s, key, evidence)
       <==> ParseProof(evidence, key).Success? && ProofAccepted(H, s, key, ParseProof(evidence, key).value)
  {
    var t := ParseProof(evidence, key);
    if t.Success? {
      ParseProofIsCanonical(evidence, key, t.value);
    }
    forall p | ProofAccepted(H, s, key, p) && EncodeProof(p) == evidence
      ensures t == Success(p)
    {
      ParseProofIsCanonical(evidence, key, p);
    }
  }

  /** Acceptance is declarative: the evidence is the encoding of a well-formed proof whose
      eight round equations hold for the challenges derived from its own transcript. */
  method Verify(H: Sha256, s: Statement, evidence: Bytes, key: RsaPublicKey) returns (r: Result<()>)
    requires |s.payload| < UINT64_LIMIT && |s.commitment| < UINT64_LIMIT && |s.issuer| < UINT64_LIMIT
    ensures r.Success? <==> Accepted(H, s, key, evidence)
    ensures r.Failure? ==>
      r.kind == if |evidence| > MAXIMUM_EVIDENCE_BYTES then ResourceLimit else EvidenceInvalid
  {
    hide EncodeProof, ParseProof, ProofAccepted;
    if |evidence| > MAXIMUM_EVIDENCE_BYTES {
      return Failure(ResourceLimit);
    }
    if !Eligible(key) {
      NotEligible(H, s, key);
      return Failure(EvidenceInvalid);
    }
    AcceptedMeansParsed(H, s, key, evidence);
    var parsed := ReadProof(evidence, key);
    if parsed.Failure? {
      return Failure(EvidenceInvalid);
    }
    ParseProofIsCanonical(evidence, key, parsed.value);
    r := VerifyProof(H, s, key, parsed.value);
  }

  lemma NotEligible(H: Sha256, s: Statement, key: RsaPublicKey)
    requires !Eligible(key)
    ensures forall p :: !ProofAccepted(H, s, key, p)
  {
  }

  /** Lines 338 to 400: message, transcript and round equations. The check that the message
      is below the modulus never fires. */
  method VerifyProof(H: Sha256, s: Statement, key: RsaPublicKey, p: Proof) returns (r: Result<()>)
    requires |s.payload| < UINT64_LIMIT && |s.commitment| < UINT64_LIMIT && |s.issuer| < UINT64_LIMIT
    requires Eligible(key) && WellFormed(p, key.Modulus())
    ensures r == if ProofAccepted(H, s, key, p) then Success(()) else Failure(EvidenceInvalid)
  {
    hide Encode, Minimal, BitLength, EncodedMessage, RoundAccepted, FromBytes;
    EligibleSize(key);
    var em := EncodeMessage(|key.modulus|, H, SigningInput(p.header, s.payload));
    MessageBelowModulus(key, H(SigningInput(p.header, s.payload)));
    if em.Failure? || FromBytes(em.value) >= key.Modulus() {
      assert false;
    }
    CommitmentSizes(key, p);
    var input := TranscriptOctets(s, key, p.header, em.value, p.rounds);
    assert em.value == MessageOctets(H, p.header, s.payload, key);
    assert input == Encode(ProofTranscript(H, s, key, p.header, Commitments(p.rounds)));
    assert H(input) == TranscriptHash(H, s, key, p.header, Commitments(p.rounds));
    r := CheckRounds(H, H(input), key, FromBytes(em.value), p);
  }

  lemma CommitmentSizes(key: RsaPublicKey, p: Proof)
    requires Eligible(key) && WellFormed(p, key.Modulus())
    ensures |Minimal(key.exponent)| < UINT64_LIMIT
    ensures forall i :: 0 <= i < |p.rounds| ==> |Minimal(p.rounds[i].commitment)| < UINT64_LIMIT
  {
    forall i | 0 <= i < |p.rounds|
      ensures |Minimal(p.rounds[i].commitment)| < UINT64_LIMIT
    {
      CanonicalOf(p.rounds[i].commitment, key);
    }
    var octets := ExponentSize(key.exponent);
  }

  lemma ExponentSize(exponent: nat) returns (size: nat)
    requires exponent < UINT32_LIMIT
    ensures size == |Minimal(exponent)| && size <= 4
  {
    PowerFacts();
    size := |Minimal(exponent)|;
    FromMinimal(exponent);
    if size > 4 {
      MinimalLower(exponent);
      PowerMonotonic(4, size - 1);
    }
  }

  lemma {:induction false} MinimalLower(n: nat)
    requires n > 0
    ensures Power256(|Minimal(n)| - 1) <= n
  {
    if n >= 256 {
      MinimalLower(n / 256);
    } else {
      assert Minimal(n / 256) == [];
    }
  }

  /** The loop over the rounds, lines 383 to 399. */
  method CheckRounds(H: Sha256, hash: Digest, key: RsaPublicKey, m: nat, p: Proof) returns (r: Result<()>)
    requires Eligible(key) && |p.rounds| == ROUNDS
    ensures r == if forall i :: 0 <= i < ROUNDS ==> RoundAccepted(H, hash, key, m, p, i)
                 then Success(()) else Failure(EvidenceInvalid)
  {
    hide RoundAccepted;
    var index := 0;
    while index < |p.rounds|
      invariant 0 <= index <= |p.rounds|
      invariant forall i :: 0 <= i < index ==> RoundAccepted(H, hash, key, m, p, i)
    {
      var accepted := CheckRound(H, hash, key, m, p, index);
      if !accepted {
        return Failure(EvidenceInvalid);
      }
      index := index + 1;
    }
    r := Success(());
  }

  method CheckRound(H: Sha256, hash: Digest, key: RsaPublicKey, m: nat, p: Proof, index: nat) returns (ok: bool)
    requires Eligible(key) && index < |p.rounds| == ROUNDS
    ensures ok == RoundAccepted(H, hash, key, m, p, index)
  {
    hide FirstInRange, Pow;
    EligibleSize(key);
    var challenge := DeriveChallenge(H, hash, index);
    if challenge.Failure? {
      return false;
    }
    var left := Pow(p.rounds[index].response, key.exponent) % key.Modulus();
    var messagePower := Pow(m, challenge.value) % key.Modulus();
    var right := (p.rounds[index].commitment * messagePower) % key.Modulus();
    ok := left == right;
  }
}
