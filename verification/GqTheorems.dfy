/** What the GQ verifier's acceptance means: special soundness and completeness. */
module GqTheorems {
  import opened Bytes
  import opened NumberTheory
  import opened GqEvidence
  import opened Gq
  import opened Preimages
  import opened Errors
  import Cursor
  import Base64

  // ---- special soundness

  /** a and b with d * a + 1 == e * b, for 0 < d < e and e prime. */
  function Exponents(d: nat, e: nat): (ab: (nat, nat))
    requires Prime(e) && 0 < d < e
    ensures d * ab.0 + 1 == e * ab.1
  {
    var inverse := PrimeInverse(d, e);
    var q := (d * inverse) / e;
    ExponentIdentity(d, inverse, e, q);
    ((e - 1) * inverse, 1 + (e - 1) * q)
  }

  lemma ExponentIdentity(d: nat, inverse: nat, e: nat, q: nat)
    requires e > 0 && d * inverse == q * e + 1
    ensures d * ((e - 1) * inverse) + 1 == e * (1 + (e - 1) * q)
  {
    calc {
      d * ((e - 1) * inverse) + 1;
      { Associate(d, e - 1, inverse); Associate(e - 1, d, inverse); }
      (e - 1) * (d * inverse) + 1;
      (e - 1) * (q * e + 1) + 1;
      { Associate(e - 1, q, e); }
      (e - 1) * q * e + e;
      e * (1 + (e - 1) * q);
    }
  }

  /** The e-th root computed from two responses and the inverse of the first. */
  function Root(n: nat, e: nat, m: nat, inverse: nat, z: nat, d: nat): nat
    requires n > 0 && Prime(e) && 0 < d < e
  {
    var (a, b) := Exponents(d, e);
    (Pow(z * inverse, a) * Pow(m, b)) % n
  }

  lemma RoundCongruent(n: nat, e: nat, m: nat, t: nat, c: nat, z: nat)
    requires n > 0
    ensures RoundHolds(n, e, m, t, c, z) <==> Congruent(Pow(z, e), t * Pow(m, c), n)
  {
    CongruentModulo(Pow(m, c), n);
    CongruentRefl(t, n);
    CongruentProduct(t, t, Pow(m, c) % n, Pow(m, c), n);
    CongruentResidues(t * (Pow(m, c) % n), t * Pow(m, c), n);
    CongruentResidues(Pow(z, e), t * Pow(m, c), n);
  }

  /** Dividing the two equations: (z2 / z1)^e * m^d = 1. */
  lemma QuotientOfRounds(n: nat, e: nat, m: nat, t: nat, c1: nat, z1: nat, c2: nat, z2: nat, inverse: nat)
    requires n > 0 && c2 < c1
    requires RoundHolds(n, e, m, t, c1, z1) && RoundHolds(n, e, m, t, c2, z2)
    requires Inverse(z1, inverse, n)
    ensures Congruent(Pow(z2 * inverse, e) * Pow(m, c1 - c2), 1, n)
  {
    var d := c1 - c2;
    var left, right := Pow(z2, e), t * Pow(m, c2);
    RoundCongruent(n, e, m, t, c1, z1);
    RoundCongruent(n, e, m, t, c2, z2);
    PowAdd(m, c2, d);
    Associate(t, Pow(m, c2), Pow(m, d));
    CongruentRefl(Pow(m, d), n);
    CongruentProduct(left, right, Pow(m, d), Pow(m, d), n);
    CongruentSymmetric(Pow(z1, e), t * Pow(m, c1), n);
    CongruentTransitive(left * Pow(m, d), t * Pow(m, c1), Pow(z1, e), n);
    InversePower(z1, inverse, e, n);
    CongruentRefl(Pow(inverse, e), n);
    CongruentProduct(left * Pow(m, d), Pow(z1, e), Pow(inverse, e), Pow(inverse, e), n);
    CongruentTransitive(left * Pow(m, d) * Pow(inverse, e), Pow(z1, e) * Pow(inverse, e), 1, n);
    PowProduct(z2, inverse, e);
    Associate(left, Pow(m, d), Pow(inverse, e));
    Associate(left, Pow(inverse, e), Pow(m, d));
  }

  /** Two accepted responses to different challenges reveal the signature: the root is
      computed from the responses, the exponents and the inverse of the response to the
      larger challenge. Primality of the exponent and the challenge bound carry the proof. */
  lemma TwoResponsesGiveRoot(n: nat, e: nat, m: nat, t: nat, c1: nat, z1: nat, c2: nat, z2: nat, inverse: nat)
    requires n > 0 && Prime(e) && c2 < c1 < c2 + e
    requires RoundHolds(n, e, m, t, c1, z1) && RoundHolds(n, e, m, t, c2, z2)
    requires Inverse(z1, inverse, n)
    ensures Pow(Root(n, e, m, inverse, z2, c1 - c2), e) % n == m % n
  {
    var d := c1 - c2;
    var w := z2 * inverse;
    var (a, b) := Exponents(d, e);
    QuotientOfRounds(n, e, m, t, c1, z1, c2, z2, inverse);
    CongruentPower(Pow(w, e) * Pow(m, d), 1, a, n);
    PowOne(a);
    CongruentRefl(m, n);
    CongruentProduct(Pow(Pow(w, e) * Pow(m, d), a), 1, m, m, n);
    PowersCollect(w, m, d, e, a, b);
    var x := Pow(w, a) * Pow(m, b);
    assert Congruent(Pow(x, e), m, n);
    CongruentModulo(x, n);
    CongruentPower(x % n, x, e, n);
    CongruentTransitive(Pow(x % n, e), Pow(x, e), m, n);
    CongruentResidues(Pow(x % n, e), m, n);
  }

  lemma PowersCollect(w: int, m: int, d: nat, e: nat, a: nat, b: nat)
    requires d * a + 1 == e * b
    ensures Pow(Pow(w, e) * Pow(m, d), a) * m == Pow(Pow(w, a) * Pow(m, b), e)
  {
    hide Pow;
    var left, right := Pow(w, e * a), Pow(m, d * a);
    PowProduct(Pow(w, e), Pow(m, d), a);
    PowMul(w, e, a);
    PowMul(m, d, a);
    assert Pow(Pow(w, e) * Pow(m, d), a) == left * right;
    PowNext(m, d * a);
    Associate(left, right, m);
    assert left * right * m == left * Pow(m, e * b);
    Commute(e, a);
    Commute(e, b);
    PowMul(w, a, e);
    PowMul(m, b, e);
    PowProduct(Pow(w, a), Pow(m, b), e);
  }

  lemma Commute(a: int, b: int)
    ensures a * b == b * a
  {
  }

  lemma PowNext(m: int, k: nat)
    ensures Pow(m, k + 1) == Pow(m, k) * m
  {
  }

  /** A unit response to a positive challenge makes every other response a unit, so in the
      theorem above either response may be the invertible one unless its challenge is 0. */
  lemma PositiveChallengeSuffices(n: nat, e: nat, m: nat, t: nat, c1: nat, z1: nat, c2: nat, z2: nat)
    requires n > 0 && e > 0 && c2 > 0
    requires RoundHolds(n, e, m, t, c1, z1) && RoundHolds(n, e, m, t, c2, z2)
    requires Unit(z2, n)
    ensures Unit(z1, n)
  {
    RoundCongruent(n, e, m, t, c1, z1);
    RoundCongruent(n, e, m, t, c2, z2);
    UnitPower(z2, e, n);
    UnitCongruent(Pow(z2, e), t * Pow(m, c2), n);
    UnitFactor(t, Pow(m, c2), n);
    assert t * Pow(m, c2) == m * (Pow(m, c2 - 1) * t) by {
      Associate(m, Pow(m, c2 - 1), t);
    }
    UnitFactor(m, Pow(m, c2 - 1) * t, n);
    UnitPower(m, c1, n);
    UnitProduct(t, Pow(m, c1), n);
    CongruentSymmetric(Pow(z1, e), t * Pow(m, c1), n);
    UnitCongruent(t * Pow(m, c1), Pow(z1, e), n);
    UnitFactor(z1, Pow(z1, e - 1), n);
  }

  lemma UnitPower(a: int, e: nat, n: nat)
    requires Unit(a, n)
    ensures Unit(Pow(a, e), n)
  {
    var inverse: int :| Inverse(a, inverse, n);
    InversePower(a, inverse, e, n);
  }

  lemma UnitProduct(a: int, b: int, n: nat)
    requires Unit(a, n) && Unit(b, n)
    ensures Unit(a * b, n)
  {
    var x: int :| Inverse(a, x, n);
    var y: int :| Inverse(b, y, n);
    CongruentProduct(a * x, 1, b * y, 1, n);
    Interchange(a, b, x, y);
    assert Inverse(a * b, x * y, n);
  }

  /** Any unit response to a challenge other than 0 gives the root: it makes the response to the larger challenge
      invertible, and the root is computed from its inverse. */
  lemma UnitResponseGivesRoot(n: nat, e: nat, m: nat, t: nat, c1: nat, z1: nat, c2: nat, z2: nat)
    requires n > 0 && Prime(e) && c2 < c1 < c2 + e
    requires RoundHolds(n, e, m, t, c1, z1) && RoundHolds(n, e, m, t, c2, z2)
    requires Unit(z1, n) || (Unit(z2, n) && c2 > 0)
    ensures exists inverse: nat ::
              Inverse(z1, inverse, n) && Pow(Root(n, e, m, inverse, z2, c1 - c2), e) % n == m % n
  {
    hide Pow, RoundHolds;
    if !Unit(z1, n) {
      PositiveChallengeSuffices(n, e, m, t, c1, z1, c2, z2);
    }
    var x: int :| Inverse(z1, x, n);
    var inverse: nat := x % n;
    CongruentModulo(x, n);
    CongruentRefl(z1, n);
    CongruentProduct(z1, z1, inverse, x, n);
    CongruentTransitive(z1 * inverse, z1 * x, 1, n);
    assert Inverse(z1, inverse, n);
    TwoResponsesGiveRoot(n, e, m, t, c1, z1, c2, z2, inverse);
  }

  /** The exception is real: with challenge 0 on the unit side the message need not have a root at all. A power of two
      as the modulus and a message with one factor of two, with commitment 1 and responses 1 and 2. */
  lemma ZeroChallengeIsNotEnough(k: nat, e: nat, m: nat)
    requires 2 <= k <= e && m % 4 == 2
    ensures Pow(2, k) > 1 && Unit(1, Pow(2, k))
    ensures RoundHolds(Pow(2, k), e, m, 1, 0, 1) && RoundHolds(Pow(2, k), e, m, 1, k, 2)
    ensures forall s: nat :: Pow(s, e) % Pow(2, k) != m % Pow(2, k)
  {
    var n := Pow(2, k);
    PowerOfTwo(k);
    ResponsesOneAndTwo(k, e, m);
    CongruentRefl(1, n);
    assert Inverse(1, 1, n);
    forall s: nat ensures Pow(s, e) % n != m % n {
      hide Pow;
      if Pow(s, e) % n == m % n {
        PowAdd(2, 2, k - 2);
        Square(2);
        CongruentResidues(Pow(s, e), m, n);
        CongruentFactor(Pow(s, e), m, 4, Pow(2, k - 2));
        CongruentResidues(Pow(s, e), m, 4);
        NoSingleTwo(s, e);
      }
    }
  }

  lemma Square(a: int)
    ensures Pow(a, 2) == a * a
  {
    assert Pow(a, 1) == a;
  }

  lemma CongruentFactor(a: int, b: int, n: nat, f: nat)
    requires Congruent(a, b, n * f)
    ensures Congruent(a, b, n)
  {
    var k: int :| a == b + k * (n * f);
    assert a == b + (k * f) * n by {
      Associate(k, f, n);
      Commute(n, f);
    }
  }

  /** 1^e = 1 * m^0, and 2^k divides both 2^e and m^k. */
  lemma ResponsesOneAndTwo(k: nat, e: nat, m: nat)
    requires 2 <= k <= e && m % 4 == 2
    ensures Pow(2, k) >= 2
    ensures RoundHolds(Pow(2, k), e, m, 1, 0, 1) && RoundHolds(Pow(2, k), e, m, 1, k, 2)
  {
    var n := Pow(2, k);
    PowerOfTwo(k);
    PowOne(e);
    assert Pow(m, 0) == 1;
    CongruentRefl(1, n);
    RoundCongruent(n, e, m, 1, 0, 1);
    hide Pow;
    PowAdd(2, k, e - k);
    PowProduct(2, m / 2, k);
    assert m == 2 * (m / 2);
    Multiple(n, Pow(2, e - k));
    Multiple(n, Pow(m / 2, k));
    CongruentSymmetric(Pow(m, k), 0, n);
    CongruentTransitive(Pow(2, e), 0, Pow(m, k), n);
    RoundCongruent(n, e, m, 1, k, 2);
  }

  lemma Multiple(n: nat, f: int)
    ensures Congruent(n * f, 0, n)
  {
    Commute(n, f);
    assert n * f == 0 + f * n;
  }

  /** No power from the square on leaves the residue 2 modulo 4. */
  lemma NoSingleTwo(s: nat, e: nat)
    requires e >= 2
    ensures Pow(s, e) % 4 != 2
  {
    hide Pow;
    if s % 2 == 0 {
      PowAdd(s, 2, e - 2);
      Square(s);
      EvenSquare(s / 2, Pow(s, e - 2));
    } else {
      OddPower(s, e);
    }
  }

  lemma EvenSquare(h: nat, rest: nat)
    ensures ((2 * h) * (2 * h) * rest) % 4 == 0
  {
    Interchange(2, h, 2, h);
    Associate(4, h * h, rest);
  }

  lemma {:induction false} OddPower(s: nat, e: nat)
    requires s % 2 == 1
    ensures Pow(s, e) % 2 == 1
  {
    if e > 0 {
      OddPower(s, e - 1);
      OddProduct(s, Pow(s, e - 1));
    }
  }

  lemma OddProduct(a: int, b: int)
    requires a % 2 == 1 && b % 2 == 1
    ensures (a * b) % 2 == 1
  {
    var x, y := a / 2, b / 2;
    assert a * b == 2 * (2 * x * y + x + y) + 1;
  }

  // ---- whole proofs

  /** The padded message whose e-th root is the RS256 signature. */
  function Message(H: Sha256, s: Statement, key: RsaPublicKey, header: Bytes): nat
    requires Eligible(key)
  {
    EligibleSize(key);
    FromBytes(MessageOctets(H, header, s.payload, key))
  }

  function ChallengeOf(H: Sha256, s: Statement, key: RsaPublicKey, header: Bytes, commitments: seq<Bytes>, i: nat)
    : Option<nat>
    requires Eligible(key)
  {
    EligibleSize(key);
    FirstInRange(H, TranscriptHash(H, s, key, header, commitments), i, 0)
  }

  function RecoveredSignature(key: RsaPublicKey, m: nat, inverse: nat, z: nat, d: nat): nat
    requires Eligible(key) && 0 < d <= MAXIMUM_CHALLENGE
  {
    ExponentIsPrime();
    EligibleSize(key);
    Root(key.Modulus(), key.exponent, m, inverse, z, d)
  }

  /** The forking argument on whole proofs: two accepted proofs for one message that share
      the commitment of round i but not its challenge reveal the RS256 signature. The hash
      function may differ between them, as long as the message is the same. */
  lemma ForkedProofsRevealSignature(H1: Sha256, H2: Sha256, s: Statement, key: RsaPublicKey,
                                    p1: Proof, p2: Proof, i: nat, c1: nat, c2: nat, inverse: nat)
    requires ProofAccepted(H1, s, key, p1) && ProofAccepted(H2, s, key, p2) && i < ROUNDS
    requires Message(H1, s, key, p1.header) == Message(H2, s, key, p2.header)
    requires p1.rounds[i].commitment == p2.rounds[i].commitment
    requires ChallengeOf(H1, s, key, p1.header, Commitments(p1.rounds), i) == Some(c1)
    requires ChallengeOf(H2, s, key, p2.header, Commitments(p2.rounds), i) == Some(c2)
    requires c2 < c1
    requires Inverse(p1.rounds[i].response, inverse, key.Modulus())
    ensures c1 - c2 <= MAXIMUM_CHALLENGE
    ensures var m := Message(H1, s, key, p1.header);
            Pow(RecoveredSignature(key, m, inverse, p2.rounds[i].response, c1 - c2), key.exponent)
              % key.Modulus() == m
  {
    hide FirstInRange, TranscriptHash, Pow, EncodedMessage, Exponents;
    ExponentIsPrime();
    EligibleSize(key);
    var m := Message(H1, s, key, p1.header);
    var hash1 := TranscriptHash(H1, s, key, p1.header, Commitments(p1.rounds));
    var hash2 := TranscriptHash(H2, s, key, p2.header, Commitments(p2.rounds));
    assert RoundAccepted(H1, hash1, key, m, p1, i) && RoundAccepted(H2, hash2, key, m, p2, i);
    TwoResponsesGiveRoot(key.Modulus(), key.exponent, m, p1.rounds[i].commitment,
                         c1, p1.rounds[i].response, c2, p2.rounds[i].response, inverse);
    MessageBelowModulus(key, H1(SigningInput(p1.header, s.payload)));
    Cursor.SmallModulo(m, key.Modulus());
  }

  /** The same from any unit response whose challenge is not 0: the RS256 signature exists, and is computed. */
  lemma ForkedProofsHaveSignature(H1: Sha256, H2: Sha256, s: Statement, key: RsaPublicKey,
                                  p1: Proof, p2: Proof, i: nat, c1: nat, c2: nat)
    requires ProofAccepted(H1, s, key, p1) && ProofAccepted(H2, s, key, p2) && i < ROUNDS
    requires Message(H1, s, key, p1.header) == Message(H2, s, key, p2.header)
    requires p1.rounds[i].commitment == p2.rounds[i].commitment
    requires ChallengeOf(H1, s, key, p1.header, Commitments(p1.rounds), i) == Some(c1)
    requires ChallengeOf(H2, s, key, p2.header, Commitments(p2.rounds), i) == Some(c2)
    requires c2 < c1
    requires Unit(p1.rounds[i].response, key.Modulus()) || (Unit(p2.rounds[i].response, key.Modulus()) && c2 > 0)
    ensures c1 - c2 <= MAXIMUM_CHALLENGE && key.Modulus() > 0
    ensures var m := Message(H1, s, key, p1.header);
            exists inverse: nat ::
              && Inverse(p1.rounds[i].response, inverse, key.Modulus())
              && Pow(RecoveredSignature(key, m, inverse, p2.rounds[i].response, c1 - c2), key.exponent)
                 % key.Modulus() == m
  {
    hide FirstInRange, TranscriptHash, Pow, EncodedMessage, Exponents, Message, Root;
    ExponentIsPrime();
    EligibleSize(key);
    MessageSmall(H1, s, key, p1.header);
    AcceptedRoundHolds(H1, s, key, p1, i, c1);
    AcceptedRoundHolds(H2, s, key, p2, i, c2);
    UnitResponseGivesRoot(key.Modulus(), key.exponent, Message(H1, s, key, p1.header), p1.rounds[i].commitment,
                          c1, p1.rounds[i].response, c2, p2.rounds[i].response);
  }

  lemma AcceptedRoundHolds(H: Sha256, s: Statement, key: RsaPublicKey, p: Proof, i: nat, c: nat)
    requires ProofAccepted(H, s, key, p) && i < ROUNDS
    requires ChallengeOf(H, s, key, p.header, Commitments(p.rounds), i) == Some(c)
    ensures key.Modulus() > 0 && c <= MAXIMUM_CHALLENGE
    ensures RoundHolds(key.Modulus(), key.exponent, Message(H, s, key, p.header), p.rounds[i].commitment, c,
                       p.rounds[i].response)
  {
    hide FirstInRange, TranscriptHash, Pow, EncodedMessage, RoundHolds;
    EligibleSize(key);
    var hash := TranscriptHash(H, s, key, p.header, Commitments(p.rounds));
    assert RoundAccepted(H, hash, key, Message(H, s, key, p.header), p, i);
  }

  // ---- what acceptance means

  /** The padded digest of section 9.2 of RFC 8017, octet by octet. */
  function PaddedDigest(size: nat, digest: Digest): Bytes
    requires size >= MINIMUM_MESSAGE_BYTES
  {
    [0, 1] + seq(size - 54, _ => 0xff) + [0] + DIGEST_INFO_PREFIX + digest
  }

  /** Round `i` of a proof: for the challenge drawn from the transcript, z^e and t * m^c leave the same residue. */
  ghost predicate RoundProves(H: Sha256, hash: Digest, n: nat, e: nat, m: nat, round: Round, i: nat) {
    exists c: nat :: IsChallenge(H, hash, i, c) && Congruent(Pow(round.response, e), round.commitment * Pow(m, c), n)
  }

  /** Eight rounds, each at the challenge that the hash of header, payload, caller commitment, issuer, key, message
      and all commitments gives it, for the padded digest of what the issuer signed. */
  ghost predicate Proves(H: Sha256, s: Statement, key: RsaPublicKey, p: Proof) {
    && Eligible(key) && |key.modulus| >= MINIMUM_MESSAGE_BYTES && WellFormed(p, key.Modulus())
    && var em := PaddedDigest(|key.modulus|, H(p.header + [46] + s.payload));
       var parameters := [Ascii("gq-rs256-v1"), Ascii("credbind-sha256-v1"), p.header, s.payload, s.commitment,
                          s.issuer, key.modulus, Minimal(65537), em];
       var commitments := seq(8, i requires 0 <= i < 8 => Minimal(p.rounds[i].commitment));
       var hash := H(Encode(Transcript(parameters, commitments)));
       forall i :: 0 <= i < 8 ==> RoundProves(H, hash, key.Modulus(), 65537, FromBytes(em), p.rounds[i], i)
  }

  lemma RoundAcceptedExactly(H: Sha256, hash: Digest, key: RsaPublicKey, m: nat, p: Proof, i: nat)
    requires Eligible(key) && i < |p.rounds|
    ensures RoundAccepted(H, hash, key, m, p, i) <==>
              RoundProves(H, hash, key.Modulus(), key.exponent, m, p.rounds[i], i)
  {
    hide FirstInRange, Pow, IsChallenge, Congruent, RoundHolds;
    EligibleSize(key);
    var first := FirstInRange(H, hash, i, 0);
    forall c: nat
      ensures IsChallenge(H, hash, i, c) <==> first == Some(c)
    {
      ChallengeIsFirst(H, hash, i, c);
    }
    if first.Some? {
      RoundCongruent(key.Modulus(), key.exponent, m, p.rounds[i].commitment, first.value, p.rounds[i].response);
    }
  }

  /** A proof is accepted if and only if it proves what it should. */
  lemma AcceptedExactly(H: Sha256, s: Statement, key: RsaPublicKey, p: Proof)
    ensures ProofAccepted(H, s, key, p) <==> Proves(H, s, key, p)
  {
    hide RoundAccepted, RoundProves, Encode, FromBytes, Minimal, BitLength;
    if Eligible(key) && WellFormed(p, key.Modulus()) {
      EligibleSize(key);
      var em := MessageOctets(H, p.header, s.payload, key);
      assert em == PaddedDigest(|key.modulus|, H(p.header + [46] + s.payload));
      var commitments := seq(8, i requires 0 <= i < 8 => Minimal(p.rounds[i].commitment));
      assert Commitments(p.rounds) == commitments;
      var hash := TranscriptHash(H, s, key, p.header, Commitments(p.rounds));
      forall i | 0 <= i < 8
        ensures RoundAccepted(H, hash, key, FromBytes(em), p, i) <==>
                  RoundProves(H, hash, key.Modulus(), key.exponent, FromBytes(em), p.rounds[i], i)
      {
        RoundAcceptedExactly(H, hash, key, FromBytes(em), p, i);
      }
    }
  }

  // ---- an eligible key without signatures

  /** The modulus is a power of two. */
  function EvenKey(zeros: nat): RsaPublicKey {
    RsaPublicKey([128] + seq(zeros, _ => 0), EXPONENT)
  }

  lemma {:induction false} EvenModulus(zeros: nat)
    ensures EvenKey(zeros).Modulus() == Pow(2, 7 + 8 * zeros)
  {
    var octets := EvenKey(zeros).modulus;
    assert octets[..|octets| - 1] == if zeros == 0 then [] else EvenKey(zeros - 1).modulus;
    if zeros == 0 {
      assert FromBytes([]) == 0 && FromBytes(octets) == 128;
      assert Pow(2, 7) == 128;
    } else {
      EvenModulus(zeros - 1);
      assert FromBytes(octets) == FromBytes(EvenKey(zeros - 1).modulus) * 256;
      assert Pow(2, 8) == 256;
      PowAdd(2, 7 + 8 * (zeros - 1), 8);
    }
  }

  lemma {:induction false} PowerBits(k: nat)
    ensures Pow(2, k) >= 1 && BitLength(Pow(2, k)) == k + 1
  {
    if k > 0 {
      PowerBits(k - 1);
      assert Pow(2, k) / 2 == Pow(2, k - 1);
    } else {
      assert BitLength(0) == 0 && BitLength(1) == 1;
    }
  }

  lemma EvenKeyIsEligible(zeros: nat)
    requires 255 <= zeros < MAXIMUM_INTEGER_BYTES
    ensures Eligible(EvenKey(zeros))
  {
    hide Pow, BitLength;
    EvenModulus(zeros);
    PowerBits(7 + 8 * zeros);
  }

  /** The message ends in the digest. */
  lemma MessageResidue(H: Sha256, s: Statement, key: RsaPublicKey, header: Bytes)
    requires Eligible(key)
    ensures Message(H, s, key, header) % 4 == (H(SigningInput(header, s.payload))[31] as int) % 4
  {
    hide SigningInput;
    EligibleSize(key);
    var em, digest := MessageOctets(H, header, s.payload, key), H(SigningInput(header, s.payload));
    assert em[|em| - 1] == digest[31];
    assert FromBytes(em) == FromBytes(em[..|em| - 1]) * 256 + em[|em| - 1] as int;
  }

  /** There are keys the verifier admits for which an accepted unit response to challenge 0, beside another accepted
      response, gives no root: a quarter of the messages have no signature at all. */
  lemma EligibleKeyWithoutSignatures(H: Sha256, s: Statement, header: Bytes, zeros: nat)
    requires 255 <= zeros <= 8191
    requires H(SigningInput(header, s.payload))[31] as int % 4 == 2
    ensures Eligible(EvenKey(zeros)) && 7 + 8 * zeros <= MAXIMUM_CHALLENGE
    ensures var key := EvenKey(zeros);
            var n, m := key.Modulus(), Message(H, s, key, header);
            && InRange(Round(1, 1), n) && InRange(Round(1, 2), n) && Unit(1, n)
            && RoundHolds(n, key.exponent, m, 1, 0, 1) && RoundHolds(n, key.exponent, m, 1, 7 + 8 * zeros, 2)
            && forall signature: nat :: Pow(signature, key.exponent) % n != m
  {
    hide Pow, Message, MessageOctets, SigningInput, BitLength;
    var key := EvenKey(zeros);
    EvenKeyIsEligible(zeros);
    EvenModulus(zeros);
    PowAdd(2, 2, 5 + 8 * zeros);
    PowerOfTwo(5 + 8 * zeros);
    Square(2);
    MessageResidue(H, s, key, header);
    MessageSmall(H, s, key, header);
    ZeroChallengeIsNotEnough(7 + 8 * zeros, key.exponent, Message(H, s, key, header));
  }

  // ---- completeness

  function HonestCommitment(key: RsaPublicKey, nonce: nat): nat
    requires Eligible(key)
  {
    EligibleSize(key);
    Pow(nonce, key.exponent) % key.Modulus()
  }

  function HonestCommitments(key: RsaPublicKey, nonces: seq<nat>): (c: seq<Bytes>)
    requires Eligible(key)
    ensures |c| == |nonces|
  {
    seq(|nonces|, i requires 0 <= i < |nonces| => Minimal(HonestCommitment(key, nonces[i])))
  }

  /** What a holder of the signature answers, if every challenge can be derived. */
  function HonestRound(H: Sha256, s: Statement, key: RsaPublicKey, header: Bytes, signature: nat,
                       nonces: seq<nat>, i: nat): Round
    requires Eligible(key) && i < |nonces|
  {
    EligibleSize(key);
    var c := ChallengeOf(H, s, key, header, HonestCommitments(key, nonces), i);
    Round(HonestCommitment(key, nonces[i]),
          (nonces[i] * Pow(signature, if c.Some? then c.value else 0)) % key.Modulus())
  }

  function HonestProof(H: Sha256, s: Statement, key: RsaPublicKey, header: Bytes, signature: nat,
                       nonces: seq<nat>): Proof
    requires Eligible(key)
  {
    Proof(header, seq(|nonces|, i requires 0 <= i < |nonces| =>
      HonestRound(H, s, key, header, signature, nonces, i)))
  }

  /** z^e = (r * x^c)^e = r^e * (x^e)^c. */
  lemma HonestRoundHolds(n: nat, e: nat, m: nat, x: nat, r: nat, c: nat)
    requires n > 0 && Pow(x, e) % n == m % n
    ensures RoundHolds(n, e, m, Pow(r, e) % n, c, (r * Pow(x, c)) % n)
  {
    hide Pow;
    var t, z := Pow(r, e) % n, (r * Pow(x, c)) % n;
    CongruentModulo(r * Pow(x, c), n);
    CongruentPower(z, r * Pow(x, c), e, n);
    PowProduct(r, Pow(x, c), e);
    PowMul(x, c, e);
    Commute(c, e);
    PowMul(x, e, c);
    CongruentResidues(Pow(x, e), m, n);
    CongruentPower(Pow(x, e), m, c, n);
    CongruentModulo(Pow(r, e), n);
    CongruentSymmetric(t, Pow(r, e), n);
    CongruentProduct(Pow(r, e), t, Pow(Pow(x, e), c), Pow(m, c), n);
    CongruentTransitive(Pow(z, e), Pow(r, e) * Pow(Pow(x, e), c), t * Pow(m, c), n);
    RoundCongruent(n, e, m, t, c, z);
  }

  lemma UnitNotZero(a: int, n: nat)
    requires n > 1 && Unit(a, n)
    ensures a % n != 0
  {
    if a % n == 0 {
      var inverse: int :| Inverse(a, inverse, n);
      CongruentResidues(a, 0, n);
      CongruentRefl(inverse, n);
      CongruentProduct(a, 0, inverse, inverse, n);
      CongruentResidues(a * inverse, 0 * inverse, n);
      CongruentResidues(a * inverse, 1, n);
    }
  }

  lemma HonestRoundAccepted(H: Sha256, s: Statement, key: RsaPublicKey, header: Bytes, signature: nat,
                            nonces: seq<nat>, i: nat)
    requires Eligible(key) && i < |nonces|
    requires Pow(signature, key.exponent) % key.Modulus() == Message(H, s, key, header)
    requires key.Modulus() > 0 && Unit(signature, key.Modulus()) && Unit(nonces[i], key.Modulus())
    requires ChallengeOf(H, s, key, header, HonestCommitments(key, nonces), i).Some?
    ensures var round := HonestRound(H, s, key, header, signature, nonces, i);
            && InRange(round, key.Modulus())
            && RoundHolds(key.Modulus(), key.exponent, Message(H, s, key, header), round.commitment,
                          ChallengeOf(H, s, key, header, HonestCommitments(key, nonces), i).value, round.response)
  {
    hide Pow, ChallengeOf, Message;
    EligibleSize(key);
    var n, e, m := key.Modulus(), key.exponent, Message(H, s, key, header);
    var c := ChallengeOf(H, s, key, header, HonestCommitments(key, nonces), i).value;
    MessageSmall(H, s, key, header);
    HonestRoundHolds(n, e, m, signature, nonces[i], c);
    UnitPower(nonces[i], e, n);
    UnitNotZero(Pow(nonces[i], e), n);
    UnitPower(signature, c, n);
    UnitProduct(nonces[i], Pow(signature, c), n);
    UnitNotZero(nonces[i] * Pow(signature, c), n);
  }

  lemma MessageSmall(H: Sha256, s: Statement, key: RsaPublicKey, header: Bytes)
    requires Eligible(key)
    ensures key.Modulus() > 0
    ensures Message(H, s, key, header) < key.Modulus()
    ensures Message(H, s, key, header) % key.Modulus() == Message(H, s, key, header)
  {
    EligibleSize(key);
    MessageBelowModulus(key, H(SigningInput(header, s.payload)));
    Cursor.SmallModulo(Message(H, s, key, header), key.Modulus());
  }

  /** Completeness: whoever holds the signature and eight unit nonces is accepted, for every
      eligible key and every hash function, as soon as the evidence fits the protocol bound. */
  lemma HonestProofAccepted(H: Sha256, s: Statement, key: RsaPublicKey, header: Bytes, signature: nat,
                            nonces: seq<nat>)
    requires Eligible(key) && key.Modulus() > 0 && |nonces| == ROUNDS
    requires |header| <= MAXIMUM_HEADER_BYTES && Base64.DecodeBounded(header, MAXIMUM_HEADER_BYTES).Success?
    requires Pow(signature, key.exponent) % key.Modulus() == Message(H, s, key, header)
    requires Unit(signature, key.Modulus())
    requires forall i :: 0 <= i < ROUNDS ==> Unit(nonces[i], key.Modulus())
    requires forall i :: 0 <= i < ROUNDS ==>
      ChallengeOf(H, s, key, header, HonestCommitments(key, nonces), i).Some?
    ensures ProofAccepted(H, s, key, HonestProof(H, s, key, header, signature, nonces))
    ensures var evidence := EncodeProof(HonestProof(H, s, key, header, signature, nonces));
            |evidence| <= MAXIMUM_EVIDENCE_BYTES ==> Accepted(H, s, key, evidence)
  {
    hide Pow, FirstInRange, TranscriptHash, HonestRound, EncodeProof;
    EligibleSize(key);
    var p := HonestProof(H, s, key, header, signature, nonces);
    forall i | 0 <= i < ROUNDS
      ensures p.rounds[i].commitment == HonestCommitment(key, nonces[i])
    {
      HonestRoundCommitment(H, s, key, header, signature, nonces, i);
    }
    assert Commitments(p.rounds) == HonestCommitments(key, nonces);
    var hash := TranscriptHash(H, s, key, header, Commitments(p.rounds));
    forall i | 0 <= i < ROUNDS
      ensures InRange(p.rounds[i], key.Modulus())
      ensures RoundAccepted(H, hash, key, Message(H, s, key, header), p, i)
    {
      HonestRoundAccepted(H, s, key, header, signature, nonces, i);
    }
  }

  lemma HonestRoundCommitment(H: Sha256, s: Statement, key: RsaPublicKey, header: Bytes, signature: nat,
                              nonces: seq<nat>, i: nat)
    requires Eligible(key) && i < |nonces|
    ensures HonestRound(H, s, key, header, signature, nonces, i).commitment == HonestCommitment(key, nonces[i])
  {
  }
}
