/** The octet strings that are hashed: a label, a zero octet, length-framed fields. */
module Preimages {
  import opened Bytes

  /** Everything the verifier feeds to SHA-256, except the JWS signing input. */
  datatype Preimage =
    | Cic(json: Bytes)
    | Evidence(profile: Bytes, payload: Bytes, representation: Bytes)
    | Principal(issuer: Bytes, claim: Bytes, subject: Bytes)
    | AuditIdentity(issuer: Bytes, claim: Bytes, subject: Bytes)
    | Transcript(parameters: seq<Bytes>, commitments: seq<Bytes>)
    | Challenge(hash: Bytes, round: nat, retry: nat)

  const CIC_LABEL: Bytes := Ascii("CredBind-CIC-v1")
  const EVIDENCE_LABEL: Bytes := Ascii("CredBind-Issuer-Evidence-Digest-v1")
  const PRINCIPAL_LABEL: Bytes := Ascii("CredBind-SSH-Principal-v1")
  const AUDIT_LABEL: Bytes := Ascii("CredBind-Audit-Identity-v1")
  const TRANSCRIPT_LABEL: Bytes := Ascii("CredBind-GQ-Transcript-v1")
  const CHALLENGE_LABEL: Bytes := Ascii("CredBind-GQ-Challenge-v1")

  function Label(p: Preimage): Bytes {
    match p
    case Cic(_) => CIC_LABEL
    case Evidence(_, _, _) => EVIDENCE_LABEL
    case Principal(_, _, _) => PRINCIPAL_LABEL
    case AuditIdentity(_, _, _) => AUDIT_LABEL
    case Transcript(_, _) => TRANSCRIPT_LABEL
    case Challenge(_, _, _) => CHALLENGE_LABEL
  }

  function Fields(p: Preimage): seq<Bytes> {
    match p
    case Cic(json) => [json]
    case Evidence(profile, payload, representation) => [profile, payload, representation]
    case Principal(issuer, claim, subject) => [issuer, claim, subject]
    case AuditIdentity(issuer, claim, subject) => [issuer, claim, subject]
    case Transcript(parameters, _) => parameters
    case Challenge(hash, _, _) => [hash]
  }

  /** The part behind the framed fields. */
  function Suffix(p: Preimage): Bytes {
    match p
    case Transcript(_, commitments) => U32(|commitments|) + Frames(commitments)
    case Challenge(_, round, retry) => U32(round) + U32(retry)
    case _ => []
  }

  function Frames(fields: seq<Bytes>): Bytes {
    if fields == [] then [] else Frame64(fields[0]) + Frames(fields[1..])
  }

  function Encode(p: Preimage): Bytes {
    Label(p) + [0] + (Frames(Fields(p)) + Suffix(p))
  }

  /** The sizes fit their words, and the transcript has its nine parameters. */
  ghost predicate Valid(p: Preimage) {
    && (forall f :: f in Fields(p) ==> |f| < UINT64_LIMIT)
    && (p.Transcript? ==>
          && |p.parameters| == 9 && |p.commitments| < UINT32_LIMIT
          && forall c :: c in p.commitments ==> |c| < UINT64_LIMIT)
    && (p.Challenge? ==> p.round < UINT32_LIMIT && p.retry < UINT32_LIMIT)
  }

  lemma PrefixSplit(a: Bytes, x: Bytes, b: Bytes, y: Bytes)
    requires |a| == |b| && a + x == b + y
    ensures a == b && x == y
  {
    assert a == (a + x)[..|a|] && b == (b + y)[..|b|];
    assert x == (a + x)[|a|..] && y == (b + y)[|b|..];
  }

  lemma IntegerInjective(a: nat, b: nat, width: nat)
    requires a < Power256(width) && b < Power256(width) && ToBytes(a, width) == ToBytes(b, width)
    ensures a == b
  {
    FromToBytes(a, width);
    FromToBytes(b, width);
  }

  lemma FrameInjective(a: Bytes, x: Bytes, b: Bytes, y: Bytes)
    requires |a| < UINT64_LIMIT && |b| < UINT64_LIMIT
    requires Frame64(a) + x == Frame64(b) + y
    ensures a == b && x == y
  {
    hide ToBytes, Power256;
    PowerFacts();
    ConcatAssociative(U64(|a|), a, x);
    ConcatAssociative(U64(|b|), b, y);
    PrefixSplit(U64(|a|), a + x, U64(|b|), b + y);
    IntegerInjective(|a|, |b|, 8);
    PrefixSplit(a, x, b, y);
  }

  /** Framed lists of equal length, followed by anything, have equal fields. */
  lemma {:induction false} FramesInjective(a: seq<Bytes>, x: Bytes, b: seq<Bytes>, y: Bytes)
    requires |a| == |b|
    requires forall f :: f in a || f in b ==> |f| < UINT64_LIMIT
    requires Frames(a) + x == Frames(b) + y
    ensures a == b && x == y
  {
    if a == [] {
      assert x == [] + x && y == [] + y;
    } else {
      hide Frame64;
      ConcatAssociative(Frame64(a[0]), Frames(a[1..]), x);
      ConcatAssociative(Frame64(b[0]), Frames(b[1..]), y);
      FrameInjective(a[0], Frames(a[1..]) + x, b[0], Frames(b[1..]) + y);
      FramesInjective(a[1..], x, b[1..], y);
      assert a == [a[0]] + a[1..] && b == [b[0]] + b[1..];
    }
  }

  ghost predicate ZeroFree(s: Bytes) {
    forall i :: 0 <= i < |s| ==> s[i] != 0
  }

  lemma LabelZeroFree(p: Preimage)
    ensures ZeroFree(Label(p))
  {
  }

  /** A zero octet ends the label, so no label runs into the fields of another. */
  lemma LabelInjective(a: Bytes, x: Bytes, b: Bytes, y: Bytes)
    requires ZeroFree(a) && ZeroFree(b)
    requires a + [0] + x == b + [0] + y
    ensures a == b && x == y
  {
    var left, right := a + [0] + x, b + [0] + y;
    assert left[|a|] == 0 && right[|b|] == 0;
    PrefixSplit(a + [0], x, b + [0], y);
    PrefixSplit(a, [0], b, [0]);
  }

  lemma LabelsDistinct(p: Preimage, q: Preimage)
    requires Label(p) == Label(q)
    ensures p.Cic? == q.Cic? && p.Evidence? == q.Evidence? && p.Principal? == q.Principal?
    ensures p.AuditIdentity? == q.AuditIdentity? && p.Transcript? == q.Transcript? && p.Challenge? == q.Challenge?
  {
    assert p.Transcript? ==> Label(p)[9] == 71;
    assert q.Transcript? ==> Label(q)[9] == 71;
    assert p.Principal? ==> Label(p)[9] == 83;
    assert q.Principal? ==> Label(q)[9] == 83;
  }

  /** Equal hash inputs have the same label and equal fields, lists included: inputs of
      different domains are never equal, and inside one domain nothing can be shifted from
      one field into another. */
  lemma EncodeInjective(p: Preimage, q: Preimage)
    requires Valid(p) && Valid(q) && Encode(p) == Encode(q)
    ensures p == q
  {
    LabelZeroFree(p);
    LabelZeroFree(q);
    LabelInjective(Label(p), Frames(Fields(p)) + Suffix(p), Label(q), Frames(Fields(q)) + Suffix(q));
    LabelsDistinct(p, q);
    FramesInjective(Fields(p), Suffix(p), Fields(q), Suffix(q));
    PowerFacts();
    match p {
      case Transcript(_, c) =>
        PrefixSplit(U32(|c|), Frames(c), U32(|q.commitments|), Frames(q.commitments));
        IntegerInjective(|c|, |q.commitments|, 4);
        assert Frames(c) + [] == Frames(q.commitments) + [];
        FramesInjective(c, [], q.commitments, []);
      case Challenge(hash, round, retry) =>
        PrefixSplit(U32(round), U32(retry), U32(q.round), U32(q.retry));
        IntegerInjective(round, q.round, 4);
        IntegerInjective(retry, q.retry, 4);
        assert Fields(p)[0] == Fields(q)[0];
      case Cic(_) => assert Fields(p)[0] == Fields(q)[0];
      case _ =>
        assert Fields(p)[0] == Fields(q)[0] && Fields(p)[1] == Fields(q)[1] && Fields(p)[2] == Fields(q)[2];
    }
  }

  // ---- building the inputs

  /** The vector that the `append_*` functions extend. */
  class Buffer {
    var data: Bytes

    /** A label and its terminating zero. */
    constructor (domain: Bytes)
      ensures data == domain + [0]
    {
      data := domain + [0];
    }

    method AppendU32(value: nat)
      requires value < UINT32_LIMIT
      modifies this
      ensures data == old(data) + U32(value)
    {
      PowerFacts();
      data := data + [value / 16777216 % 256, value / 65536 % 256, value / 256 % 256, value % 256];
      WordOctets(value);
    }

    method AppendU64(value: nat)
      requires value < UINT64_LIMIT
      modifies this
      ensures data == old(data) + U64(value)
    {
      hide ToBytes;
      var start := data;
      var shift := 8;
      assert ToBytes(ShiftRight(value, 8), 0) == [] by {
        NoOctets(ShiftRight(value, 8));
      }
      while shift > 0
        invariant 0 <= shift <= 8
        invariant data == start + ToBytes(ShiftRight(value, shift), 8 - shift)
      {
        shift := shift - 1;
        NextOctet(value, shift);
        data := data + [ShiftRight(value, shift) % 256];
      }
    }

    method AppendValue(value: Bytes)
      requires |value| < UINT64_LIMIT
      modifies this
      ensures data == old(data) + Frame64(value)
    {
      AppendU64(|value|);
      data := data + value;
    }
  }

  lemma WordOctets(value: nat)
    ensures U32(value) == [value / 16777216 % 256, value / 65536 % 256, value / 256 % 256, value % 256]
  {
    var a, b, c := value / 256, value / 65536, value / 16777216;
    assert b == a / 256 && c == b / 256;
    assert ToBytes(c, 1) == [c % 256];
    assert ToBytes(b, 2) == [c % 256, b % 256];
    assert ToBytes(a, 3) == [c % 256, b % 256, a % 256];
  }

  /** `value >> (8 * octets)`. */
  function ShiftRight(value: nat, octets: nat): nat {
    if octets == 0 then value else ShiftRight(value, octets - 1) / 256
  }

  lemma NoOctets(value: nat)
    ensures ToBytes(value, 0) == []
  {
  }

  lemma NextOctet(value: nat, shift: nat)
    requires shift < 8
    ensures ToBytes(ShiftRight(value, shift), 8 - shift)
         == ToBytes(ShiftRight(value, shift + 1), 7 - shift) + [ShiftRight(value, shift) % 256]
  {
  }

  /** `commitment`. */
  method CommitmentInput(cic: Bytes) returns (input: Bytes)
    requires |cic| < UINT64_LIMIT
    ensures input == Encode(Cic(cic))
  {
    var buffer := new Buffer(CIC_LABEL);
    buffer.AppendValue(cic);
    input := buffer.data;
    FramesOfOne(cic);
  }

  /** `evidence_digest` and `expected_evidence_digest`: two copies of one construction. */
  method EvidenceDigestInput(profile: Bytes, payload: Bytes, evidence: Bytes) returns (input: Bytes)
    requires |profile| < UINT64_LIMIT && |payload| < UINT64_LIMIT && |evidence| < UINT64_LIMIT
    ensures input == Encode(Evidence(profile, payload, evidence))
  {
    hide Frame64;
    var buffer := new Buffer(EVIDENCE_LABEL);
    buffer.AppendValue(profile);
    buffer.AppendValue(payload);
    buffer.AppendValue(evidence);
    input := buffer.data;
    FramesOfThree(profile, payload, evidence);
    Assemble(EVIDENCE_LABEL, Frame64(profile), Frame64(payload), Frame64(evidence));
  }

  /** The hash input of `principal`. */
  method PrincipalInput(issuer: Bytes, claim: Bytes, subject: Bytes) returns (input: Bytes)
    requires |issuer| < UINT64_LIMIT && |claim| < UINT64_LIMIT && |subject| < UINT64_LIMIT
    ensures input == Encode(Principal(issuer, claim, subject))
  {
    hide Frame64;
    var buffer := new Buffer(PRINCIPAL_LABEL);
    buffer.AppendValue(issuer);
    buffer.AppendValue(claim);
    buffer.AppendValue(subject);
    input := buffer.data;
    FramesOfThree(issuer, claim, subject);
    Assemble(PRINCIPAL_LABEL, Frame64(issuer), Frame64(claim), Frame64(subject));
  }

  /** The hash input of `identity_reference`. */
  method AuditIdentityInput(issuer: Bytes, claim: Bytes, subject: Bytes) returns (input: Bytes)
    requires |issuer| < UINT64_LIMIT && |claim| < UINT64_LIMIT && |subject| < UINT64_LIMIT
    ensures input == Encode(AuditIdentity(issuer, claim, subject))
  {
    hide Frame64;
    var buffer := new Buffer(AUDIT_LABEL);
    buffer.AppendValue(issuer);
    buffer.AppendValue(claim);
    buffer.AppendValue(subject);
    input := buffer.data;
    FramesOfThree(issuer, claim, subject);
    Assemble(AUDIT_LABEL, Frame64(issuer), Frame64(claim), Frame64(subject));
  }

  lemma Assemble(domain: Bytes, a: Bytes, b: Bytes, c: Bytes)
    ensures domain + [0] + a + b + c == domain + [0] + ((a + b + c) + [])
  {
  }

  lemma FramesOfOne(a: Bytes)
    ensures Frames([a]) == Frame64(a)
  {
    assert [a][1..] == [] && Frames([]) == [];
  }

  lemma FramesOfThree(a: Bytes, b: Bytes, c: Bytes)
    ensures Frames([a, b, c]) == Frame64(a) + Frame64(b) + Frame64(c)
  {
    hide Frame64;
    assert [a, b, c][1..] == [b, c] && [b, c][1..] == [c];
    FramesOfOne(c);
    assert Frames([b, c]) == Frame64(b) + Frame64(c);
  }
}
