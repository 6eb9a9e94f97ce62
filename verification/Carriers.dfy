/** The direct verifier: tokens and carriers of `src/direct_verifier.cpp`. */
module Carriers {
  import opened Bytes
  import opened Errors
  import opened JsonTrees
  import opened Policies
  import Base64
  import CertificateFormat
  import CertificateParser
  import CoreEnvelope
  import Gq
  import GqEvidence
  import Issuers
  import Preimages
  import TreeBuilder
  import Utf8

  const MAXIMUM_TOKEN_BYTES := 32768
  const MAXIMUM_EVIDENCE_BYTES := 16384
  const MAXIMUM_HEADER_BYTES := 8192
  const MAXIMUM_PRINCIPAL_CLAIM_BYTES := 32768
  const ENVELOPE_LIMITS := CoreEnvelope.Limits(32, 4096, 4096, 256)

  datatype CoreResult = CoreResult(issuer: string, claims: Claims, algorithm: CertificateFormat.Algorithm,
                                   publicKey: Bytes, binding: string, evidence: string, commitment: string,
                                   validUntil: int)

  datatype CarrierInput = CarrierInput(blob: Bytes, keyType: Bytes, user: string, now: int)

  datatype CarrierResult = CarrierResult(core: CoreResult, principal: string, caKeyType: Bytes, caKey: Bytes)

  // ---- accounts

  /** `account_predicate_matches`: like the issuer's predicates, but an array has to be a set of strings, and
      a predicate with members of another operation matches nothing. */
  predicate AccountPredicateMatches(claims: Claims, p: Predicate) {
    && p.claim != "" && p.claim in claims
    && match p.operation
       case StringArrayContains =>
         && p.values == [] && claims[p.claim].Array? && AllStrings(claims[p.claim].elements)
         && Unrepeated(StringsOf(claims[p.claim].elements))
         && p.value in StringsOf(claims[p.claim].elements)
       case StringEquals => StringOf(claims[p.claim]) == Some(p.value) && p.values == []
       case StringOneOf =>
         && StringOf(claims[p.claim]).Some?
         && p.value == "" && p.values != [] && "" !in p.values && Unrepeated(p.values)
         && StringOf(claims[p.claim]).value in p.values
  }

  predicate AccountRuleMatches(rule: AccountRule, issuer: string, claims: Claims, extensions: seq<string>) {
    && rule.issuer != "" && rule.issuer == issuer
    && (forall p :: p in rule.all ==> AccountPredicateMatches(claims, p))
    && forall e :: e in extensions ==> e in rule.extensions
  }

  predicate AccountAllows(accounts: Accounts, user: string, issuer: string, claims: Claims, extensions: seq<string>) {
    && user != "" && user in accounts
    && exists r :: r in accounts[user] && AccountRuleMatches(r, issuer, claims, extensions)
  }

  /** The two loops of `account_predicate_matches`. */
  method CheckAccountPredicate(claims: Claims, p: Predicate) returns (ok: bool)
    ensures ok == AccountPredicateMatches(claims, p)
  {
    if p.claim == "" || p.claim !in claims {
      return false;
    }
    var subject := claims[p.claim];
    if p.operation == StringArrayContains {
      if p.values != [] || !subject.Array? {
        return false;
      }
      ok := CheckContains(subject.elements, p.value);
      return;
    }
    if StringOf(subject).None? {
      return false;
    }
    if p.operation == StringEquals {
      return p.values == [] && StringOf(subject).value == p.value;
    }
    if p.value != "" || p.values == [] {
      return false;
    }
    var unrepeated := CheckUnrepeated(p.values);
    ok := unrepeated && StringOf(subject).value in p.values;
  }

  method CheckContains(items: seq<Json>, text: string) returns (matched: bool)
    ensures matched == (AllStrings(items) && Unrepeated(StringsOf(items)) && text in StringsOf(items))
  {
    var unique: set<string> := {};
    matched := false;
    var index := 0;
    while index < |items|
      invariant 0 <= index <= |items| && AllStrings(items[..index]) && Unrepeated(StringsOf(items[..index]))
      invariant unique == set s | s in StringsOf(items[..index])
      invariant matched == (text in StringsOf(items[..index]))
    {
      var item := items[index];
      assert items[..index + 1] == items[..index] + [item];
      if StringOf(item).None? {
        assert item in items;
        return false;
      }
      if StringOf(item).value in unique {
        Issuers.RepeatedLater(items, index, StringOf(item).value);
        return false;
      }
      assert StringsOf(items[..index + 1]) == StringsOf(items[..index]) + [StringOf(item).value];
      unique := unique + {StringOf(item).value};
      matched := matched || StringOf(item).value == text;
      index := index + 1;
    }
    assert items[..index] == items;
  }

  /** The loop over permitted values, here and in `validate_policy`. */
  method CheckUnrepeated(values: seq<string>) returns (ok: bool)
    ensures ok == ("" !in values && Unrepeated(values))
  {
    var unique: set<string> := {};
    var index := 0;
    while index < |values|
      invariant 0 <= index <= |values| && "" !in values[..index] && Unrepeated(values[..index])
      invariant unique == set s | s in values[..index]
    {
      assert values[..index + 1] == values[..index] + [values[index]];
      if values[index] == "" {
        return false;
      }
      if values[index] in unique {
        var i :| 0 <= i < index && values[..index][i] == values[index];
        assert values[i] == values[index];
        return false;
      }
      unique := unique + {values[index]};
      index := index + 1;
    }
    assert values[..index] == values;
    ok := true;
  }

  // ---- tokens

  /** `principal`: the name the carrier has to carry for this subject. */
  function Principal(w: World, issuer: string, claims: Claims, claim: string): Result<string> {
    var _ :- Need(claim != "", SshPrincipalInvalid);
    var subject := StringMember(claims, claim);
    var _ :- Need(subject.Some?, SshPrincipalInvalid);
    var _ :- Need(0 < |subject.value| <= MAXIMUM_PRINCIPAL_CLAIM_BYTES, SshPrincipalInvalid);
    var digest := w.sha256(Preimages.Encode(Preimages.Principal(Octets(issuer), Octets(claim), Octets(subject.value))));
    Success("credbind-v1-" + Chars(Base64.Encode(digest, Base64.UrlSafe)))
  }

  function Commitment(w: World, cic: Bytes): string {
    Chars(Base64.Encode(w.sha256(Preimages.Encode(Preimages.Cic(cic))), Base64.UrlSafe))
  }

  function ParseEnvelope(w: World, token: Bytes): Result<CoreEnvelope.Envelope> {
    var _ :- Need(|token| <= MAXIMUM_TOKEN_BYTES, ResourceLimit);
    match w.json(token)
    case Document(root) => CoreEnvelope.Parse(Events(root, []), ENVELOPE_LIMITS)
    case Broken(events) =>
      var _ :- CoreEnvelope.Run(CoreEnvelope.INITIAL, events, ENVELOPE_LIMITS);
      Failure(MalformedInput)
  }

  /** A token taken apart, before the issuer has spoken. */
  datatype OpenedToken = OpenedToken(envelope: CoreEnvelope.Envelope, cic: Cic, commitment: string, evidence: Bytes,
                                     signature: Bytes)

  function OpenToken(w: World, token: Bytes, policy: CorePolicy): Result<OpenedToken> {
    var _ :- Need(0 < policy.maxTokenBytes <= MAXIMUM_TOKEN_BYTES
                  && 0 < policy.maxEvidenceBytes <= MAXIMUM_EVIDENCE_BYTES,
                  ResourceLimit);
    var _ :- Need(|token| <= policy.maxTokenBytes, ResourceLimit);
    var _ :- Need(policy.callerAlgorithms != {}, IssuerUntrusted);
    var envelope :- ParseEnvelope(w, token);
    var _ :- Base64.DecodeBounded(Octets(envelope.payload), MAXIMUM_TOKEN_BYTES);
    var header :- Base64.DecodeBounded(Octets(envelope.protectedHeader), MAXIMUM_HEADER_BYTES);
    var signature :- Base64.DecodeBounded(Octets(envelope.signature), 128);
    var evidence :- Base64.DecodeBounded(Octets(envelope.evidence), policy.maxEvidenceBytes);
    var cic :- w.cic(header, policy);
    Success(OpenedToken(envelope, cic, Commitment(w, header), evidence, signature))
  }

  function IssuerInput(t: OpenedToken, now: int): Issuers.Input {
    Issuers.Input(t.cic.evidence, t.cic.binding, t.commitment, t.envelope.payload, t.evidence, now)
  }

  /** The checks of the issuer's result, lines 883 to 899. */
  predicate Consistent(w: World, t: OpenedToken, policy: IssuerPolicy, r: Issuers.VerificationResult) {
    && r.issuer != "" && r.keyId != "" && r.issuer == policy.issuer && r.binding == t.cic.binding
    && r.digest == Issuers.EvidenceDigest(w, t.cic.evidence, t.envelope.payload, t.evidence)
    && r.claims.Keys <= policy.admittedClaims
  }

  /** The caller's signature over the protected header and the payload. */
  function CheckCaller(w: World, t: OpenedToken): Result<()> {
    var _ :- Need(|t.signature| == 64, CallerSignatureInvalid);
    w.callerSignature(t.cic, Octets(t.envelope.protectedHeader) + Ascii(".") + Octets(t.envelope.payload), t.signature)
  }

  function CoreOf(t: OpenedToken, r: Issuers.VerificationResult): CoreResult {
    CoreResult(r.issuer, r.claims, t.cic.algorithm, t.cic.publicKey, t.cic.binding, t.cic.evidence, t.commitment,
               r.validUntil)
  }

  function VerifyToken(w: World, token: Bytes, policy: CorePolicy, keys: Keys, now: int): Result<CoreResult> {
    var t :- OpenToken(w, token, policy);
    var r :- Issuers.Verify(w, IssuerInput(t, now), policy.issuerPolicy, keys);
    var _ :- Need(Consistent(w, t, policy.issuerPolicy, r), EvidenceResultMismatch);
    var _ :- CheckCaller(w, t);
    Success(CoreOf(t, r))
  }

  // ---- carriers

  /** The carrier's key is the caller's key. */
  function CheckKey(w: World, c: CertificateFormat.Certificate, core: CoreResult): Result<()> {
    var _ :- w.carrierSignature(c, c.algorithm);
    Need(c.algorithm == core.algorithm && c.certifiedKey == core.publicKey, SshKeyMismatch)
  }

  /** Lines 978 to 1013: the carrier's own dates, and the boundary the credential sets it. */
  function CheckValidity(now: int, c: CertificateFormat.Certificate, policy: CarrierPolicy, validUntil: int)
    : Result<()>
  {
    var withSkew := Issuers.CheckedAdd(now, policy.skew, SshIdentityNotYetValid);
    var withoutSkew := Issuers.CheckedAdd(now, -policy.skew, SshIdentityExpired);
    var later :- withSkew;
    var earlier :- withoutSkew;
    var _ :- Need(later >= 0 && later >= c.validAfter, SshIdentityNotYetValid);
    var _ :- Need(earlier < 0 || earlier < c.validBefore, SshIdentityExpired);
    CheckBoundary(c, policy, validUntil)
  }

  function CheckBoundary(c: CertificateFormat.Certificate, policy: CarrierPolicy, validUntil: int): Result<()> {
    var _ :- Need(validUntil >= 0, SshIdentityExpired);
    if policy.maximumLifetime > 0 then
      var _ :- Need(c.validAfter <= UINT64_LIMIT - 1 - policy.maximumLifetime, SshCertificateInvalid);
      Need(c.validBefore <= validUntil && c.validBefore <= c.validAfter + policy.maximumLifetime, SshIdentityExpired)
    else Need(c.validBefore <= validUntil, SshIdentityExpired)
  }

  function PermissionNames(c: CertificateFormat.Certificate): seq<string> {
    seq(|c.permissions|, i requires 0 <= i < |c.permissions| => Chars(c.permissions[i]))
  }

  function CheckSubject(w: World, c: CertificateFormat.Certificate, core: CoreResult, policy: CarrierPolicy,
                        accounts: Accounts, user: string): Result<CarrierResult>
  {
    var principal :- Principal(w, core.issuer, core.claims, policy.principalClaim);
    var _ :- Need(|c.principals| == 1 && c.principals[0] == Octets(principal), SshPrincipalInvalid);
    var _ :- Need(AccountAllows(accounts, user, core.issuer, core.claims, PermissionNames(c)), AccountUnauthorized);
    Success(CarrierResult(core, principal, CertificateFormat.KeyName(core.algorithm),
                          Base64.Encode(c.signatureKey, Base64.Standard)))
  }

  function OpenCarrier(input: CarrierInput, policy: CarrierPolicy, limits: CertificateFormat.Limits)
    : Result<CertificateFormat.Certificate>
  {
    var _ :- Need(policy.skew >= 0 && policy.maximumLifetime >= 0, IssuerUntrusted);
    var _ :- Need(Utf8.ValidName(Octets(input.user), Utf8.MAXIMUM_NAME_BYTES) && input.keyType != [], MalformedInput);
    var (c, nonce) :- CertificateParser.ParseCertificate(input.blob, limits);
    var _ :- Need(input.keyType == CertificateFormat.TypeName(c.algorithm), MalformedInput);
    Success(c)
  }

  function VerifyCarrier(w: World, input: CarrierInput, core: CorePolicy, carrier: CarrierPolicy, accounts: Accounts,
                         keys: Keys, limits: CertificateFormat.Limits): Result<CarrierResult>
  {
    var c :- OpenCarrier(input, carrier, limits);
    var verified :- VerifyToken(w, c.token, core, keys, input.now);
    var _ :- CheckKey(w, c, verified);
    var _ :- CheckValidity(input.now, c, carrier, verified.validUntil);
    CheckSubject(w, c, verified, carrier, accounts, input.user)
  }

  // ---- the exits that are never taken

  /** None of the functions the model does not look into reports the mismatch itself. */
  ghost predicate NeverMismatch(w: World) {
    && (forall b, p :: w.cic(b, p) != Failure(EvidenceResultMismatch))
    && (forall m, s, k :: w.rs256(m, s, k) != Failure(EvidenceResultMismatch))
    && (forall c, m, s :: w.callerSignature(c, m, s) != Failure(EvidenceResultMismatch))
  }

  /** Whatever the issuer verifier returns is consistent: the two mismatch exits of `verify_token` are dead. */
  lemma IssuerResultIsConsistent(w: World, t: OpenedToken, policy: IssuerPolicy, keys: Keys, now: int)
    ensures var r := Issuers.Verify(w, IssuerInput(t, now), policy, keys);
            r.Success? ==> Consistent(w, t, policy, r.value)
  {
    hide Issuers.Verify, Issuers.EvidenceDigest;
    Issuers.VerifyIsConsistent(w, IssuerInput(t, now), policy, keys);
  }

  /** The kinds a parse can fail with. */
  predicate Syntactic<T>(r: Result<T>) {
    r.Failure? ==> r.kind == MalformedInput || r.kind == ResourceLimit
  }

  lemma {:induction false} EnvelopeRunIsSyntactic(s: CoreEnvelope.State, events: seq<Event>, l: CoreEnvelope.Limits)
    ensures Syntactic(CoreEnvelope.Run(s, events, l))
    decreases events
  {
    if events != [] {
      var t := CoreEnvelope.Step(s, events[0], l);
      if t.Success? {
        EnvelopeRunIsSyntactic(t.value, events[1..], l);
      }
    }
  }

  lemma {:induction false} TreeRunIsSyntactic(s: TreeBuilder.State, events: seq<Event>, l: TreeBuilder.Limits)
    requires l.depthKind == MalformedInput || l.depthKind == ResourceLimit
    ensures Syntactic(TreeBuilder.Run(s, events, l))
    decreases events
  {
    if events != [] {
      var t := TreeBuilder.Step(s, events[0], l);
      if t.Success? {
        TreeRunIsSyntactic(t.value, events[1..], l);
      }
    }
  }

  lemma EnvelopeIsSyntactic(w: World, token: Bytes)
    ensures Syntactic(ParseEnvelope(w, token))
  {
    hide CoreEnvelope.Run, Events;
    match w.json(token) {
      case Document(root) => EnvelopeRunIsSyntactic(CoreEnvelope.INITIAL, Events(root, []), ENVELOPE_LIMITS);
      case Broken(events) => EnvelopeRunIsSyntactic(CoreEnvelope.INITIAL, events, ENVELOPE_LIMITS);
    }
  }

  lemma ObjectIsSyntactic(w: World, octets: Bytes)
    ensures Syntactic(Issuers.ParseObject(w, octets))
  {
    hide TreeBuilder.Run, Events;
    match w.json(octets) {
      case Document(root) => TreeRunIsSyntactic(TreeBuilder.INITIAL, Events(root, []), TreeBuilder.ISSUER_LIMITS);
      case Broken(events) => TreeRunIsSyntactic(TreeBuilder.INITIAL, events, TreeBuilder.ISSUER_LIMITS);
    }
  }

  lemma IssuerNeverMismatches(w: World, input: Issuers.Input, policy: IssuerPolicy, keys: Keys)
    requires NeverMismatch(w)
    ensures Issuers.Verify(w, input, policy, keys) != Failure(EvidenceResultMismatch)
  {
    hide Issuers.Authenticate, Issuers.CheckIdentity, Issuers.CheckDates, Issuers.ValidatePolicy;
    AuthenticateNeverMismatches(w, input, policy, keys);
    DatesNeverMismatch(input, policy);
    var a := Issuers.Authenticate(w, input, policy, keys);
    if a.Success? {
      assert Issuers.CheckIdentity(input.binding, input.commitment, policy, a.value.0)
             != Failure(EvidenceResultMismatch);
      assert Issuers.CheckDates(input.now, policy, a.value.0) != Failure(EvidenceResultMismatch);
    }
  }

  lemma AuthenticateNeverMismatches(w: World, input: Issuers.Input, policy: IssuerPolicy, keys: Keys)
    requires NeverMismatch(w)
    ensures Issuers.Authenticate(w, input, policy, keys) != Failure(EvidenceResultMismatch)
  {
    hide Issuers.ParseObject, Base64.DecodeUrl, Issuers.CheckEvidence, Issuers.ReadEvidence, Issuers.ValidatePolicy,
         Issuers.CheckHeader, Issuers.CheckIdentity, Issuers.CheckDates, NeverMismatch;
    var octets := Base64.DecodeBounded(Octets(input.payload), Issuers.MAXIMUM_JSON_BYTES);
    if octets.Success? {
      ObjectIsSyntactic(w, octets.value);
    }
    ChecksNeverMismatch(w, input, policy);
    DatesNeverMismatch(input, policy);
    var evidence := Issuers.ReadEvidence(input);
    if evidence.Success? {
      var (encodedHeader, signature) := evidence.value;
      assert Issuers.CheckHeader(w, input, policy, encodedHeader) != Failure(EvidenceResultMismatch);
    }
  }

  lemma DatesNeverMismatch(input: Issuers.Input, policy: IssuerPolicy)
    ensures forall claims ::
              Issuers.CheckIdentity(input.binding, input.commitment, policy, claims) != Failure(EvidenceResultMismatch)
    ensures forall claims :: Issuers.CheckDates(input.now, policy, claims) != Failure(EvidenceResultMismatch)
    ensures Issuers.ValidatePolicy(input.evidenceProfile, input.binding, policy) != Failure(EvidenceResultMismatch)
  {
  }

  lemma ChecksNeverMismatch(w: World, input: Issuers.Input, policy: IssuerPolicy)
    requires NeverMismatch(w)
    ensures Issuers.ReadEvidence(input) != Failure(EvidenceResultMismatch)
    ensures forall encoded :: Issuers.CheckHeader(w, input, policy, encoded) != Failure(EvidenceResultMismatch)
    ensures forall header, signature, key ::
              Issuers.CheckEvidence(w, input, policy, header, signature, key) != Failure(EvidenceResultMismatch)
  {
    hide Issuers.ParseObject, Base64.DecodeUrl, Gq.ProofAccepted;
    forall encoded ensures Issuers.CheckHeader(w, input, policy, encoded) != Failure(EvidenceResultMismatch) {
      var octets := Base64.DecodeBounded(encoded, Issuers.MAXIMUM_JSON_BYTES);
      if octets.Success? {
        ObjectIsSyntactic(w, octets.value);
      }
    }
    forall header, signature, key
      ensures Issuers.CheckEvidence(w, input, policy, header, signature, key) != Failure(EvidenceResultMismatch)
    {
      ProofNeverMismatches(input.evidence, key);
    }
  }

  lemma ProofNeverMismatches(evidence: Bytes, key: GqEvidence.RsaPublicKey)
    ensures GqEvidence.ParseProof(evidence, key) != Failure(EvidenceResultMismatch)
  {
    hide GqEvidence.TakeRounds, FromBytes, Base64.DecodeBounded;
    forall s ensures GqEvidence.TakeRounds(s, GqEvidence.ROUNDS, key) != Failure(EvidenceResultMismatch) {
      RoundsNeverMismatch(s, GqEvidence.ROUNDS, key);
    }
  }

  lemma RoundNeverMismatches(s: Bytes, key: GqEvidence.RsaPublicKey)
    ensures GqEvidence.TakeRound(s, key) != Failure(EvidenceResultMismatch)
  {
    hide FromBytes, GqEvidence.RsaPublicKey.Modulus;
  }

  lemma {:induction false} RoundsNeverMismatch(s: Bytes, count: nat, key: GqEvidence.RsaPublicKey)
    ensures GqEvidence.TakeRounds(s, count, key) != Failure(EvidenceResultMismatch)
    decreases count
  {
    hide GqEvidence.TakeRound;
    if count > 0 {
      RoundNeverMismatches(s, key);
      var t := GqEvidence.TakeRound(s, key);
      if t.Success? {
        RoundsNeverMismatch(t.value.1, count - 1, key);
      }
    }
  }

  /** No token at all is refused for an evidence mismatch. */
  lemma TokenNeverMismatches(w: World, token: Bytes, policy: CorePolicy, keys: Keys, now: int)
    requires NeverMismatch(w)
    ensures VerifyToken(w, token, policy, keys, now) != Failure(EvidenceResultMismatch)
  {
    hide ParseEnvelope, Base64.DecodeUrl, Issuers.Verify, Consistent;
    EnvelopeIsSyntactic(w, token);
    var t := OpenToken(w, token, policy);
    if t.Success? {
      IssuerNeverMismatches(w, IssuerInput(t.value, now), policy.issuerPolicy, keys);
      IssuerResultIsConsistent(w, t.value, policy.issuerPolicy, keys, now);
    }
  }
}
