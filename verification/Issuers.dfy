/** The issuer verifier: claim validation and evidence checks of `src/issuer_verifier.cpp`. */
module Issuers {
  import opened Bytes
  import opened Cursor
  import opened Errors
  import opened JsonTrees
  import opened Policies
  import Base64
  import Gq
  import GqEvidence
  import Preimages
  import TreeBuilder

  const MAXIMUM_JSON_BYTES := 32768
  const MAXIMUM_EVIDENCE_BYTES := 16384
  const MAXIMUM_EXACT_INTEGER := 9007199254740991

  datatype Input = Input(evidenceProfile: string, binding: string, commitment: string, payload: string,
                         evidence: Bytes, now: int)

  datatype VerificationResult = VerificationResult(issuer: string, keyId: string, binding: string, claims: Claims,
                                                   validUntil: int, digest: GqEvidence.Digest)

  // ---- claims

  /** An integer a double holds exactly, whichever way the number was written. */
  function IntegerOf(j: Json): Option<int> {
    if !j.Value? then None
    else match j.scalar
      case Unsigned(n) => if n <= MAXIMUM_EXACT_INTEGER then Some(n) else None
      case Signed(n) => if -MAXIMUM_EXACT_INTEGER <= n <= MAXIMUM_EXACT_INTEGER then Some(n) else None
      case Float(x) =>
        if x.Floor as real == x && -MAXIMUM_EXACT_INTEGER <= x.Floor <= MAXIMUM_EXACT_INTEGER then Some(x.Floor)
        else None
      case _ => None
  }

  function IntegerClaim(claims: Claims, name: string): Option<int> {
    if name in claims then IntegerOf(claims[name]) else None
  }

  /** A single allowed string, or distinct strings with an allowed one among them. */
  predicate AudienceAllowed(audience: Json, allowed: set<string>) {
    if StringOf(audience).Some? then StringOf(audience).value in allowed
    else
      && audience.Array? && audience.elements != [] && AllStrings(audience.elements)
      && Unrepeated(StringsOf(audience.elements))
      && exists e :: e in audience.elements && StringOf(e).value in allowed
  }

  /** The loop of `audience_allowed`. */
  method CheckAudience(audience: Json, allowed: set<string>) returns (ok: bool)
    ensures ok == AudienceAllowed(audience, allowed)
  {
    if StringOf(audience).Some? {
      return StringOf(audience).value in allowed;
    }
    if !audience.Array? || audience.elements == [] {
      return false;
    }
    var items := audience.elements;
    var seen: set<string> := {};
    var matched := false;
    var index := 0;
    while index < |items|
      invariant 0 <= index <= |items| && AllStrings(items[..index]) && Unrepeated(StringsOf(items[..index]))
      invariant seen == set s | s in StringsOf(items[..index])
      invariant matched == exists e :: e in items[..index] && StringOf(e).value in allowed
    {
      var item := items[index];
      assert items[..index + 1] == items[..index] + [item];
      if StringOf(item).None? {
        assert item in items;
        return false;
      }
      var text := StringOf(item).value;
      if text in seen {
        RepeatedLater(items, index, text);
        return false;
      }
      assert StringsOf(items[..index + 1]) == StringsOf(items[..index]) + [text];
      seen := seen + {text};
      matched := matched || text in allowed;
      index := index + 1;
    }
    assert items[..index] == items;
    ok := matched;
  }

  lemma RepeatedLater(items: seq<Json>, index: nat, text: string)
    requires index < |items| && AllStrings(items[..index]) && text in StringsOf(items[..index])
    requires StringOf(items[index]) == Some(text)
    ensures !(AllStrings(items) && Unrepeated(StringsOf(items)))
  {
    var i :| 0 <= i < index && StringsOf(items[..index])[i] == text;
    if AllStrings(items) {
      StringsOfPrefix(items, index);
      assert StringsOf(items)[i] == text && StringsOf(items)[index] == text;
    }
  }

  predicate ExactAudience(audience: Json, commitment: string) {
    || StringOf(audience) == Some(commitment)
    || (audience.Array? && |audience.elements| == 1 && StringOf(audience.elements[0]) == Some(commitment))
  }

  predicate PredicateMatches(claims: Claims, p: Predicate) {
    && p.claim in claims && p.claim != ""
    && match p.operation
       case StringArrayContains =>
         claims[p.claim].Array? && exists e :: e in claims[p.claim].elements && StringOf(e) == Some(p.value)
       case StringEquals => StringMember(claims, p.claim) == Some(p.value)
       case StringOneOf =>
         StringMember(claims, p.claim).Some? && StringMember(claims, p.claim).value in p.values
  }

  function CheckedAdd(left: int, right: int, kind: Kind): Result<int> {
    if (right > 0 && left > INT64_MAXIMUM - right) || (right < 0 && left < INT64_MINIMUM - right) then Failure(kind)
    else Success(left + right)
  }

  // ---- the policy

  predicate ValidPredicate(p: Predicate) {
    && p.claim != ""
    && (p.operation == StringEquals ==> p.values == [])
    && (p.operation == StringOneOf ==> p.values != [] && p.value == "" && "" !in p.values && Unrepeated(p.values))
    && (p.operation == StringArrayContains ==> p.values == [])
  }

  function ValidatePolicy(evidenceProfile: string, binding: string, policy: IssuerPolicy): Result<()> {
    var _ :- Need(|policy.issuer| >= 9 && policy.issuer[..8] == "https://"
                  && policy.audiences != {} && policy.issuerAlgorithms != {}
                  && policy.evidenceProfiles != {} && policy.bindingProfiles != {}
                  && policy.skew >= 0 && policy.maximumAge >= 0, IssuerUntrusted);
    var _ :- Need(evidenceProfile in {STANDARD_EVIDENCE, GQ_EVIDENCE} && evidenceProfile in policy.evidenceProfiles
                  && !(policy.requireNonReconstructible && evidenceProfile == STANDARD_EVIDENCE), UnsupportedProfile);
    var _ :- Need(binding in {NONCE_BINDING, AUDIENCE_BINDING, CLAIM_BINDING} && binding in policy.bindingProfiles,
                  UnsupportedProfile);
    Need(forall p :: p in policy.requiredClaims ==> ValidPredicate(p), IssuerUntrusted)
  }

  // ---- the claims against the policy

  /** Who issued the token, for whom, bound to what, with which claims: nothing about time. */
  function CheckIdentity(binding: string, commitment: string, policy: IssuerPolicy, claims: Claims): Result<()> {
    var _ :- Need(StringMember(claims, "iss") == Some(policy.issuer), IssuerClaimsInvalid);
    var _ :- CheckBinding(binding, commitment, policy, claims);
    var _ :- Need(policy.authorizedParties == {}
                  || (StringMember(claims, "azp").Some?
                      && StringMember(claims, "azp").value in policy.authorizedParties),
                  IssuerClaimsInvalid);
    Need(forall p :: p in policy.requiredClaims ==> PredicateMatches(claims, p), IssuerClaimsInvalid)
  }

  function CheckBinding(binding: string, commitment: string, policy: IssuerPolicy, claims: Claims): Result<()> {
    if binding == NONCE_BINDING then
      var _ :- Need(StringMember(claims, "nonce") == Some(commitment), BindingInvalid);
      Need("aud" in claims && AudienceAllowed(claims["aud"], policy.audiences), IssuerClaimsInvalid)
    else if binding == AUDIENCE_BINDING then
      Need("aud" in claims && ExactAudience(claims["aud"], commitment), BindingInvalid)
    else
      var _ :- Need(StringMember(claims, "https://credbind.dev/commitment") == Some(commitment), BindingInvalid);
      Need("aud" in claims && AudienceAllowed(claims["aud"], policy.audiences), IssuerClaimsInvalid)
  }

  /** Lines 535 to 581: the dates, in the order the source looks at them. */
  function CheckDates(now: int, policy: IssuerPolicy, claims: Claims): Result<int> {
    var _ :- Need(IntegerClaim(claims, "iat").Some? && IntegerClaim(claims, "exp").Some?, IssuerClaimsInvalid);
    var issuedAt, expiresAt := IntegerClaim(claims, "iat").value, IntegerClaim(claims, "exp").value;
    var withSkew :- CheckedAdd(now, policy.skew, IssuerClaimsInvalid);
    var _ :- Need(withSkew >= issuedAt, CredentialNotYetValid);
    var notBefore := IntegerClaim(claims, "nbf");
    var _ :- Need("nbf" in claims ==> notBefore.Some?, IssuerClaimsInvalid);
    var _ :- Need(notBefore.Some? ==> withSkew >= notBefore.value, CredentialNotYetValid);
    var withoutSkew :- CheckedAdd(now, -policy.skew, IssuerClaimsInvalid);
    var _ :- Need(withoutSkew < expiresAt, CredentialExpired);
    if policy.maximumAge > 0 then
      var oldest :- CheckedAdd(issuedAt, policy.maximumAge, IssuerClaimsInvalid);
      var validUntil := if oldest < expiresAt then oldest else expiresAt;
      var _ :- Need(withoutSkew < validUntil, CredentialExpired);
      Success(validUntil)
    else Success(expiresAt)
  }

  function ValidateClaims(input: Input, policy: IssuerPolicy, claims: Claims): Result<int> {
    var _ :- CheckIdentity(input.binding, input.commitment, policy, claims);
    CheckDates(input.now, policy, claims)
  }

  // ---- the whole check

  /** What a SAX parse of octets gives; a tokenizer error counts unless a callback failed before it. */
  function ParseTokens(tokens: Tokens, limits: TreeBuilder.Limits): Result<Json> {
    match tokens
    case Document(root) => TreeBuilder.Parse(Events(root, []), limits)
    case Broken(events) =>
      var _ :- TreeBuilder.Run(TreeBuilder.INITIAL, events, limits);
      Failure(MalformedInput)
  }

  function ParseObject(w: World, octets: Bytes): Result<Claims> {
    var _ :- Need(|octets| <= MAXIMUM_JSON_BYTES, ResourceLimit);
    var root :- ParseTokens(w.json(octets), TreeBuilder.ISSUER_LIMITS);
    if root.Object? then Success(root.fields) else Failure(MalformedInput)
  }

  datatype Header = Header(algorithm: string, kid: string)

  function ParseHeader(w: World, encoded: Bytes): Result<Header> {
    var octets :- Base64.DecodeBounded(encoded, MAXIMUM_JSON_BYTES);
    var fields :- ParseObject(w, octets);
    var _ :- Need(fields.Keys !! {"jku", "x5u", "jwk", "x5c"}, IssuerUntrusted);
    var _ :- Need("crit" !in fields, UnsupportedProfile);
    var algorithm, kid := StringMember(fields, "alg"), StringMember(fields, "kid");
    var _ :- Need(algorithm.Some? && kid.Some? && algorithm.value != "" && kid.value != "", MalformedInput);
    Success(Header(algorithm.value, kid.value))
  }

  /** Header and signature, both behind 64-bit lengths, and nothing else. */
  function ParseStandard(evidence: Bytes): Result<(Bytes, Bytes)> {
    var header := TakeValue(evidence, MAXIMUM_JSON_BYTES, MalformedInput);
    var encodedHeader :- header.result;
    var signature := TakeValue(header.rest, MAXIMUM_JSON_BYTES, MalformedInput);
    var encodedSignature :- signature.result;
    var _ :- Need(signature.rest == [], MalformedInput);
    var octets :- Base64.DecodeBounded(encodedSignature, 1024);
    Success((encodedHeader, octets))
  }

  function GqHeader(evidence: Bytes): Result<Bytes> {
    var header := TakeValue(evidence, MAXIMUM_JSON_BYTES, MalformedInput);
    if header.result.Failure? then Failure(EvidenceInvalid) else header.result
  }

  /** `verify_gq_rs256`, by the meaning its own model proves of it. */
  function VerifyGq(w: World, s: GqEvidence.Statement, evidence: Bytes, key: GqEvidence.RsaPublicKey): Result<()> {
    var _ :- Need(|evidence| <= GqEvidence.MAXIMUM_EVIDENCE_BYTES, ResourceLimit);
    var _ :- Need(GqEvidence.Eligible(key), EvidenceInvalid);
    var proof :- GqEvidence.ParseProof(evidence, key);
    Need(Gq.ProofAccepted(w.sha256, s, key, proof), EvidenceInvalid)
  }

  lemma VerifyGqAccepts(w: World, s: GqEvidence.Statement, evidence: Bytes, key: GqEvidence.RsaPublicKey)
    ensures VerifyGq(w, s, evidence, key).Success? <==> Gq.Accepted(w.sha256, s, key, evidence)
  {
    hide Gq.ProofAccepted, GqEvidence.ParseProof, GqEvidence.EncodeProof;
    if GqEvidence.Eligible(key) && |evidence| <= GqEvidence.MAXIMUM_EVIDENCE_BYTES {
      Gq.AcceptedMeansParsed(w.sha256, s, key, evidence);
    } else if |evidence| <= GqEvidence.MAXIMUM_EVIDENCE_BYTES {
      Gq.NotEligible(w.sha256, s, key);
    }
  }

  function EvidenceDigest(w: World, profile: string, payload: string, evidence: Bytes): GqEvidence.Digest {
    w.sha256(Preimages.Encode(Preimages.Evidence(Octets(profile), Octets(payload), evidence)))
  }

  /** The header that names the key, and the signature of a standard token. */
  function ReadEvidence(input: Input): Result<(Bytes, Bytes)> {
    if input.evidenceProfile == STANDARD_EVIDENCE then ParseStandard(input.evidence)
    else
      var header :- GqHeader(input.evidence);
      Success((header, []))
  }

  function CheckHeader(w: World, input: Input, policy: IssuerPolicy, encoded: Bytes): Result<Header> {
    var header := ParseHeader(w, encoded);
    if header.Failure? then
      if input.evidenceProfile == GQ_EVIDENCE && header.kind == MalformedInput then Failure(EvidenceInvalid) else header
    else
      var _ :- Need(header.value.algorithm == "RS256" && "RS256" in policy.issuerAlgorithms, UnsupportedAlgorithm);
      header
  }

  function ResolveKey(keys: Keys, kid: string): Result<GqEvidence.RsaPublicKey> {
    if kid == "" || kid !in keys then Failure(IssuerUntrusted) else Success(keys[kid])
  }

  function CheckEvidence(w: World, input: Input, policy: IssuerPolicy, header: Bytes, signature: Bytes,
                         key: GqEvidence.RsaPublicKey): Result<()>
  {
    if input.evidenceProfile == STANDARD_EVIDENCE then
      w.rs256(header + Ascii(".") + Octets(input.payload), signature, key)
    else
      VerifyGq(w, GqEvidence.Statement(Octets(input.payload), Octets(input.commitment), Octets(policy.issuer)),
               input.evidence, key)
  }

  /** The claims the policy admits. */
  function Admitted(claims: Claims, names: set<string>): (r: Claims)
    ensures r.Keys == claims.Keys * names
    ensures forall n :: n in r ==> r[n] == claims[n]
  {
    map n | n in claims && n in names :: claims[n]
  }

  /** Everything `verify` looks at but the time: the authenticated claims and the key id. */
  function Authenticate(w: World, input: Input, policy: IssuerPolicy, keys: Keys): Result<(Claims, string)> {
    var _ :- Need(|input.evidence| <= MAXIMUM_EVIDENCE_BYTES, ResourceLimit);
    var _ :- ValidatePolicy(input.evidenceProfile, input.binding, policy);
    var octets :- Base64.DecodeBounded(Octets(input.payload), MAXIMUM_JSON_BYTES);
    var claims :- ParseObject(w, octets);
    var (encodedHeader, signature) :- ReadEvidence(input);
    var header :- CheckHeader(w, input, policy, encodedHeader);
    var key :- ResolveKey(keys, header.kid);
    var _ :- CheckEvidence(w, input, policy, encodedHeader, signature, key);
    Success((claims, header.kid))
  }

  function Verify(w: World, input: Input, policy: IssuerPolicy, keys: Keys): Result<VerificationResult> {
    var (claims, kid) :- Authenticate(w, input, policy, keys);
    var validUntil :- ValidateClaims(input, policy, claims);
    Success(VerificationResult(policy.issuer, kid, input.binding, Admitted(claims, policy.admittedClaims), validUntil,
                               EvidenceDigest(w, input.evidenceProfile, input.payload, input.evidence)))
  }

  /** The loop that collects the admitted claims, in whatever order the set is walked. */
  method CollectAdmitted(claims: Claims, names: set<string>) returns (admitted: Claims)
    ensures admitted == Admitted(claims, names)
  {
    admitted := map[];
    var left := names;
    while left != {}
      invariant left <= names
      invariant admitted == map n | n in claims && n in names - left :: claims[n]
      decreases |left|
    {
      var name :| name in left;
      if name in claims {
        admitted := admitted[name := claims[name]];
      }
      left := left - {name};
    }
  }

  /** What `verify_token` checks again is already so: an issuer and a key with names, the same binding, a
      matching digest, admitted claims only. */
  lemma VerifyIsConsistent(w: World, input: Input, policy: IssuerPolicy, keys: Keys)
    ensures var r := Verify(w, input, policy, keys);
            r.Success? ==>
              && r.value.issuer != "" && r.value.keyId != "" && r.value.issuer == policy.issuer
              && r.value.binding == input.binding
              && r.value.digest == EvidenceDigest(w, input.evidenceProfile, input.payload, input.evidence)
              && r.value.claims.Keys <= policy.admittedClaims
  {
    hide ParseObject, ReadEvidence, CheckEvidence, Base64.DecodeBounded, ValidateClaims, EvidenceDigest;
  }
}
