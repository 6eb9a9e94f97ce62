/** What a carrier is accepted for: the checks of `src/direct_verifier.cpp` as conditions on the certificate, the token
    in it and the account rules. */
module CarrierAcceptance {
  import opened Bytes
  import opened Carriers
  import opened Errors
  import opened IssuerAcceptance
  import opened JsonTrees
  import opened Policies
  import Base64
  import CertificateFormat
  import CertificateParser
  import CoreEnvelope
  import Issuers
  import Preimages
  import Utf8

  // ---- the token

  /** The unpadded text of the digest of a preimage. */
  function DigestText(w: World, p: Preimages.Preimage): string {
    Chars(Base64.Encode(w.sha256(Preimages.Encode(p)), Base64.UrlSafe))
  }

  /** The octets of an envelope with these four strings. */
  ghost predicate Envelops(w: World, token: Bytes, envelope: CoreEnvelope.Envelope) {
    |token| <= 32768 && exists root: Node :: w.json(token) == Document(root) && CoreEnvelope.IsEnvelope(root, envelope)
  }

  /** The token taken apart: its strings decode within their bounds, and the header is the caller's context. */
  ghost predicate Opened(w: World, token: Bytes, policy: CorePolicy, t: OpenedToken) {
    && 0 < policy.maxTokenBytes <= 32768 && 0 < policy.maxEvidenceBytes <= 16384 && |token| <= policy.maxTokenBytes
    && policy.callerAlgorithms != {} && Envelops(w, token, t.envelope)
    && (exists payload: Bytes :: Spells(Octets(t.envelope.payload), payload, 32768))
    && Spells(Octets(t.envelope.signature), t.signature, 128)
    && Spells(Octets(t.envelope.evidence), t.evidence, policy.maxEvidenceBytes)
    && exists header: Bytes ::
         && Spells(Octets(t.envelope.protectedHeader), header, 8192) && w.cic(header, policy) == Success(t.cic)
         && t.commitment == DigestText(w, Preimages.Cic(header))
  }

  lemma SpellsIsDecoded(text: Bytes, octets: Bytes, maximum: nat)
    ensures Base64.DecodeBounded(text, maximum) == Success(octets) <==> Spells(text, octets, maximum)
  {
    hide Base64.DecodeBounded, Base64.Encode;
    Base64.DecodeBoundedIsCanonical(text, maximum, octets);
  }

  lemma EnvelopsExactly(w: World, token: Bytes, envelope: CoreEnvelope.Envelope)
    ensures ParseEnvelope(w, token) == Success(envelope) <==> Envelops(w, token, envelope)
  {
    hide CoreEnvelope.Parse, Events, CoreEnvelope.IsEnvelope, CoreEnvelope.Run;
    if w.json(token).Document? {
      CoreEnvelope.ParseAcceptsExactlyEnvelopes(w.json(token).root, envelope, ENVELOPE_LIMITS);
    }
  }

  lemma OpenedExactly(w: World, token: Bytes, policy: CorePolicy, t: OpenedToken)
    ensures OpenToken(w, token, policy) == Success(t) <==> Opened(w, token, policy, t)
  {
    hide ParseEnvelope, Envelops, Base64.DecodeBounded, Spells, DigestText;
    EnvelopsExactly(w, token, t.envelope);
    var e := t.envelope;
    forall octets: Bytes
      ensures Base64.DecodeBounded(Octets(e.payload), 32768) == Success(octets)
         <==> Spells(Octets(e.payload), octets, 32768)
      ensures Base64.DecodeBounded(Octets(e.protectedHeader), 8192) == Success(octets) <==>
                Spells(Octets(e.protectedHeader), octets, 8192)
    {
      SpellsIsDecoded(Octets(e.payload), octets, 32768);
      SpellsIsDecoded(Octets(e.protectedHeader), octets, 8192);
    }
    SpellsIsDecoded(Octets(e.signature), t.signature, 128);
    SpellsIsDecoded(Octets(e.evidence), t.evidence, policy.maxEvidenceBytes);
    CommitmentsAreDigests(w);
  }

  lemma CommitmentsAreDigests(w: World)
    ensures forall header: Bytes :: Commitment(w, header) == DigestText(w, Preimages.Cic(header))
  {
  }

  /** What an accepted token says of its caller. */
  ghost predicate Attests(core: CoreResult, t: OpenedToken, policy: IssuerPolicy, claims: Claims) {
    && core.issuer == policy.issuer && core.algorithm == t.cic.algorithm && core.publicKey == t.cic.publicKey
    && core.binding == t.cic.binding && core.evidence == t.cic.evidence && core.commitment == t.commitment
    && (forall n :: n in core.claims <==> n in claims && n in policy.admittedClaims)
    && forall n :: n in core.claims ==> core.claims[n] == claims[n]
  }

  /** The issuer authenticates the payload, bound to the digest of the caller's context. */
  ghost predicate IssuerAccepts(w: World, t: OpenedToken, policy: IssuerPolicy, keys: Keys, now: int, claims: Claims,
                                until: int)
  {
    && (exists kid: string ::
          var input := Issuers.Input(t.cic.evidence, t.cic.binding, t.commitment, t.envelope.payload, t.evidence, now);
          Authentic(w, input, policy, keys, claims, kid))
    && Identified(t.cic.binding, t.commitment, policy, claims) && ValidAt(now, policy, claims, until)
  }

  /** The caller's signature over header and payload. */
  ghost predicate Signed(w: World, t: OpenedToken) {
    && |t.signature| == 64
    && w.callerSignature(t.cic, Octets(t.envelope.protectedHeader) + [46] + Octets(t.envelope.payload),
                         t.signature).Success?
  }

  lemma IssuerExactly(w: World, t: OpenedToken, policy: IssuerPolicy, keys: Keys, now: int, core: CoreResult)
    requires Int64(now) && policy.skew <= INT64_MAXIMUM && policy.maximumAge <= INT64_MAXIMUM
    ensures (exists r: Issuers.VerificationResult ::
               Issuers.Verify(w, IssuerInput(t, now), policy, keys) == Success(r) && core == CoreOf(t, r))
            <==> exists claims: Claims ::
                   IssuerAccepts(w, t, policy, keys, now, claims, core.validUntil) && Attests(core, t, policy, claims)
  {
    hide Issuers.Verify, Authentic, Identified, ValidAt, Preimages.Encode;
    var v := Issuers.Verify(w, IssuerInput(t, now), policy, keys);
    if v.Success? && core == CoreOf(t, v.value) {
      VerifyExactly(w, IssuerInput(t, now), policy, keys, v.value);
      var input, r := IssuerInput(t, now), v.value;
      var claims: Claims :|
        && Authentic(w, input, policy, keys, claims, r.keyId)
        && Identified(input.binding, input.commitment, policy, claims)
        && ValidAt(input.now, policy, claims, r.validUntil) && Yields(w, input, policy, claims, r);
      assert IssuerAccepts(w, t, policy, keys, now, claims, core.validUntil) && Attests(core, t, policy, claims);
    }
    forall claims: Claims |
        IssuerAccepts(w, t, policy, keys, now, claims, core.validUntil) && Attests(core, t, policy, claims)
      ensures v.Success? && core == CoreOf(t, v.value)
    {
      var kid: string :| Authentic(w, IssuerInput(t, now), policy, keys, claims, kid);
      var digest := w.sha256(Preimages.Encode(
                      Preimages.Evidence(Octets(t.cic.evidence), Octets(t.envelope.payload), t.evidence)));
      var r := Issuers.VerificationResult(policy.issuer, kid, t.cic.binding, core.claims, core.validUntil, digest);
      VerifyExactly(w, IssuerInput(t, now), policy, keys, r);
    }
  }

  /** A token is accepted if and only if it opens, the issuer accepts it for the digest of the caller's context, and
      the caller has signed it. */
  ghost predicate TokenAccepted(w: World, token: Bytes, policy: CorePolicy, keys: Keys, now: int, core: CoreResult) {
    exists t: OpenedToken, claims: Claims ::
      && Opened(w, token, policy, t) && Signed(w, t)
      && IssuerAccepts(w, t, policy.issuerPolicy, keys, now, claims, core.validUntil)
      && Attests(core, t, policy.issuerPolicy, claims)
  }

  lemma SignedExactly(w: World, t: OpenedToken)
    ensures CheckCaller(w, t).Success? <==> Signed(w, t)
  {
    assert Ascii(".") == [46];
  }

  lemma TokenExactly(w: World, token: Bytes, policy: CorePolicy, keys: Keys, now: int, core: CoreResult)
    requires Int64(now) && policy.issuerPolicy.skew <= INT64_MAXIMUM && policy.issuerPolicy.maximumAge <= INT64_MAXIMUM
    ensures VerifyToken(w, token, policy, keys, now) == Success(core) <==>
              TokenAccepted(w, token, policy, keys, now, core)
  {
    hide OpenToken, Opened, Issuers.Verify, CheckCaller, Signed, IssuerAccepts, Attests, CoreOf, Consistent;
    var open := OpenToken(w, token, policy);
    forall t: OpenedToken ensures open == Success(t) <==> Opened(w, token, policy, t) {
      OpenedExactly(w, token, policy, t);
    }
    if open.Success? {
      var t := open.value;
      SignedExactly(w, t);
      IssuerExactly(w, t, policy.issuerPolicy, keys, now, core);
      IssuerResultIsConsistent(w, t, policy.issuerPolicy, keys, now);
    }
  }

  // ---- the carrier

  /** A predicate of an account rule, operation by operation. */
  ghost predicate Satisfies(claims: Claims, p: Predicate) {
    && p.claim != "" && p.claim in claims
    && match p.operation
       case StringEquals => p.values == [] && claims[p.claim] == Value(Text(p.value))
       case StringOneOf =>
         && p.value == "" && "" !in p.values && (forall i, k :: 0 <= i < k < |p.values| ==> p.values[i] != p.values[k])
         && exists v :: v in p.values && claims[p.claim] == Value(Text(v))
       case StringArrayContains =>
         p.values == [] && exists texts: seq<string> :: IsTextSet(claims[p.claim], texts) && p.value in texts
  }

  lemma SatisfiesExactly(claims: Claims, p: Predicate)
    ensures AccountPredicateMatches(claims, p) <==> Satisfies(claims, p)
  {
    hide IsTextSet;
    if p.claim in claims {
      var j := claims[p.claim];
      if StringOf(j).Some? {
        assert j == Value(Text(StringOf(j).value));
      }
      forall texts: seq<string>
        ensures IsTextSet(j, texts) <==>
                  j.Array? && AllStrings(j.elements) && StringsOf(j.elements) == texts && Unrepeated(texts)
      {
        TextSetExactly(j, texts);
      }
    }
  }

  /** Some rule of the user is about this issuer, all its predicates are met, and it allows every permission. */
  ghost predicate Authorized(accounts: Accounts, user: string, core: CoreResult, permissions: seq<Bytes>) {
    && user != "" && user in accounts
    && exists rule: AccountRule ::
         && rule in accounts[user] && rule.issuer != "" && rule.issuer == core.issuer
         && (forall p :: p in rule.all ==> Satisfies(core.claims, p))
         && forall i :: 0 <= i < |permissions| ==> Chars(permissions[i]) in rule.extensions
  }

  lemma AuthorizedExactly(accounts: Accounts, user: string, core: CoreResult, c: CertificateFormat.Certificate)
    ensures AccountAllows(accounts, user, core.issuer, core.claims, PermissionNames(c)) <==>
              Authorized(accounts, user, core, c.permissions)
  {
    hide AccountPredicateMatches, Satisfies;
    var permissions, extensions := c.permissions, PermissionNames(c);
    if user in accounts {
      forall rule: AccountRule | rule in accounts[user]
        ensures AccountRuleMatches(rule, core.issuer, core.claims, extensions) <==>
                  && rule.issuer != "" && rule.issuer == core.issuer
                  && (forall p :: p in rule.all ==> Satisfies(core.claims, p))
                  && forall i :: 0 <= i < |permissions| ==> Chars(permissions[i]) in rule.extensions
      {
        forall p | p in rule.all ensures AccountPredicateMatches(core.claims, p) <==> Satisfies(core.claims, p) {
          SatisfiesExactly(core.claims, p);
        }
        assert forall i :: 0 <= i < |permissions| ==>
                             extensions[i] == Chars(permissions[i]) && extensions[i] in extensions;
      }
    }
  }

  /** The principal of the subject that the claim names. */
  ghost predicate IsPrincipal(w: World, core: CoreResult, claim: string, principal: string) {
    && claim != ""
    && exists subject: string ::
         && TextMember(core.claims, claim, subject) && 0 < |subject| <= 32768
         && principal
            == "credbind-v1-" + DigestText(w, Preimages.Principal(Octets(core.issuer), Octets(claim), Octets(subject)))
  }

  lemma PrincipalExactly(w: World, core: CoreResult, claim: string, principal: string)
    ensures Principal(w, core.issuer, core.claims, claim) == Success(principal) <==>
              IsPrincipal(w, core, claim, principal)
  {
    hide Preimages.Encode, Base64.Encode;
    var subject := StringMember(core.claims, claim);
    if subject.Some? {
      StringMemberExactly(core.claims, claim, subject.value);
    }
    forall text: string | TextMember(core.claims, claim, text) ensures subject == Some(text) {
      StringMemberExactly(core.claims, claim, text);
    }
  }

  /** The certificate's dates admit the time, and end within the credential and the configured lifetime. */
  predicate CarrierDated(now: int, c: CertificateFormat.Certificate, policy: CarrierPolicy, until: int) {
    && Int64(now + policy.skew) && Int64(now - policy.skew)
    && c.validAfter <= now + policy.skew && now - policy.skew < c.validBefore
    && 0 <= until && c.validBefore <= until
    && (policy.maximumLifetime > 0 ==>
          && c.validAfter + policy.maximumLifetime < 0x1_0000_0000_0000_0000
          && c.validBefore <= c.validAfter + policy.maximumLifetime)
  }

  lemma CarrierDatedExactly(now: int, c: CertificateFormat.Certificate, policy: CarrierPolicy, until: int)
    requires Int64(now) && 0 <= policy.skew <= INT64_MAXIMUM && 0 <= policy.maximumLifetime
    ensures CheckValidity(now, c, policy, until).Success? <==> CarrierDated(now, c, policy, until)
  {
    hide Issuers.CheckedAdd;
    AddExactly(now, policy.skew, SshIdentityNotYetValid);
    AddExactly(now, -policy.skew, SshIdentityExpired);
  }

  function CertificateType(a: CertificateFormat.Algorithm): Bytes {
    match a
    case Es256 => Ascii("ecdsa-sha2-nistp256-cert-v01@openssh.com")
    case Ed25519 => Ascii("ssh-ed25519-cert-v01@openssh.com")
  }

  function KeyType(a: CertificateFormat.Algorithm): Bytes {
    match a
    case Es256 => Ascii("ecdsa-sha2-nistp256")
    case Ed25519 => Ascii("ssh-ed25519")
  }

  /** The blob is a well-formed certificate of the announced type, for a user with a name. */
  ghost predicate Carries(input: CarrierInput, policy: CarrierPolicy, limits: CertificateFormat.Limits,
                          c: CertificateFormat.Certificate)
  {
    && policy.skew >= 0 && policy.maximumLifetime >= 0 && Utf8.IsName(Octets(input.user))
    && input.keyType == CertificateType(c.algorithm)
    && exists nonce: Bytes ::
         CertificateFormat.WellFormed(c, nonce, limits) && CertificateFormat.EncodeCertificate(c, nonce) == input.blob
  }

  lemma CarriesExactly(input: CarrierInput, policy: CarrierPolicy, limits: CertificateFormat.Limits,
                       c: CertificateFormat.Certificate)
    ensures OpenCarrier(input, policy, limits) == Success(c) <==> Carries(input, policy, limits, c)
  {
    hide CertificateParser.ParseCertificate, CertificateFormat.WellFormed, CertificateFormat.EncodeCertificate,
         Utf8.ValidName, Utf8.IsName;
    Utf8.ValidNameIsName(Octets(input.user));
    CertificateParser.ParseIsInverseOfEncode(input.blob, limits, c);
    TypesAreNamed(c.algorithm);
    var parsed := CertificateParser.ParseCertificate(input.blob, limits);
    assert (exists nonce: Bytes :: parsed == Success((c, nonce))) <==> parsed.Success? && parsed.value.0 == c by {
      if parsed.Success? && parsed.value.0 == c {
        assert parsed == Success((c, parsed.value.1));
      }
    }
  }

  lemma TypesAreNamed(a: CertificateFormat.Algorithm)
    ensures CertificateFormat.TypeName(a) == CertificateType(a) && CertificateType(a) != []
    ensures CertificateFormat.KeyName(a) == KeyType(a)
  {
  }

  /** A carrier is accepted with a result if and only if its blob is a certificate whose token is accepted, it certifies
      the caller's own key and is signed, its dates hold, its only principal is the subject's, a rule of the user allows
      it, and the result is what certificate and token say. */
  ghost predicate CarrierAccepted(w: World, input: CarrierInput, core: CorePolicy, carrier: CarrierPolicy,
                                  accounts: Accounts, keys: Keys, limits: CertificateFormat.Limits, r: CarrierResult)
  {
    exists c: CertificateFormat.Certificate ::
      && Carries(input, carrier, limits, c)
      && TokenAccepted(w, c.token, core, keys, input.now, r.core)
      && w.carrierSignature(c, c.algorithm).Success?
      && c.algorithm == r.core.algorithm && c.certifiedKey == r.core.publicKey
      && CarrierDated(input.now, c, carrier, r.core.validUntil)
      && IsPrincipal(w, r.core, carrier.principalClaim, r.principal) && c.principals == [Octets(r.principal)]
      && Authorized(accounts, input.user, r.core, c.permissions)
      && r.caKeyType == KeyType(r.core.algorithm) && r.caKey == Base64.Encode(c.signatureKey, Base64.Standard)
  }

  lemma SubjectExactly(w: World, c: CertificateFormat.Certificate, core: CoreResult, policy: CarrierPolicy,
                       accounts: Accounts, user: string, r: CarrierResult)
    ensures CheckSubject(w, c, core, policy, accounts, user) == Success(r) <==>
              && r.core == core && IsPrincipal(w, core, policy.principalClaim, r.principal)
              && c.principals == [Octets(r.principal)] && Authorized(accounts, user, core, c.permissions)
              && r.caKeyType == KeyType(core.algorithm) && r.caKey == Base64.Encode(c.signatureKey, Base64.Standard)
  {
    hide Principal, IsPrincipal, AccountAllows, Authorized, Base64.Encode, PermissionNames, Octets, KeyType;
    PrincipalExactly(w, core, policy.principalClaim, r.principal);
    var principal := Principal(w, core.issuer, core.claims, policy.principalClaim);
    if principal.Success? {
      PrincipalExactly(w, core, policy.principalClaim, principal.value);
    }
    AuthorizedExactly(accounts, user, core, c);
    TypesAreNamed(core.algorithm);
    if |c.principals| == 1 {
      assert c.principals == [c.principals[0]];
    }
  }

  lemma CarrierExactly(w: World, input: CarrierInput, core: CorePolicy, carrier: CarrierPolicy, accounts: Accounts,
                       keys: Keys, limits: CertificateFormat.Limits, r: CarrierResult)
    requires Int64(input.now) && carrier.skew <= INT64_MAXIMUM
    requires core.issuerPolicy.skew <= INT64_MAXIMUM && core.issuerPolicy.maximumAge <= INT64_MAXIMUM
    ensures VerifyCarrier(w, input, core, carrier, accounts, keys, limits) == Success(r) <==>
              CarrierAccepted(w, input, core, carrier, accounts, keys, limits, r)
  {
    hide OpenCarrier, Carries, VerifyToken, TokenAccepted, CheckValidity, CarrierDated, CheckSubject, IsPrincipal,
         Authorized, Base64.Encode, Octets, KeyType;
    var open := OpenCarrier(input, carrier, limits);
    forall c: CertificateFormat.Certificate ensures open == Success(c) <==> Carries(input, carrier, limits, c) {
      CarriesExactly(input, carrier, limits, c);
    }
    if open.Success? {
      var c := open.value;
      CarriesSoundly(input, carrier, limits, c);
      TokenExactly(w, c.token, core, keys, input.now, r.core);
      var token := VerifyToken(w, c.token, core, keys, input.now);
      if token.Success? {
        CarrierDatedExactly(input.now, c, carrier, token.value.validUntil);
        SubjectExactly(w, c, token.value, carrier, accounts, input.user, r);
      }
    }
  }

  lemma CarriesSoundly(input: CarrierInput, policy: CarrierPolicy, limits: CertificateFormat.Limits,
                       c: CertificateFormat.Certificate)
    requires Carries(input, policy, limits, c)
    ensures policy.skew >= 0 && policy.maximumLifetime >= 0
  {
  }
}
