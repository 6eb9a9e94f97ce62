/** When a carrier is accepted: the dates of `src/issuer_verifier.cpp` and `src/direct_verifier.cpp` together. */
module TimeWindow {
  import opened Bytes
  import opened Errors
  import opened Policies
  import opened Carriers
  import CertificateFormat
  import Base64
  import CertificateParser
  import Issuers
  import Utf8

  /** The dates of a credential and of the carrier around it. */
  datatype Window = Window(issuedAt: int, notBefore: Option<int>, expiresAt: int, maximumAge: int,
                           validAfter: nat, validBefore: nat, maximumLifetime: int)

  function Max(a: int, b: int): int {
    if a < b then b else a
  }

  /** The first moment, before the skew is granted. */
  function Opening(d: Window): int {
    Max(Max(d.issuedAt, if d.notBefore.Some? then d.notBefore.value else d.issuedAt), d.validAfter)
  }

  /** From `Opening` to the carrier's end, the skew granted at both ends, as long as the clock fits. */
  predicate Open(d: Window, skew: int, t: int) {
    && Int64(t + skew) && Int64(t - skew)
    && Opening(d) - skew <= t < d.validBefore + skew
  }

  function CredentialEnd(d: Window): int {
    if d.maximumAge > 0 && d.issuedAt + d.maximumAge < d.expiresAt then d.issuedAt + d.maximumAge else d.expiresAt
  }

  /** What has to hold of the dates whatever the time: they are there, and the carrier ends within the
      credential and within its own lifetime. */
  predicate Bounded(d: Window) {
    && (d.maximumAge > 0 ==> Int64(d.issuedAt + d.maximumAge))
    && d.validBefore <= CredentialEnd(d)
    && (d.maximumLifetime > 0 ==> d.validAfter + d.maximumLifetime < UINT64_LIMIT
                                  && d.validBefore <= d.validAfter + d.maximumLifetime)
  }

  function WindowOf(claims: Claims, c: CertificateFormat.Certificate, issuer: IssuerPolicy, carrier: CarrierPolicy)
    : Option<Window>
  {
    var iat, exp, nbf :=
      Issuers.IntegerClaim(claims, "iat"), Issuers.IntegerClaim(claims, "exp"), Issuers.IntegerClaim(claims, "nbf");
    if iat.None? || exp.None? || ("nbf" in claims && nbf.None?) then None
    else Some(Window(iat.value, nbf, exp.value, issuer.maximumAge, c.validAfter, c.validBefore,
                     carrier.maximumLifetime))
  }

  lemma NoOverflow(now: int, skew: int, kind: Kind)
    requires Int64(now) && 0 <= skew <= INT64_MAXIMUM
    ensures Issuers.CheckedAdd(now, skew, kind) == if Int64(now + skew) then Success(now + skew) else Failure(kind)
    ensures Issuers.CheckedAdd(now, -skew, kind) == if Int64(now - skew) then Success(now - skew) else Failure(kind)
  {
  }

  lemma IssuedInInt64(j: Claims, name: string)
    ensures Issuers.IntegerClaim(j, name).Some? ==> Int64(Issuers.IntegerClaim(j, name).value)
  {
  }

  /** What the issuer asks of the time, and of its own dates. */
  predicate IssuerAdmits(d: Window, skew: int, now: int) {
    && Int64(now + skew) && Int64(now - skew)
    && d.issuedAt <= now + skew && (d.notBefore.Some? ==> d.notBefore.value <= now + skew)
    && (d.maximumAge > 0 ==> Int64(d.issuedAt + d.maximumAge))
    && now - skew < d.expiresAt && now - skew < CredentialEnd(d)
  }

  lemma IssuerDates(claims: Claims, c: CertificateFormat.Certificate, issuer: IssuerPolicy, carrier: CarrierPolicy,
                    now: int)
    requires Int64(now) && 0 <= issuer.skew <= INT64_MAXIMUM && 0 <= issuer.maximumAge <= INT64_MAXIMUM
    ensures var d, until := WindowOf(claims, c, issuer, carrier), Issuers.CheckDates(now, issuer, claims);
            && (until.Success? <==> d.Some? && IssuerAdmits(d.value, issuer.skew, now))
            && (until.Success? ==> until.value == CredentialEnd(d.value))
  {
    hide Issuers.IntegerClaim, Issuers.CheckedAdd;
    NoOverflow(now, issuer.skew, IssuerClaimsInvalid);
    IssuedInInt64(claims, "iat");
    var iat := Issuers.IntegerClaim(claims, "iat");
    if iat.Some? && issuer.maximumAge > 0 {
      NoOverflow(iat.value, issuer.maximumAge, IssuerClaimsInvalid);
    }
  }

  lemma CarrierDates(d: Window, c: CertificateFormat.Certificate, carrier: CarrierPolicy, now: int)
    requires Int64(now) && 0 <= carrier.skew <= INT64_MAXIMUM && 0 <= carrier.maximumLifetime
    requires d.validAfter == c.validAfter && d.validBefore == c.validBefore
             && d.maximumLifetime == carrier.maximumLifetime
    ensures var skew := carrier.skew;
            CheckValidity(now, c, carrier, CredentialEnd(d)).Success?
            <==> (&& Int64(now + skew) && Int64(now - skew)
                  && d.validAfter <= now + skew && now - skew < d.validBefore
                  && CredentialEnd(d) >= 0 && d.validBefore <= CredentialEnd(d)
                  && (d.maximumLifetime > 0 ==> d.validAfter + d.maximumLifetime < UINT64_LIMIT
                                                && d.validBefore <= d.validAfter + d.maximumLifetime))
  {
    hide Issuers.CheckedAdd, CredentialEnd;
    NoOverflow(now, carrier.skew, SshIdentityNotYetValid);
    NoOverflow(now, carrier.skew, SshIdentityExpired);
  }

  /** The issuer's dates and the carrier's, together. */
  lemma DatesAreTheWindow(claims: Claims, c: CertificateFormat.Certificate, issuer: IssuerPolicy,
                          carrier: CarrierPolicy, now: int)
    requires Int64(now) && 0 <= issuer.skew == carrier.skew <= INT64_MAXIMUM
    requires 0 <= issuer.maximumAge <= INT64_MAXIMUM && 0 <= carrier.maximumLifetime
    ensures var d := WindowOf(claims, c, issuer, carrier);
            var until := Issuers.CheckDates(now, issuer, claims);
            && (until.Success? && CheckValidity(now, c, carrier, until.value).Success?
                <==> d.Some? && Bounded(d.value) && Open(d.value, issuer.skew, now))
            && (until.Success? ==> d.Some? && until.value == CredentialEnd(d.value))
  {
    hide Issuers.CheckDates, CheckValidity;
    IssuerDates(claims, c, issuer, carrier, now);
    var d := WindowOf(claims, c, issuer, carrier);
    if d.Some? {
      CarrierDates(d.value, c, carrier, now);
    }
  }

  /** Where the carrier is within its dates and ends within the credential, the issuer's expiry and age
      checks have nothing left to refuse. */
  lemma ExpiryIsImplied(d: Window, skew: int, t: int)
    requires 0 <= skew && Bounded(d) && Open(d, skew, t)
    ensures t - skew < d.expiresAt
    ensures d.maximumAge > 0 ==> t - skew < d.issuedAt + d.maximumAge
  {
  }

  /** The authenticated claims of a token, found without looking at the time. */
  function ClaimsOf(w: World, token: Bytes, policy: CorePolicy, keys: Keys): Result<Claims> {
    var t :- OpenToken(w, token, policy);
    var (claims, kid) :- Issuers.Authenticate(w, IssuerInput(t, 0), policy.issuerPolicy, keys);
    Success(claims)
  }

  lemma AuthenticationIsTimeless(w: World, t: OpenedToken, policy: IssuerPolicy, keys: Keys, now: int)
    ensures Issuers.Authenticate(w, IssuerInput(t, now), policy, keys)
            == Issuers.Authenticate(w, IssuerInput(t, 0), policy, keys)
    ensures Issuers.Authenticate(w, IssuerInput(t, now), policy, keys).Success? ==>
              policy.skew >= 0 && policy.maximumAge >= 0
  {
    hide Base64.DecodeBounded, Issuers.ParseObject, Issuers.ResolveKey, Issuers.ParseStandard, Issuers.GqHeader,
         Issuers.VerifyGq, Issuers.ParseHeader;
    assert Issuers.ReadEvidence(IssuerInput(t, now)) == Issuers.ReadEvidence(IssuerInput(t, 0));
    forall e
      ensures Issuers.CheckHeader(w, IssuerInput(t, now), policy, e)
              == Issuers.CheckHeader(w, IssuerInput(t, 0), policy, e)
    {
    }
    forall h, s, k
      ensures Issuers.CheckEvidence(w, IssuerInput(t, now), policy, h, s, k)
           == Issuers.CheckEvidence(w, IssuerInput(t, 0), policy, h, s, k)
    {
    }
  }

  /** A token verifies at a time exactly when it does apart from time and its dates admit the time. */
  lemma TokenAtTime(w: World, token: Bytes, policy: CorePolicy, keys: Keys, now: int)
    ensures var r := VerifyToken(w, token, policy, keys, now);
            var t, claims := OpenToken(w, token, policy), ClaimsOf(w, token, policy, keys);
            && (r.Success? <==>
                  (&& claims.Success? && CheckCaller(w, t.value).Success?
                   && Issuers.CheckIdentity(t.value.cic.binding, t.value.commitment, policy.issuerPolicy,
                                            claims.value).Success?
                   && Issuers.CheckDates(now, policy.issuerPolicy, claims.value).Success?))
            && (r.Success? ==>
                  && r.value.validUntil == Issuers.CheckDates(now, policy.issuerPolicy, claims.value).value
                  && r.value.claims == Issuers.Admitted(claims.value, policy.issuerPolicy.admittedClaims)
                  && r.value.issuer == policy.issuerPolicy.issuer
                  && r.value.algorithm == t.value.cic.algorithm && r.value.publicKey == t.value.cic.publicKey
                  && r.value.binding == t.value.cic.binding && r.value.evidence == t.value.cic.evidence
                  && r.value.commitment == t.value.commitment)
  {
    hide OpenToken, Issuers.Authenticate, Issuers.CheckIdentity, Issuers.CheckDates, CheckCaller, Consistent,
         Issuers.EvidenceDigest;
    var t := OpenToken(w, token, policy);
    if t.Success? {
      AuthenticationIsTimeless(w, t.value, policy.issuerPolicy, keys, now);
      IssuerResultIsConsistent(w, t.value, policy.issuerPolicy, keys, now);
    }
  }

  /** Everything fixed but the clock. */
  datatype Request = Request(blob: Bytes, keyType: Bytes, user: string, core: CorePolicy, carrier: CarrierPolicy,
                             accounts: Accounts, keys: Keys, limits: CertificateFormat.Limits)

  function Outcome(w: World, q: Request, now: int): Result<CarrierResult> {
    VerifyCarrier(w, CarrierInput(q.blob, q.keyType, q.user, now), q.core, q.carrier, q.accounts, q.keys, q.limits)
  }

  /** The dates of a request that is accepted at some time. */
  function DatesOf(w: World, q: Request): Option<Window> {
    var c := OpenCarrier(CarrierInput(q.blob, q.keyType, q.user, 0), q.carrier, q.limits);
    if c.Failure? then None
    else
      var claims := ClaimsOf(w, c.value.token, q.core, q.keys);
      if claims.Failure? then None else WindowOf(claims.value, c.value, q.core.issuerPolicy, q.carrier)
  }

  /** One skew for issuer and carrier, in 64 bits, as the configuration sets it. */
  predicate OneSkew(q: Request) {
    q.core.issuerPolicy.skew == q.carrier.skew <= INT64_MAXIMUM && q.core.issuerPolicy.maximumAge <= INT64_MAXIMUM
  }

  lemma OpeningIsTimeless(q: Request, now: int)
    ensures OpenCarrier(CarrierInput(q.blob, q.keyType, q.user, now), q.carrier, q.limits)
         == OpenCarrier(CarrierInput(q.blob, q.keyType, q.user, 0), q.carrier, q.limits)
    ensures OpenCarrier(CarrierInput(q.blob, q.keyType, q.user, now), q.carrier, q.limits).Success? ==>
              q.carrier.skew >= 0 && q.carrier.maximumLifetime >= 0
  {
    hide CertificateParser.ParseCertificate, Utf8.ValidName;
  }

  /** If a request is accepted at some time, it is accepted at exactly the times of its window, always with
      the same result. */
  lemma AcceptedTimesAreTheWindow(w: World, q: Request, once: int, now: int)
    requires OneSkew(q) && Int64(once) && Int64(now) && Outcome(w, q, once).Success?
    ensures DatesOf(w, q).Some? && Bounded(DatesOf(w, q).value)
    ensures Outcome(w, q, now).Success? <==> Open(DatesOf(w, q).value, q.carrier.skew, now)
    ensures Outcome(w, q, now).Success? ==> Outcome(w, q, now) == Outcome(w, q, once)
  {
    hide OpenCarrier, VerifyToken, CheckKey, CheckValidity, CheckSubject, ClaimsOf, WindowOf, Bounded, Open,
         Issuers.CheckDates, Issuers.CheckIdentity, CheckCaller, OpenToken;
    OpeningIsTimeless(q, once);
    OpeningIsTimeless(q, now);
    var c := OpenCarrier(CarrierInput(q.blob, q.keyType, q.user, 0), q.carrier, q.limits).value;
    TokenAtTime(w, c.token, q.core, q.keys, once);
    TokenAtTime(w, c.token, q.core, q.keys, now);
    var claims := ClaimsOf(w, c.token, q.core, q.keys).value;
    PolicyIsSound(w, c.token, q);
    DatesAreTheWindow(claims, c, q.core.issuerPolicy, q.carrier, once);
    DatesAreTheWindow(claims, c, q.core.issuerPolicy, q.carrier, now);
  }

  lemma PolicyIsSound(w: World, token: Bytes, q: Request)
    ensures ClaimsOf(w, token, q.core, q.keys).Success? ==>
              q.core.issuerPolicy.skew >= 0 && q.core.issuerPolicy.maximumAge >= 0
  {
    hide OpenToken, Issuers.Authenticate;
    var t := OpenToken(w, token, q.core);
    if t.Success? {
      AuthenticationIsTimeless(w, t.value, q.core.issuerPolicy, q.keys, 0);
    }
  }
}
