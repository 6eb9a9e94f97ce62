/** What the output of a run says to its reader: the line of `src/command.cpp`, read back from an authorized keys
    file. */
module PrintedLines {
  import opened AuthorizedKeys
  import opened Bytes
  import opened CarrierAcceptance
  import opened Errors
  import opened Pipeline
  import opened Policies
  import Audit
  import Base64
  import Base64Letters
  import Carriers
  import CertificateFormat
  import Configurations
  import Preimages

  // ---- words

  lemma EncodedIsWord(x: Bytes, alphabet: Base64.Alphabet)
    requires x != []
    ensures OneWord(Chars(Base64.Encode(x, alphabet))) && ',' !in Chars(Base64.Encode(x, alphabet))
  {
    hide Base64.Encode;
    var t := Base64.Encode(x, alphabet);
    EncodedIsNotEmpty(x, alphabet);
    Base64Letters.EncodedOctets(x, alphabet);
    forall c: char | c in Chars(t) ensures '+' <= c <= 'z' && c != ',' {
      var i :| 0 <= i < |t| && Chars(t)[i] == c;
      assert t[i] in t;
    }
  }

  lemma EncodedIsNotEmpty(x: Bytes, alphabet: Base64.Alphabet)
    requires x != []
    ensures Base64.Encode(x, alphabet) != []
  {
    hide Base64.Encode;
    Base64.EncodeLength(x, alphabet);
  }

  lemma PrincipalIsWord(w: World, core: Carriers.CoreResult, claim: string, principal: string)
    requires IsPrincipal(w, core, claim, principal)
    ensures OneWord(principal) && ',' !in principal
  {
    hide Base64.Encode, Preimages.Encode, OneWord, Octets, Chars;
    var subject: string :|
      principal
      == "credbind-v1-" + DigestText(w, Preimages.Principal(Octets(core.issuer), Octets(claim), Octets(subject)));
    var preimage := Preimages.Principal(Octets(core.issuer), Octets(claim), Octets(subject));
    EncodedIsWord(w.sha256(Preimages.Encode(preimage)), Base64.UrlSafe);
    PrefixIsWord();
    JoinedWords("credbind-v1-", DigestText(w, preimage));
  }

  lemma PrefixIsWord()
    ensures OneWord("credbind-v1-") && ',' !in "credbind-v1-"
  {
  }

  lemma JoinedWords(a: string, b: string)
    requires OneWord(a) && OneWord(b) && ',' !in a && ',' !in b
    ensures OneWord(a + b) && ',' !in a + b
  {
  }

  lemma TypeIsWord(a: CertificateFormat.Algorithm)
    ensures OneWord(Chars(KeyType(a)))
    ensures Chars(KeyType(a)) == if a.Es256? then "ecdsa-sha2-nistp256" else "ssh-ed25519"
  {
  }

  lemma OctetsOfChars(b: Bytes)
    ensures Octets(Chars(b)) == b
  {
  }

  // ---- the line of a result

  /** The line is read as an authority for the result's key, restricted to its principal. */
  ghost predicate IsRead(r: Carriers.CarrierResult) {
    && ReadLine(Line(r))
       == Some(Entry([Flag("cert-authority"), Quoted("principals", r.principal)], Chars(r.caKeyType), Chars(r.caKey)))
    && ',' !in r.principal && OneWord(r.principal)
  }

  /** A certificate's authority, as an entry: its signature key in base64, for one of its principals. */
  ghost predicate Trusts(entry: Entry, c: CertificateFormat.Certificate, principal: string) {
    && entry.options == [Flag("cert-authority"), Quoted("principals", principal)]
    && entry.keyType == (if c.algorithm.Es256? then "ecdsa-sha2-nistp256" else "ssh-ed25519")
    && forall maximum: nat | |c.signatureKey| <= maximum ::
         Base64.DecodeOffered(Octets(entry.key), maximum) == Success(c.signatureKey)
  }

  /** The entry a carrier leads to: its certificate's authority, for the principal of the authenticated subject. */
  ghost predicate Vouches(w: World, input: Carriers.CarrierInput, policy: CarrierPolicy,
                          limits: CertificateFormat.Limits, core: Carriers.CoreResult, entry: Entry)
  {
    exists c: CertificateFormat.Certificate, principal: string ::
      && Carries(input, policy, limits, c) && c.algorithm == core.algorithm
      && IsPrincipal(w, core, policy.principalClaim, principal) && c.principals == [Octets(principal)]
      && Trusts(entry, c, principal)
  }

  /** What a result of the direct verifier says about the certificate it came from. */
  ghost predicate ComesFrom(w: World, input: Carriers.CarrierInput, policy: CarrierPolicy,
                            limits: CertificateFormat.Limits, r: Carriers.CarrierResult,
                            c: CertificateFormat.Certificate)
  {
    && Carries(input, policy, limits, c) && c.algorithm == r.core.algorithm
    && IsPrincipal(w, r.core, policy.principalClaim, r.principal) && c.principals == [Octets(r.principal)]
    && r.caKeyType == KeyType(c.algorithm) && r.caKey == Base64.Encode(c.signatureKey, Base64.Standard)
    && c.signatureKey != []
  }

  lemma ResultComesFrom(w: World, input: Carriers.CarrierInput, core: CorePolicy, policy: CarrierPolicy,
                        accounts: Accounts, keys: Keys, limits: CertificateFormat.Limits, r: Carriers.CarrierResult)
    requires Carriers.VerifyCarrier(w, input, core, policy, accounts, keys, limits) == Success(r)
    ensures exists c: CertificateFormat.Certificate :: ComesFrom(w, input, policy, limits, r, c)
  {
    hide Carriers.OpenCarrier, Carries, Carriers.VerifyToken, Carriers.CheckValidity, Carriers.CheckSubject,
         IsPrincipal, Authorized, Base64.Encode, KeyType, Octets;
    var c := Carriers.OpenCarrier(input, policy, limits).value;
    CarriesExactly(input, policy, limits, c);
    SignatureKeyIsThere(input, policy, limits, c);
    SubjectExactly(w, c, r.core, policy, accounts, input.user, r);
    var token := Carriers.VerifyToken(w, c.token, core, keys, input.now).value;
    SubjectExactly(w, c, token, policy, accounts, input.user, r);
    assert ComesFrom(w, input, policy, limits, r, c);
  }

  lemma SignatureKeyIsThere(input: Carriers.CarrierInput, policy: CarrierPolicy, limits: CertificateFormat.Limits,
                            c: CertificateFormat.Certificate)
    requires Carries(input, policy, limits, c)
    ensures c.signatureKey != []
  {
    hide CertificateFormat.EncodeCertificate, CertificateFormat.IsKeyBlob, CertificateFormat.IsSignature,
         CertificateFormat.SignedOctets, CertificateFormat.WellFormedIdentity, CertificateFormat.WellFormedTerms;
    assert CertificateFormat.IsKeyBlob(c.signatureKey, c.algorithm);
    BlobIsThere(c.signatureKey, c.algorithm);
  }

  lemma BlobIsThere(blob: Bytes, a: CertificateFormat.Algorithm)
    requires CertificateFormat.IsKeyBlob(blob, a)
    ensures blob != []
  {
  }

  lemma LineIsRead(w: World, input: Carriers.CarrierInput, policy: CarrierPolicy, limits: CertificateFormat.Limits,
                   r: Carriers.CarrierResult, c: CertificateFormat.Certificate)
    requires ComesFrom(w, input, policy, limits, r, c)
    ensures IsRead(r)
    ensures Vouches(w, input, policy, limits, r.core, ReadLine(Line(r)).value)
  {
    hide Carries, IsPrincipal, KeyType, Base64.Encode, ReadLine, Octets, Base64.DecodeOffered, OneWord;
    PrincipalIsWord(w, r.core, policy.principalClaim, r.principal);
    TypeIsWord(c.algorithm);
    EncodedIsWord(c.signatureKey, Base64.Standard);
    AuthorityRead(r.principal, Chars(r.caKeyType), Chars(r.caKey));
    assert Line(r) == AuthorityLine(r.principal, Chars(r.caKeyType), Chars(r.caKey));
    OctetsOfChars(r.caKey);
    forall maximum: nat | |c.signatureKey| <= maximum
      ensures Base64.DecodeOffered(r.caKey, maximum) == Success(c.signatureKey)
    {
      Base64.DecodeOfferedIsCanonical(r.caKey, maximum, c.signatureKey);
    }
    assert Trusts(ReadLine(Line(r)).value, c, r.principal);
  }

  /** Two results with one line have one principal, one key type and one key. */
  lemma LinesDiffer(a: Carriers.CarrierResult, b: Carriers.CarrierResult)
    requires IsRead(a) && IsRead(b) && Line(a) == Line(b)
    ensures a.principal == b.principal && a.caKeyType == b.caKeyType && a.caKey == b.caKey
  {
    hide ReadLine, Line, Octets;
    OctetsOfChars(a.caKeyType);
    OctetsOfChars(b.caKeyType);
    OctetsOfChars(a.caKey);
    OctetsOfChars(b.caKey);
    var x := [Flag("cert-authority"), Quoted("principals", a.principal)];
    var y := [Flag("cert-authority"), Quoted("principals", b.principal)];
    assert x == y && x[1] == y[1];
  }

  /** A line that is read ends at its only newline, so no part of it is read. */
  lemma PartIsNotRead(line: string, k: nat)
    requires ReadLine(line).Some? && k < |line|
    ensures ReadLine(line[..k]).None?
  {
    hide Split, ReadSettings;
    if k > 0 {
      assert line[..|line| - 1][k - 1] == line[..k][k - 1];
    }
  }

  // ---- the output of a run

  lemma DirectResult(w: World, run: Run, k: nat)
    requires run.process.verifier == Direct(w) && run.Ready() && k < run.Policies()
    ensures run.ResultOf(k) == Attempt(w, run.configuration.value, run.configuration.value.issuers[k], run.Input(k))
  {
    hide Attempt, Context, run.Ready, run.Input;
  }

  /** The entry is the one for the credential that the run reports, which the only accepting policy authenticated. */
  ghost predicate IsVouched(w: World, run: Run, entry: Entry)
    requires run.Ready()
  {
    exists k: nat ::
      && run.OnlyOne(k) && run.Outcome().subject.Some?
      && var c, subject := run.configuration.value, run.Outcome().subject.value;
         && subject.policy == c.issuers[k]
         && Vouches(w, run.Input(k), c.issuers[k].carrier, CertificateLimits(c), subject.core, entry)
  }

  /** What a run prints is read as an entry if and only if its event allows; the entry then is the authority of the
      certificate in the request, under its key type, for the principal of the subject that the only accepting policy
      authenticated. */
  lemma PrintedIsRead(w: World, run: Run)
    requires run.process.verifier == Direct(w)
    ensures run.Event().outcome == Audit.Allow <==> ReadLine(run.Outcome().written).Some?
    ensures run.Event().outcome == Audit.Allow ==>
              run.Ready() && IsVouched(w, run, ReadLine(run.Outcome().written).value)
  {
    hide run.Ready, run.Event, run.Outcome, run.ResultOf, run.Input, ReadLine, Line, Vouches, run.Undisturbed,
         WithinBound, run.OnlyOne;
    EventReason(run);
    if run.Event().outcome == Audit.Allow || run.Outcome().written != "" {
      var k, r := WrittenLine(run);
      DirectResult(w, run, k);
      AttemptIsRead(w, run, k, r);
      if run.Event().outcome != Audit.Allow {
        PartIsNotRead(Line(r), run.process.accepts);
      }
    } else {
      NothingIsRead();
    }
  }

  lemma NothingIsRead()
    ensures ReadLine("").None?
  {
  }

  lemma AttemptIsRead(w: World, run: Run, k: nat, r: Carriers.CarrierResult)
    requires run.Ready() && k < run.Policies()
    requires Attempt(w, run.configuration.value, run.configuration.value.issuers[k], run.Input(k)) == Success(r)
    ensures ReadLine(Line(r)).Some?
    ensures var c := run.configuration.value;
            Vouches(w, run.Input(k), c.issuers[k].carrier, CertificateLimits(c), r.core, ReadLine(Line(r)).value)
  {
    hide run.Ready, run.Input, ReadLine, Line, Vouches, ComesFrom, Carriers.VerifyCarrier;
    var c := run.configuration.value;
    var i := c.issuers[k];
    ResultComesFrom(w, run.Input(k), i.core, i.carrier, c.accounts, i.keys, CertificateLimits(c), r);
    var certificate: CertificateFormat.Certificate :|
      ComesFrom(w, run.Input(k), i.carrier, CertificateLimits(c), r, certificate);
    LineIsRead(w, run.Input(k), i.carrier, CertificateLimits(c), r, certificate);
  }

  /** What is written is the line of the only success, whole or in part. */
  lemma WrittenLine(run: Run) returns (k: nat, r: Carriers.CarrierResult)
    requires run.Outcome().reason.None? || run.Outcome().written != ""
    ensures run.Ready() && k < run.Policies() && run.OnlyOne(k) && run.ResultOf(k) == Success(r)
    ensures run.Outcome().subject == Some(Subject(run.configuration.value.issuers[k], r.core))
    ensures run.Outcome().reason.None? ==> run.Outcome().written == Line(r)
    ensures run.Outcome().reason.Some? ==>
              run.process.accepts < |Line(r)| && run.Outcome().written == Line(r)[..run.process.accepts]
  {
    hide run.Ready, run.Undisturbed, run.Verdict, run.Length, run.ResultOf, Line, WithinBound;
    WrittenIsVerdict(run);
    WrittenGrants(run);
    k :| run.Grants(k);
    r := run.ResultOf(k).value;
    GrantsLength(run, k);
  }

  lemma WrittenIsVerdict(run: Run)
    requires run.Outcome().reason.None? || run.Outcome().written != ""
    ensures run.Outcome() == run.Verdict()
  {
    hide run.Verdict, run.Length, run.Look, run.Witness;
  }

  // ---- what a run allows

  /** Policy `k` accepts the carrier of the request at its wall time, with this result. */
  ghost predicate Accepts(w: World, run: Run, k: nat, r: Carriers.CarrierResult)
    requires run.Ready() && k < run.Policies()
  {
    var c := run.configuration.value;
    var i := c.issuers[k];
    CarrierAccepted(w, run.Input(k), i.core, i.carrier, c.accounts, i.keys, CertificateLimits(c), r)
  }

  lemma AcceptsExactly(w: World, run: Run, k: nat, r: Carriers.CarrierResult)
    requires run.process.verifier == Direct(w) && run.Ready() && k < run.Policies()
    requires Configurations.Sound(run.configuration.value) && Int64(run.process.wall(k))
    ensures run.ResultOf(k) == Success(r) <==> Accepts(w, run, k, r)
  {
    hide run.Ready, run.ResultOf, CarrierAccepted, Carriers.VerifyCarrier, Configurations.AdmitsOwn,
         Configurations.ValidPolicyId, CertificateLimits;
    var c := run.configuration.value;
    var i := c.issuers[k];
    DirectResult(w, run, k);
    SoundSkew(c);
    assert Configurations.SoundIssuer(i, c.skew);
    CarrierExactly(w, run.Input(k), i.core, i.carrier, c.accounts, i.keys, CertificateLimits(c), r);
  }

  /** Policy `k` alone accepts, with this result, and the line for it is within the bound and taken whole. */
  ghost predicate Authorizes(w: World, run: Run, k: nat, r: Carriers.CarrierResult)
    requires run.Ready()
  {
    && k < run.Policies() && Accepts(w, run, k, r)
    && (forall j: nat, other: Carriers.CarrierResult :: j < run.Policies() && j != k ==> !Accepts(w, run, j, other))
    && var size := |AuthorityLine(r.principal, Chars(r.caKeyType), Chars(r.caKey))|;
       size <= run.configuration.value.limits.maxOutputChars && size <= run.process.accepts
  }

  /** Under a sound configuration, whose policies the direct verifier tries, a run allows if and only if nothing
      disturbs it and exactly one policy accepts the carrier, at its own wall time, for a line that has room. */
  lemma AllowsAccepted(w: World, run: Run)
    requires run.process.verifier == Direct(w)
    requires run.configuration.Success? ==> Configurations.Sound(run.configuration.value)
    requires forall k :: Int64(run.process.wall(k))
    ensures run.Event().outcome == Audit.Allow <==>
              && run.Ready() && run.Undisturbed(7 + 2 * run.Policies())
              && exists k: nat, r: Carriers.CarrierResult :: Authorizes(w, run, k, r)
  {
    hide run.Ready, run.Event, run.ResultOf, Line, run.Undisturbed, Accepts, AuthorityLine, Configurations.Sound,
         run.Grants, Chars;
    AllowsExactly(run);
    if run.Ready() {
      forall k: nat | run.Grants(k) && |Line(run.ResultOf(k).value)| <= run.process.accepts
        ensures Authorizes(w, run, k, run.ResultOf(k).value)
      {
        GrantsIsAuthorizes(w, run, k, run.ResultOf(k).value);
      }
      forall k: nat, r: Carriers.CarrierResult | Authorizes(w, run, k, r)
        ensures run.Grants(k) && run.ResultOf(k) == Success(r) && |Line(r)| <= run.process.accepts
      {
        GrantsIsAuthorizes(w, run, k, r);
      }
    }
  }

  lemma GrantsIsAuthorizes(w: World, run: Run, k: nat, r: Carriers.CarrierResult)
    requires run.process.verifier == Direct(w) && run.Ready() && Configurations.Sound(run.configuration.value)
    requires forall k :: Int64(run.process.wall(k))
    ensures (run.Grants(k) && run.ResultOf(k) == Success(r) && |Line(r)| <= run.process.accepts) <==>
              Authorizes(w, run, k, r)
  {
    hide run.Ready, run.ResultOf, Accepts, AuthorityLine, Configurations.Sound, Chars;
    forall j: nat, other: Carriers.CarrierResult | j < run.Policies()
      ensures run.ResultOf(j) == Success(other) <==> Accepts(w, run, j, other)
    {
      AcceptsExactly(w, run, j, other);
    }
    forall j: nat | j < run.Policies() && run.ResultOf(j).Success? ensures Accepts(w, run, j, run.ResultOf(j).value) {
    }
    LineIsLong(r);
  }

  lemma LineIsLong(r: Carriers.CarrierResult)
    ensures Line(r) == AuthorityLine(r.principal, Chars(r.caKeyType), Chars(r.caKey)) && |Line(r)| > 0
  {
    hide Chars;
  }

  // ---- the request

  /** The arguments ask for the certificate that the offered key encodes, within the configured bounds. */
  predicate Asks(arguments: seq<string>, c: Configurations.Configuration, blob: Bytes) {
    && |arguments| == 9 && arguments[1] == "--config" && arguments[3] == "--user" && arguments[5] == "--key"
    && arguments[7] == "--key-type"
    && 0 < c.limits.maxOfferedKeyChars && |arguments[6]| <= c.limits.maxOfferedKeyChars
    && blob != [] && |blob| <= c.limits.maxCertificateBytes
    && Octets(arguments[6]) == Base64.Encode(blob, Base64.Standard)
  }

  /** A run has something to verify if and only if it is configured and asked for a certificate, and then every policy
      gets that certificate with the key type and the user of the arguments. */
  lemma RequestExactly(run: Run, blob: Bytes)
    ensures (run.configuration.Success? && Asks(run.arguments, run.configuration.value, blob)) <==>
              (run.Ready() && forall k: nat ::
                 run.Input(k) == Carriers.CarrierInput(blob, Octets(run.arguments[8]), run.arguments[4],
                                                       run.process.wall(k)))
  {
    hide Base64.DecodeOffered, Base64.Encode, Octets;
    if run.configuration.Success? && |run.arguments| == 9 {
      var c := run.configuration.value;
      var key := Octets(run.arguments[6]);
      Base64.DecodeOfferedIsCanonical(key, c.limits.maxCertificateBytes, blob);
      if run.Ready() {
        assert run.Input(0).blob == Prepare(run.arguments, run.configuration).value;
      }
    }
  }
}
