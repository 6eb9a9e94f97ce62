/** What the members of an issuer's policy mean: the durations, sets, predicates and limits of `src/config.cpp`, and the
    typed policy that is made of them. */
module PolicyMeaning {
  import opened Configurations
  import opened Durations
  import opened Errors
  import opened IssuerAcceptance
  import opened JsonTrees
  import opened Policies
  import Decimals
  import Utf8

  // ---- durations

  /** A text of terms with this sum, in nanoseconds. */
  predicate Lasts(text: string, nanoseconds: nat) {
    |text| >= 2 && Terms(text).Some? && Sum(Terms(text).value) == nanoseconds
  }

  /** One numeral with each of the six units. */
  lemma UnitsAreExact(digits: string)
    requires digits != "" && Decimals.Digits(digits)
    ensures Lasts(digits + "ns", Decimals.Value(digits))
    ensures Lasts(digits + "us", Decimals.Value(digits) * 1000)
    ensures Lasts(digits + "ms", Decimals.Value(digits) * 1_000_000)
    ensures Lasts(digits + "s", Decimals.Value(digits) * 1_000_000_000)
    ensures Lasts(digits + "m", Decimals.Value(digits) * 60_000_000_000)
    ensures Lasts(digits + "h", Decimals.Value(digits) * 3_600_000_000_000)
  {
    hide Terms, Sum, Decimals.Value;
    UnitIsExact(digits, Ns);
    UnitIsExact(digits, Us);
    UnitIsExact(digits, Ms);
    UnitIsExact(digits, Durations.Seconds);
    UnitIsExact(digits, Minutes);
    UnitIsExact(digits, Hours);
  }

  lemma UnitIsExact(digits: string, u: Unit)
    requires digits != "" && Decimals.Digits(digits)
    ensures Lasts(digits + Suffix(u), Decimals.Value(digits) * Scale(u))
  {
    hide Terms, Decimals.Value, Suffix, Scale;
    TermsOfOne(digits, u);
    var t := Term(Decimals.Value(digits), u);
    assert [t][1..] == [];
    assert Sum([]) == 0 && Sum([t]) == Length(t);
    SuffixIsThere(u);
  }

  lemma SuffixIsThere(u: Unit)
    ensures Suffix(u) != ""
  {
  }

  /** Texts of terms add up. */
  lemma {:induction false} LastsTogether(a: string, b: string, x: nat, y: nat)
    requires Lasts(a, x) && Lasts(b, y)
    ensures Lasts(a + b, x + y)
  {
    hide Terms, Sum;
    TermsTogether(a, b);
    SumTogether(Terms(a).value, Terms(b).value);
  }

  lemma {:induction false} SumTogether(a: seq<Term>, b: seq<Term>)
    ensures Sum(a + b) == Sum(a) + Sum(b)
  {
    hide Length;
    if a == [] {
      assert a + b == b;
    } else {
      SumTogether(a[1..], b);
      assert (a + b)[1..] == a[1..] + b;
    }
  }

  lemma {:induction false} TermsTogether(a: string, b: string)
    requires Terms(a).Some? && Terms(b).Some? && b != ""
    ensures Terms(a + b) == Some(Terms(a).value + Terms(b).value)
    decreases |a|
  {
    hide Terms, Front, Sum;
    TermsStep(b);
    if a == "" {
      EmptyTerms();
      assert a + b == b;
      assert [] + Terms(b).value == Terms(b).value;
    } else {
      TermsStep(a);
      var rest := Front(a).value.1;
      FrontTogether(a, b);
      TermsTogether(rest, b);
      TermsStep(a + b);
      var first, whole := Terms(a).value, Terms(a + b).value;
      assert first == [first[0]] + first[1..] && whole == [whole[0]] + whole[1..];
      assert [first[0]] + (first[1..] + Terms(b).value) == first + Terms(b).value;
    }
  }

  /** What is in front stays in front when terms follow. */
  lemma FrontTogether(a: string, b: string)
    requires a != "" && b != "" && Front(a).Some? && Front(b).Some?
    ensures Front(a + b) == Some((Front(a).value.0, Front(a).value.1 + b))
  {
    hide DigitCount, UnitAt, Suffix, Decimals.Value;
    StartsWithDigit(b);
    var k := DigitCount(a);
    NoUnit(a[k..]);
    CountTogether(a, b);
    UnitTogether(a[k..], b);
    assert (a + b)[..k] == a[..k];
    assert (a + b)[k..] == a[k..] + b;
    var n := k + |Suffix(UnitAt(a[k..]).value)|;
    assert (a + b)[n..] == a[n..] + b;
  }

  lemma NoUnit(text: string)
    ensures UnitAt(text).Some? ==> text != ""
  {
  }

  lemma StartsWithDigit(b: string)
    requires b != "" && Front(b).Some?
    ensures Decimals.Digit(b[0])
  {
  }

  lemma {:induction false} CountTogether(a: string, b: string)
    requires DigitCount(a) < |a|
    ensures DigitCount(a + b) == DigitCount(a)
  {
    if Decimals.Digit(a[0]) {
      CountTogether(a[1..], b);
      assert (a + b)[1..] == a[1..] + b;
    }
  }

  lemma UnitTogether(a: string, b: string)
    requires a != "" && b != "" && Decimals.Digit(b[0])
    ensures UnitAt(a + b) == UnitAt(a)
  {
    forall first: char, second: char | !Decimals.Digit(second)
      ensures [first, second] <= a + b <==> [first, second] <= a
    {
      TwoInFront(first, second, a + b);
      TwoInFront(first, second, a);
    }
    assert forall first: char :: [first] <= a + b <==> [first] <= a;
    UnitByLetters(a);
    UnitByLetters(a + b);
  }

  lemma TwoInFront(first: char, second: char, text: string)
    ensures [first, second] <= text <==> |text| >= 2 && text[0] == first && text[1] == second
  {
  }

  lemma UnitByLetters(text: string)
    ensures UnitAt(text)
            == if ['n', 's'] <= text then Some(Ns) else if ['u', 's'] <= text then Some(Us)
               else if ['m', 's'] <= text then Some(Ms) else if ['s'] <= text then Some(Durations.Seconds)
               else if ['m'] <= text then Some(Minutes) else if ['h'] <= text then Some(Hours) else None
  {
  }

  ghost predicate MeansNanoseconds(fields: map<string, Json>, name: string, n: nat) {
    n <= UINT64_MAX && exists text: string :: TextMember(fields, name, text) && Lasts(text, n)
  }

  ghost predicate MeansSeconds(fields: map<string, Json>, name: string, s: int) {
    && 0 <= s <= INT64_MAX
    && exists text: string ::
         TextMember(fields, name, text) && Lasts(text, s * SECOND) && InWords(Terms(text).value)
  }

  /** A positive number of seconds, or 0 without the member. */
  ghost predicate MeansLifetime(fields: map<string, Json>, name: string, s: int) {
    if name in fields then s > 0 && MeansSeconds(fields, name, s) else s == 0
  }

  lemma NanosecondsExactly(fields: map<string, Json>, name: string, n: nat)
    ensures TextDuration(fields, name) == Success(n) <==> MeansNanoseconds(fields, name, n)
  {
    hide DurationNanoseconds, Terms, Sum;
    forall text: string ensures StringMember(fields, name) == Some(text) <==> TextMember(fields, name, text) {
      StringMemberExactly(fields, name, text);
    }
    if StringMember(fields, name).Some? {
      DurationIsExact(StringMember(fields, name).value, n);
    }
  }

  lemma SecondsExactly(fields: map<string, Json>, name: string, positive: bool, s: int)
    ensures (s >= 0 && WholeSeconds(StringMember(fields, name), positive) == Success(s)) <==>
              (MeansSeconds(fields, name, s) && (positive ==> s > 0))
  {
    hide WholeSeconds, Terms, Sum, InWords;
    forall text: string ensures StringMember(fields, name) == Some(text) <==> TextMember(fields, name, text) {
      StringMemberExactly(fields, name, text);
    }
    NoSeconds(positive);
    if s >= 0 && StringMember(fields, name).Some? {
      WholeSecondsIsExact(StringMember(fields, name).value, positive, s);
    }
  }

  lemma NoSeconds(positive: bool)
    ensures WholeSeconds(None, positive).Failure?
  {
  }

  lemma LifetimeExactly(fields: map<string, Json>, name: string, s: int)
    ensures (s >= 0 && OptionalSeconds(fields, name) == Success(s)) <==> MeansLifetime(fields, name, s)
  {
    hide WholeSeconds, MeansSeconds;
    SecondsExactly(fields, name, true, s);
  }

  // ---- sets of texts

  ghost predicate ListsTexts(fields: map<string, Json>, name: string, texts: seq<string>) {
    name in fields && IsTextSet(fields[name], texts) && "" !in texts
  }

  /** The member is an array of exactly these texts, none empty, none twice. */
  ghost predicate Lists(fields: map<string, Json>, name: string, texts: set<string>) {
    exists list: seq<string> :: ListsTexts(fields, name, list) && forall x :: x in list <==> x in texts
  }

  lemma ListExactly(fields: map<string, Json>, name: string, nonempty: bool, texts: seq<string>)
    ensures StringList(fields, name, nonempty) == Success(texts) <==>
              ListsTexts(fields, name, texts) && (nonempty ==> texts != [])
  {
    hide IsTextSet;
    if name in fields {
      TextSetExactly(fields[name], texts);
    }
  }

  lemma SetExactly(fields: map<string, Json>, name: string, nonempty: bool, texts: set<string>)
    ensures StringSet(fields, name, nonempty) == Success(texts) <==>
              Lists(fields, name, texts) && (nonempty ==> texts != {})
  {
    hide StringList, ListsTexts;
    forall list: seq<string>
      ensures StringList(fields, name, nonempty) == Success(list) <==>
                ListsTexts(fields, name, list) && (nonempty ==> list != [])
    {
      ListExactly(fields, name, nonempty, list);
    }
    forall list: seq<string> | forall x :: x in list <==> x in texts
      ensures SetOf(list) == texts && (list != [] <==> texts != {})
    {
      if list != [] {
        assert list[0] in texts;
      }
    }
    var list := StringList(fields, name, nonempty);
    if list.Success? && SetOf(list.value) == texts {
      assert forall x :: x in list.value <==> x in texts;
    }
  }

  // ---- predicates

  /** How a predicate is written. */
  ghost predicate Writes(j: Json, p: Predicate) {
    && j.Object? && p.claim != "" && TextMember(j.fields, "claim", p.claim)
    && match p.operation
       case StringEquals =>
         && j.fields.Keys == {"claim", "type", "op", "value"} && TextMember(j.fields, "type", "string")
         && TextMember(j.fields, "op", "equals") && TextMember(j.fields, "value", p.value) && p.values == []
       case StringOneOf =>
         && j.fields.Keys == {"claim", "type", "op", "values"} && TextMember(j.fields, "type", "string")
         && TextMember(j.fields, "op", "one-of") && ListsTexts(j.fields, "values", p.values) && p.values != []
         && p.value == ""
       case StringArrayContains =>
         && j.fields.Keys == {"claim", "type", "op", "value"} && TextMember(j.fields, "type", "string-array")
         && TextMember(j.fields, "op", "contains") && TextMember(j.fields, "value", p.value) && p.values == []
  }

  lemma PredicateExactly(j: Json, p: Predicate)
    ensures PredicateOf(j) == Success(p) <==> Writes(j, p)
  {
    hide StringList, ListsTexts;
    var fields := FieldsOf(j);
    ListExactly(fields, "values", true, p.values);
  }

  ghost predicate WritesAll(elements: seq<Json>, all: seq<Predicate>) {
    |elements| == |all| && forall k :: 0 <= k < |all| ==> Writes(elements[k], all[k])
  }

  lemma {:induction false} PredicatesExactly(elements: seq<Json>, all: seq<Predicate>)
    ensures PredicatesOf(elements) == Success(all) <==> WritesAll(elements, all)
    decreases |elements|
  {
    hide PredicateOf, Writes;
    if elements != [] && all != [] {
      PredicateExactly(elements[0], all[0]);
      PredicatesExactly(elements[1..], all[1..]);
      assert all == [all[0]] + all[1..];
      if PredicatesOf(elements) == Success(all) {
        assert WritesAll(elements[1..], all[1..]);
        forall k | 0 <= k < |all| ensures Writes(elements[k], all[k]) {
          if k > 0 {
            assert elements[1..][k - 1] == elements[k] && all[1..][k - 1] == all[k];
          }
        }
      }
    }
  }

  // ---- limits

  predicate IsSize(fields: map<string, Json>, name: string, maximum: nat, n: nat) {
    name in fields && fields[name] == Value(Unsigned(n)) && 0 < n <= maximum
  }

  predicate MeansLimits(j: Json, l: ResourceLimits) {
    && j.Object?
    && j.fields.Keys == {"max_token_bytes", "max_evidence_bytes", "max_ssh_certificate_bytes", "max_offered_key_chars",
                         "max_authorized_keys_output_chars"}
    && IsSize(j.fields, "max_token_bytes", 32768, l.maxTokenBytes)
    && IsSize(j.fields, "max_evidence_bytes", 16384, l.maxEvidenceBytes)
    && IsSize(j.fields, "max_ssh_certificate_bytes", 49152, l.maxCertificateBytes)
    && IsSize(j.fields, "max_offered_key_chars", 65536, l.maxOfferedKeyChars)
    && IsSize(j.fields, "max_authorized_keys_output_chars", 4096, l.maxOutputChars)
  }

  lemma SizeExactly(fields: map<string, Json>, name: string, maximum: nat, n: nat)
    ensures SizeMember(fields, name, maximum) == Success(n) <==> IsSize(fields, name, maximum, n)
  {
  }

  lemma LimitsExactly(j: Json, l: ResourceLimits)
    ensures LimitsOf(j) == Success(l) <==> MeansLimits(j, l)
  {
    hide SizeMember, IsSize;
    var fields := FieldsOf(j);
    SizeExactly(fields, "max_token_bytes", 32768, l.maxTokenBytes);
    SizeExactly(fields, "max_evidence_bytes", 16384, l.maxEvidenceBytes);
    SizeExactly(fields, "max_ssh_certificate_bytes", 49152, l.maxCertificateBytes);
    SizeExactly(fields, "max_offered_key_chars", 65536, l.maxOfferedKeyChars);
    SizeExactly(fields, "max_authorized_keys_output_chars", 4096, l.maxOutputChars);
  }

  // ---- issuers

  /** The profiles a policy lists, restricted to what is supported. */
  ghost predicate MeansProfiles(fields: map<string, Json>, p: Profiles) {
    && Lists(fields, "audiences", p.audiences) && p.audiences != {}
    && Lists(fields, "issuer_algorithms", p.issuerAlgorithms) && p.issuerAlgorithms == {"RS256"}
    && Lists(fields, "caller_algorithms", p.callerAlgorithms)
    && {"ES256"} <= p.callerAlgorithms <= {"ES256", "Ed25519"}
    && Lists(fields, "evidence_profiles", p.evidence) && p.evidence != {}
    && p.evidence <= {"standard-jws-v1", "gq-rs256-v1"}
    && Lists(fields, "binding_profiles", p.bindings) && p.bindings != {}
    && p.bindings <= {"oidc-nonce-v1", "audience-v1", "credbind-claim-v1"}
    && Lists(fields, "acquisition_profiles", p.acquisitions) && p.acquisitions != {}
    && MatchedAcquisitions(p.acquisitions, p.bindings)
  }

  /** An interactive acquisition goes with the nonce binding, and a workload's with one of the other two. */
  predicate MatchedAcquisitions(acquisitions: set<string>, bindings: set<string>) {
    && acquisitions
       <= {"oidc-native-auth-code-v1", "oidc-confidential-web-auth-code-v1", "challenge-bound-workload-v1"}
    && ("oidc-native-auth-code-v1" in acquisitions || "oidc-confidential-web-auth-code-v1" in acquisitions
        <==> "oidc-nonce-v1" in bindings)
    && ("challenge-bound-workload-v1" in acquisitions
        <==> "audience-v1" in bindings || "credbind-claim-v1" in bindings)
  }

  lemma ProfilesExactly(fields: map<string, Json>, p: Profiles)
    ensures ProfilesOf(fields) == Success(p) <==> MeansProfiles(fields, p)
  {
    hide StringSet, Lists;
    SetExactly(fields, "audiences", true, p.audiences);
    SetExactly(fields, "issuer_algorithms", true, p.issuerAlgorithms);
    SetExactly(fields, "caller_algorithms", true, p.callerAlgorithms);
    SetExactly(fields, "evidence_profiles", true, p.evidence);
    SetExactly(fields, "binding_profiles", true, p.bindings);
    SetExactly(fields, "acquisition_profiles", true, p.acquisitions);
  }

  ghost predicate MeansParties(fields: map<string, Json>, parties: set<string>) {
    if "authorized_parties" in fields then Lists(fields, "authorized_parties", parties) && parties != {}
    else parties == {}
  }

  lemma PartiesExactly(fields: map<string, Json>, parties: set<string>)
    ensures AuthorizedParties(fields) == Success(parties) <==> MeansParties(fields, parties)
  {
    hide StringSet, Lists;
    SetExactly(fields, "authorized_parties", true, parties);
  }

  ghost predicate MeansListed(fields: map<string, Json>, listed: seq<Predicate>) {
    if "required_claims" in fields then
      fields["required_claims"].Array? && WritesAll(fields["required_claims"].elements, listed)
    else listed == []
  }

  /** The listed predicates, and the discriminator last. */
  ghost predicate MeansRequired(fields: map<string, Json>, required: seq<Predicate>) {
    if "environment_discriminator" in fields then
      && required != [] && MeansListed(fields, required[..|required| - 1])
      && Writes(fields["environment_discriminator"], required[|required| - 1])
    else MeansListed(fields, required)
  }

  lemma RequiredExactly(fields: map<string, Json>, required: seq<Predicate>)
    ensures RequiredClaims(fields) == Success(required) <==> MeansRequired(fields, required)
  {
    hide PredicateOf, Writes, PredicatesOf, WritesAll;
    forall listed: seq<Predicate>
      ensures Predicates(fields, "required_claims", false) == Success(listed) <==> MeansListed(fields, listed)
    {
      if "required_claims" in fields && fields["required_claims"].Array? {
        PredicatesExactly(fields["required_claims"].elements, listed);
      }
    }
    if "environment_discriminator" in fields && required != [] {
      var front, last := required[..|required| - 1], required[|required| - 1];
      PredicateExactly(fields["environment_discriminator"], last);
      assert required == front + [last];
      var listed := Predicates(fields, "required_claims", false);
      if listed.Success? && PredicateOf(fields["environment_discriminator"]).Success? {
        var found := PredicateOf(fields["environment_discriminator"]).value;
        assert (listed.value + [found])[..|listed.value|] == listed.value;
        assert (listed.value + [found])[|listed.value|] == found;
      }
    }
  }

  /** The claim whose value the audit digests; none without the member. */
  ghost predicate MeansAudit(fields: map<string, Json>, claim: string) {
    if "audit_identity_claim" in fields then
      TextMember(fields, "audit_identity_claim", claim) && Utf8.IsName(Octets(claim))
    else claim == ""
  }

  lemma AuditExactly(fields: map<string, Json>, claim: string)
    ensures AuditClaim(fields) == Success(claim) <==> MeansAudit(fields, claim)
  {
    hide Utf8.ValidName, Utf8.IsName;
    StringMemberExactly(fields, "audit_identity_claim", claim);
    Utf8.ValidNameIsName(Octets(claim));
  }

  /** The keys of a file at an absolute path. */
  ghost predicate MeansKeys(e: Environment, fields: map<string, Json>, keys: Keys) {
    && "key_source" in fields && fields["key_source"].Object?
    && var source := fields["key_source"].fields;
       && source.Keys == {"type", "path"} && TextMember(source, "type", "static-jwks-file")
       && exists path: string ::
            && TextMember(source, "path", path) && |path| >= 2 && path[0] == '/' && e.jwks(path) == Success(keys)
  }

  lemma KeysExactly(e: Environment, fields: map<string, Json>, keys: Keys)
    ensures KeySource(e, fields) == Success(keys) <==> MeansKeys(e, fields, keys)
  {
    if "key_source" in fields && fields["key_source"].Object? {
      var source := fields["key_source"].fields;
      StringMemberExactly(source, "type", "static-jwks-file");
      forall path: string ensures StringMember(source, "path") == Some(path) <==> TextMember(source, "path", path) {
        StringMemberExactly(source, "path", path);
      }
    }
  }

  predicate IssuerMembers(names: set<string>) {
    && {"policy_id", "issuer", "key_source", "audiences", "issuer_algorithms", "caller_algorithms",
        "evidence_profiles", "binding_profiles", "acquisition_profiles", "require_non_reconstructible_evidence",
        "certificate_principal_claim"} <= names
    && names <= {"policy_id", "issuer", "key_source", "audiences", "issuer_algorithms", "caller_algorithms",
                 "evidence_profiles", "binding_profiles", "acquisition_profiles",
                 "require_non_reconstructible_evidence", "certificate_principal_claim"}
                + {"authorized_parties", "maximum_credential_age", "maximum_identity_lifetime",
                   "audit_identity_claim", "required_claims", "environment_discriminator"}
  }

  lemma IssuerMembersExactly(j: Json)
    ensures ExactMembers(j, ISSUER_REQUIRED, ISSUER_OPTIONAL) <==> j.Object? && IssuerMembers(j.fields.Keys)
  {
  }

  /** Up to 64 ASCII letters, digits, dots, underscores and hyphens, a letter or a digit first. */
  predicate IsPolicyId(id: string) {
    && 0 < |id| <= 64 && id[0] !in "._-"
    && forall c :: c in id ==> 'A' <= c <= 'Z' || 'a' <= c <= 'z' || '0' <= c <= '9' || c in "._-"
  }

  lemma PolicyIdExactly(id: string)
    ensures ValidPolicyId(id) <==> IsPolicyId(id)
  {
    if IsPolicyId(id) {
      forall i | 0 <= i < |id| ensures Alphanumeric(id[i]) || id[i] in {'.', '_', '-'} {
        assert id[i] in id;
      }
      assert id[0] in id;
    }
  }

  /** Who the issuer is, and which claim names its subjects. */
  ghost predicate MeansNames(e: Environment, fields: map<string, Json>, i: IssuerConfiguration) {
    && TextMember(fields, "policy_id", i.policyId) && IsPolicyId(i.policyId)
    && TextMember(fields, "issuer", i.core.issuerPolicy.issuer) && e.validUri(i.core.issuerPolicy.issuer)
    && TextMember(fields, "certificate_principal_claim", i.carrier.principalClaim) && i.carrier.principalClaim != ""
  }

  function ProfilesIn(i: IssuerConfiguration): Profiles {
    var p := i.core.issuerPolicy;
    Profiles(p.audiences, p.issuerAlgorithms, i.core.callerAlgorithms, p.evidenceProfiles, p.bindingProfiles,
             i.acquisitions)
  }

  /** Every field of an issuer's policy but the claims it admits, from the member it is for. */
  ghost predicate MeansIssuer(e: Environment, j: Json, skew: int, limits: ResourceLimits, i: IssuerConfiguration) {
    && j.Object? && IssuerMembers(j.fields.Keys)
    && MeansNames(e, j.fields, i)
    && MeansProfiles(j.fields, ProfilesIn(i))
    && MeansParties(j.fields, i.core.issuerPolicy.authorizedParties)
    && MeansRequired(j.fields, i.core.issuerPolicy.requiredClaims)
    && MeansLifetime(j.fields, "maximum_credential_age", i.core.issuerPolicy.maximumAge)
    && MeansLifetime(j.fields, "maximum_identity_lifetime", i.carrier.maximumLifetime)
    && j.fields["require_non_reconstructible_evidence"] == Value(Boolean(i.core.issuerPolicy.requireNonReconstructible))
    && MeansAudit(j.fields, i.auditClaim)
    && MeansKeys(e, j.fields, i.keys)
    && i.core.issuerPolicy.skew == skew && i.carrier.skew == skew
    && i.core.maxTokenBytes == limits.maxTokenBytes && i.core.maxEvidenceBytes == limits.maxEvidenceBytes
  }

  /** The claims an issuer's own policy looks at. */
  function OwnClaims(i: IssuerConfiguration): set<string> {
    {i.carrier.principalClaim} + (if i.auditClaim == "" then {} else {i.auditClaim})
    + ClaimsOf(i.core.issuerPolicy.requiredClaims)
  }

  lemma NamesExactly(e: Environment, fields: map<string, Json>, i: IssuerConfiguration)
    ensures MeansNames(e, fields, i) <==>
              var id, issuer, principal :=
                StringMember(fields, "policy_id"), StringMember(fields, "issuer"),
                StringMember(fields, "certificate_principal_claim");
              && id == Some(i.policyId) && ValidPolicyId(i.policyId) && issuer == Some(i.core.issuerPolicy.issuer)
              && e.validUri(i.core.issuerPolicy.issuer) && principal == Some(i.carrier.principalClaim)
              && i.carrier.principalClaim != ""
  {
    hide ValidPolicyId, IsPolicyId;
    PolicyIdExactly(i.policyId);
    StringMemberExactly(fields, "policy_id", i.policyId);
    StringMemberExactly(fields, "issuer", i.core.issuerPolicy.issuer);
    StringMemberExactly(fields, "certificate_principal_claim", i.carrier.principalClaim);
  }

  lemma IssuerExactly(e: Environment, j: Json, skew: nat, limits: ResourceLimits, taken: set<string>,
                      i: IssuerConfiguration)
    ensures IssuerOf(e, j, skew, limits, taken) == Success(i) <==>
              (MeansIssuer(e, j, skew, limits, i) && i.policyId !in taken
               && i.core.issuerPolicy.admittedClaims == OwnClaims(i))
  {
    hide ExactMembers, IssuerMembers, ValidPolicyId, ProfilesOf, MeansProfiles, AuthorizedParties, MeansParties,
         RequiredClaims, MeansRequired, OptionalSeconds, MeansLifetime, AuditClaim, MeansAudit, KeySource, MeansKeys,
         MeansNames, StringMember, ClaimsOf;
    var fields := FieldsOf(j);
    IssuerMembersExactly(j);
    NamesExactly(e, fields, i);
    ProfilesExactly(fields, ProfilesIn(i));
    PartiesExactly(fields, i.core.issuerPolicy.authorizedParties);
    RequiredExactly(fields, i.core.issuerPolicy.requiredClaims);
    LifetimeExactly(fields, "maximum_credential_age", i.core.issuerPolicy.maximumAge);
    LifetimeExactly(fields, "maximum_identity_lifetime", i.carrier.maximumLifetime);
    AuditExactly(fields, i.auditClaim);
    KeysExactly(e, fields, i.keys);
    if j.Object? && IssuerMembers(j.fields.Keys) {
      FlagIsThere(j);
    }
  }

  lemma FlagIsThere(j: Json)
    requires j.Object? && IssuerMembers(j.fields.Keys)
    ensures "require_non_reconstructible_evidence" in j.fields
  {
  }

  /** The issuers in the order of the file, under names of which none is taken. */
  ghost predicate MeansIssuers(e: Environment, elements: seq<Json>, skew: int, limits: ResourceLimits,
                               issuers: seq<IssuerConfiguration>)
  {
    MeansEach(e, elements, skew, limits, issuers) && DistinctIds(issuers)
  }

  ghost predicate MeansEach(e: Environment, elements: seq<Json>, skew: int, limits: ResourceLimits,
                            issuers: seq<IssuerConfiguration>)
  {
    && |elements| == |issuers|
    && forall k :: 0 <= k < |issuers| ==> MeansIssuer(e, elements[k], skew, limits, issuers[k])
  }

  ghost predicate DistinctIds(issuers: seq<IssuerConfiguration>) {
    forall k, l :: 0 <= k < l < |issuers| ==> issuers[k].policyId != issuers[l].policyId
  }

  ghost predicate AdmitOwn(issuers: seq<IssuerConfiguration>) {
    forall k :: 0 <= k < |issuers| ==> issuers[k].core.issuerPolicy.admittedClaims == OwnClaims(issuers[k])
  }

  ghost predicate Untaken(issuers: seq<IssuerConfiguration>, taken: set<string>) {
    forall k :: 0 <= k < |issuers| ==> issuers[k].policyId !in taken
  }

  lemma {:induction false} IssuersExactly(e: Environment, elements: seq<Json>, skew: nat, limits: ResourceLimits,
                                          taken: set<string>, issuers: seq<IssuerConfiguration>)
    ensures IssuersOf(e, elements, skew, limits, taken) == Success(issuers) <==>
              (MeansIssuers(e, elements, skew, limits, issuers) && AdmitOwn(issuers) && Untaken(issuers, taken))
    decreases |elements|
  {
    hide IssuerOf, MeansIssuer, MeansIssuers, AdmitOwn, Untaken, OwnClaims;
    if elements == [] || issuers == [] {
      NoIssuers(e, elements, skew, limits, issuers, taken);
    } else {
      var first, rest := issuers[0], issuers[1..];
      assert issuers == [first] + rest && elements == [elements[0]] + elements[1..];
      IssuerExactly(e, elements[0], skew, limits, taken, first);
      IssuersExactly(e, elements[1..], skew, limits, taken + {first.policyId}, rest);
      FirstIssuer(e, elements[0], elements[1..], skew, limits, taken, first, rest);
    }
  }

  lemma NoIssuers(e: Environment, elements: seq<Json>, skew: nat, limits: ResourceLimits,
                  issuers: seq<IssuerConfiguration>, taken: set<string>)
    requires elements == [] || issuers == []
    ensures (MeansIssuers(e, elements, skew, limits, issuers) && AdmitOwn(issuers) && Untaken(issuers, taken)) <==>
              elements == [] && issuers == []
  {
    hide MeansIssuer, OwnClaims;
  }

  lemma FirstIssuer(e: Environment, element: Json, elements: seq<Json>, skew: nat, limits: ResourceLimits,
                    taken: set<string>, first: IssuerConfiguration, rest: seq<IssuerConfiguration>)
    ensures (&& MeansIssuers(e, [element] + elements, skew, limits, [first] + rest) && AdmitOwn([first] + rest)
             && Untaken([first] + rest, taken)) <==>
              (&& MeansIssuer(e, element, skew, limits, first) && first.policyId !in taken
               && first.core.issuerPolicy.admittedClaims == OwnClaims(first)
               && MeansIssuers(e, elements, skew, limits, rest) && AdmitOwn(rest)
               && Untaken(rest, taken + {first.policyId}))
  {
    hide MeansEach, AdmitOwn, DistinctIds, Untaken, MeansIssuer, OwnClaims;
    EachFirst(e, element, elements, skew, limits, first, rest);
    OwnFirst(first, rest);
    DistinctFirst(first, rest, taken);
  }

  lemma EachFirst(e: Environment, element: Json, elements: seq<Json>, skew: nat, limits: ResourceLimits,
                  first: IssuerConfiguration, rest: seq<IssuerConfiguration>)
    ensures MeansEach(e, [element] + elements, skew, limits, [first] + rest) <==>
              MeansIssuer(e, element, skew, limits, first) && MeansEach(e, elements, skew, limits, rest)
  {
    hide MeansIssuer;
    var whole, all := [first] + rest, [element] + elements;
    assert whole[0] == first && all[0] == element;
    assert whole[1..] == rest && all[1..] == elements;
    if MeansEach(e, all, skew, limits, whole) {
      forall k | 0 <= k < |rest| ensures MeansIssuer(e, elements[k], skew, limits, rest[k]) {
        assert whole[1 + k] == rest[k] && all[1 + k] == elements[k];
      }
    }
  }

  lemma OwnFirst(first: IssuerConfiguration, rest: seq<IssuerConfiguration>)
    ensures AdmitOwn([first] + rest) <==>
              first.core.issuerPolicy.admittedClaims == OwnClaims(first) && AdmitOwn(rest)
  {
    hide OwnClaims;
    var whole := [first] + rest;
    assert whole[0] == first;
    assert forall k :: 0 <= k < |rest| ==> whole[1 + k] == rest[k];
  }

  lemma DistinctFirst(first: IssuerConfiguration, rest: seq<IssuerConfiguration>, taken: set<string>)
    ensures DistinctIds([first] + rest) && Untaken([first] + rest, taken) <==>
              first.policyId !in taken && DistinctIds(rest) && Untaken(rest, taken + {first.policyId})
  {
    var whole := [first] + rest;
    assert whole[0] == first;
    assert forall k :: 0 <= k < |rest| ==> whole[1 + k] == rest[k];
    if DistinctIds(whole) && Untaken(whole, taken) {
      forall k | 0 <= k < |rest| ensures rest[k].policyId !in taken + {first.policyId} {
        assert whole[0].policyId != whole[1 + k].policyId;
      }
    }
  }
}
