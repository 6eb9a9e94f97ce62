/** The verifier's configuration: the schema of `src/config.cpp` over JSON trees, and the typed policies
    it turns into. */
module Configurations {
  import opened Durations
  import opened Errors
  import opened JsonTrees
  import opened Policies
  import Utf8

  const MAXIMUM_POLICIES := 64
  const MAXIMUM_ACCOUNT_RULES := 256

  datatype Facility =
    | Authpriv | Auth | Daemon | User
    | Local0 | Local1 | Local2 | Local3 | Local4 | Local5 | Local6 | Local7

  datatype ResourceLimits = ResourceLimits(maxTokenBytes: nat, maxEvidenceBytes: nat, maxCertificateBytes: nat,
                                           maxOfferedKeyChars: nat, maxOutputChars: nat)

  datatype IssuerConfiguration = IssuerConfiguration(policyId: string, core: CorePolicy, carrier: CarrierPolicy,
                                                     acquisitions: set<string>, auditClaim: string, keys: Keys)

  datatype Configuration = Configuration(skew: int, deadline: nat, limits: ResourceLimits,
                                         issuers: seq<IssuerConfiguration>, accounts: Accounts, facility: Facility)

  /** `valid_https_uri`, the JWKS loader, and the order in which an object's members are walked. */
  datatype Environment = Environment(validUri: string -> bool, jwks: string -> Result<Keys>,
                                     order: map<string, Json> -> seq<string>)

  /** The walk visits every member once. */
  ghost predicate Walks(e: Environment) {
    forall m :: Enumerates(e.order(m), m)
  }

  ghost predicate Enumerates(names: seq<string>, m: map<string, Json>) {
    Unrepeated(names) && forall n :: n in names <==> n in m
  }

  // ---- values

  function FieldsOf(j: Json): map<string, Json> {
    if j.Object? then j.fields else map[]
  }

  predicate ExactMembers(j: Json, required: set<string>, optional: set<string>) {
    j.Object? && required <= j.fields.Keys <= required + optional
  }

  predicate IsStringSet(j: Json, nonempty: bool) {
    && j.Array? && (nonempty ==> j.elements != [])
    && AllStrings(j.elements) && "" !in StringsOf(j.elements) && Unrepeated(StringsOf(j.elements))
  }

  function StringList(fields: map<string, Json>, name: string, nonempty: bool): (r: Result<seq<string>>)
    ensures r.Success? ==> Unrepeated(r.value) && "" !in r.value && (nonempty ==> r.value != [])
  {
    if name in fields && IsStringSet(fields[name], nonempty) then Success(StringsOf(fields[name].elements))
    else Failure(MalformedInput)
  }

  function SetOf(s: seq<string>): set<string> {
    set x | x in s
  }

  function StringSet(fields: map<string, Json>, name: string, nonempty: bool): Result<set<string>> {
    var list :- StringList(fields, name, nonempty);
    Success(SetOf(list))
  }

  /** The loop of `string_set`. */
  method ReadStringSet(fields: map<string, Json>, name: string, nonempty: bool) returns (r: Result<set<string>>)
    ensures r == StringSet(fields, name, nonempty)
  {
    if name !in fields || !fields[name].Array? || (nonempty && fields[name].elements == []) {
      return Failure(MalformedInput);
    }
    var items := fields[name].elements;
    var found: set<string> := {};
    var index := 0;
    while index < |items|
      invariant 0 <= index <= |items| && AllStrings(items[..index]) && "" !in StringsOf(items[..index])
      invariant Unrepeated(StringsOf(items[..index])) && found == SetOf(StringsOf(items[..index]))
    {
      var text := StringOf(items[index]);
      assert items[..index + 1] == items[..index] + [items[index]];
      if text.None? {
        assert items[index] in items;
        return Failure(MalformedInput);
      }
      if text.value == "" {
        if AllStrings(items) {
          assert StringsOf(items)[index] == "";
        }
        return Failure(MalformedInput);
      }
      if text.value in found {
        if AllStrings(items) {
          StringsOfPrefix(items, index);
          var i :| 0 <= i < index && StringsOf(items)[..index][i] == text.value;
          assert StringsOf(items)[i] == StringsOf(items)[index];
        }
        return Failure(MalformedInput);
      }
      assert StringsOf(items[..index + 1]) == StringsOf(items[..index]) + [text.value];
      found := found + {text.value};
      index := index + 1;
    }
    assert items[..index] == items;
    r := Success(found);
  }

  // ---- predicates

  const VALUE_MEMBERS: set<string> := {"claim", "type", "op", "value"}
  const VALUES_MEMBERS: set<string> := {"claim", "type", "op", "values"}

  function PredicateOf(j: Json): Result<Predicate> {
    var fields := FieldsOf(j);
    var claim, kind, operation :=
      StringMember(fields, "claim"), StringMember(fields, "type"), StringMember(fields, "op");
    if claim.None? || claim.value == "" || kind.None? || operation.None? then Failure(MalformedInput)
    else if kind.value == "string" && operation.value == "equals" && ExactMembers(j, VALUE_MEMBERS, {})
            && StringMember(fields, "value").Some? then
      Success(Predicate(claim.value, StringEquals, StringMember(fields, "value").value, []))
    else if kind.value == "string" && operation.value == "one-of" && ExactMembers(j, VALUES_MEMBERS, {})
            && StringList(fields, "values", true).Success? then
      Success(Predicate(claim.value, StringOneOf, "", StringList(fields, "values", true).value))
    else if kind.value == "string-array" && operation.value == "contains" && ExactMembers(j, VALUE_MEMBERS, {})
            && StringMember(fields, "value").Some? then
      Success(Predicate(claim.value, StringArrayContains, StringMember(fields, "value").value, []))
    else Failure(MalformedInput)
  }

  function PredicatesOf(elements: seq<Json>): Result<seq<Predicate>>
    decreases |elements|
  {
    if elements == [] then Success([])
    else
      var first :- PredicateOf(elements[0]);
      var rest :- PredicatesOf(elements[1..]);
      Success([first] + rest)
  }

  function Predicates(fields: map<string, Json>, name: string, required: bool): Result<seq<Predicate>> {
    if name !in fields then (if required then Failure(MalformedInput) else Success([]))
    else if !fields[name].Array? then Failure(MalformedInput)
    else PredicatesOf(fields[name].elements)
  }

  // ---- limits

  function SizeMember(fields: map<string, Json>, name: string, maximum: nat): (r: Result<nat>)
    ensures r.Success? ==> 0 < r.value <= maximum
  {
    if name !in fields || !fields[name].Value? || !fields[name].scalar.Unsigned? then Failure(MalformedInput)
    else
      var value := fields[name].scalar.natural;
      if value == 0 || value > maximum then Failure(ResourceLimit) else Success(value)
  }

  const LIMIT_MEMBERS: set<string> :=
    {"max_token_bytes", "max_evidence_bytes", "max_ssh_certificate_bytes", "max_offered_key_chars",
     "max_authorized_keys_output_chars"}

  predicate InProtocol(l: ResourceLimits) {
    && 0 < l.maxTokenBytes <= 32768 && 0 < l.maxEvidenceBytes <= 16384 && 0 < l.maxCertificateBytes <= 49152
    && 0 < l.maxOfferedKeyChars <= 65536 && 0 < l.maxOutputChars <= 4096
  }

  function LimitsOf(j: Json): (r: Result<ResourceLimits>)
    ensures r.Success? ==> InProtocol(r.value)
  {
    if !ExactMembers(j, LIMIT_MEMBERS, {}) then Failure(MalformedInput)
    else
      var token :- SizeMember(j.fields, "max_token_bytes", 32768);
      var evidence :- SizeMember(j.fields, "max_evidence_bytes", 16384);
      var certificate :- SizeMember(j.fields, "max_ssh_certificate_bytes", 49152);
      var offered :- SizeMember(j.fields, "max_offered_key_chars", 65536);
      var output :- SizeMember(j.fields, "max_authorized_keys_output_chars", 4096);
      Success(ResourceLimits(token, evidence, certificate, offered, output))
  }

  // ---- issuers

  predicate Alphanumeric(c: char) {
    'A' <= c <= 'Z' || 'a' <= c <= 'z' || '0' <= c <= '9'
  }

  predicate ValidPolicyId(id: string) {
    && 0 < |id| <= 64 && Alphanumeric(id[0])
    && forall i :: 0 <= i < |id| ==> Alphanumeric(id[i]) || id[i] in {'.', '_', '-'}
  }

  const NATIVE_ACQUISITION: word := "oidc-native-auth-code-v1"
  const WEB_ACQUISITION: word := "oidc-confidential-web-auth-code-v1"
  const WORKLOAD_ACQUISITION: word := "challenge-bound-workload-v1"

  predicate CompatibleAcquisition(acquisitions: set<string>, bindings: set<string>) {
    && (NATIVE_ACQUISITION in acquisitions || WEB_ACQUISITION in acquisitions) == (NONCE_BINDING in bindings)
    && (WORKLOAD_ACQUISITION in acquisitions) == (AUDIENCE_BINDING in bindings || CLAIM_BINDING in bindings)
  }

  const ISSUER_REQUIRED: set<string> :=
    {"policy_id", "issuer", "key_source", "audiences", "issuer_algorithms", "caller_algorithms", "evidence_profiles",
     "binding_profiles", "acquisition_profiles", "require_non_reconstructible_evidence", "certificate_principal_claim"}
  const ISSUER_OPTIONAL: set<string> :=
    {"authorized_parties", "maximum_credential_age", "maximum_identity_lifetime", "audit_identity_claim",
     "required_claims",
     "environment_discriminator"}

  datatype Profiles = Profiles(audiences: set<string>, issuerAlgorithms: set<string>, callerAlgorithms: set<string>,
                               evidence: set<string>, bindings: set<string>, acquisitions: set<string>)

  function ProfilesOf(fields: map<string, Json>): Result<Profiles> {
    var audiences :- StringSet(fields, "audiences", true);
    var issuerAlgorithms :- StringSet(fields, "issuer_algorithms", true);
    var callerAlgorithms :- StringSet(fields, "caller_algorithms", true);
    var evidence :- StringSet(fields, "evidence_profiles", true);
    var bindings :- StringSet(fields, "binding_profiles", true);
    var acquisitions :- StringSet(fields, "acquisition_profiles", true);
    var _ :- Need(issuerAlgorithms == {"RS256"} && "ES256" in callerAlgorithms
                  && callerAlgorithms <= {"ES256", "Ed25519"} && evidence <= {STANDARD_EVIDENCE, GQ_EVIDENCE}
                  && bindings <= {NONCE_BINDING, AUDIENCE_BINDING, CLAIM_BINDING}
                  && acquisitions <= {NATIVE_ACQUISITION, WEB_ACQUISITION, WORKLOAD_ACQUISITION}
                  && CompatibleAcquisition(acquisitions, bindings), UnsupportedProfile);
    Success(Profiles(audiences, issuerAlgorithms, callerAlgorithms, evidence, bindings, acquisitions))
  }

  function AuthorizedParties(fields: map<string, Json>): Result<set<string>> {
    if "authorized_parties" in fields then StringSet(fields, "authorized_parties", true) else Success({})
  }

  /** The listed predicates, and the environment discriminator behind them. */
  function RequiredClaims(fields: map<string, Json>): Result<seq<Predicate>> {
    var listed :- Predicates(fields, "required_claims", false);
    if "environment_discriminator" !in fields then Success(listed)
    else
      var discriminator :- PredicateOf(fields["environment_discriminator"]);
      Success(listed + [discriminator])
  }

  function OptionalSeconds(fields: map<string, Json>, name: string): (r: Result<nat>)
    ensures r.Success? ==> r.value <= INT64_MAX
  {
    if name in fields then WholeSeconds(StringOf(fields[name]), true) else Success(0)
  }

  function AuditClaim(fields: map<string, Json>): Result<string> {
    if "audit_identity_claim" !in fields then Success("")
    else
      var selected := StringOf(fields["audit_identity_claim"]);
      if selected.None? || !Utf8.ValidName(Octets(selected.value), 256) then Failure(MalformedInput)
      else Success(selected.value)
  }

  function KeySource(e: Environment, fields: map<string, Json>): Result<Keys> {
    if "key_source" !in fields || !fields["key_source"].Object? then Failure(MalformedInput)
    else
      var source := fields["key_source"];
      var kind := StringMember(source.fields, "type");
      var _ :- Need(kind.Some?, MalformedInput);
      if kind.value == "oidc-discovery" then
        Failure(if ExactMembers(source, {"type"}, {}) then UnsupportedProfile else MalformedInput)
      else
        var _ :- Need(kind.value == "static-jwks-file" && ExactMembers(source, {"type", "path"}, {}),
                      UnsupportedProfile);
        var path := StringMember(source.fields, "path");
        var _ :- Need(path.Some? && |path.value| >= 2 && path.value[0] == '/', IssuerUntrusted);
        e.jwks(path.value)
  }

  function ClaimsOf(predicates: seq<Predicate>): set<string> {
    set p | p in predicates :: p.claim
  }

  function IssuerOf(e: Environment, j: Json, skew: nat, limits: ResourceLimits, taken: set<string>)
    : Result<IssuerConfiguration>
  {
    var _ :- Need(ExactMembers(j, ISSUER_REQUIRED, ISSUER_OPTIONAL), MalformedInput);
    var fields := FieldsOf(j);
    var id, issuer, principal :=
      StringMember(fields, "policy_id"), StringMember(fields, "issuer"),
      StringMember(fields, "certificate_principal_claim");
    var _ :- Need(id.Some? && ValidPolicyId(id.value) && id.value !in taken && issuer.Some? && e.validUri(issuer.value)
                  && principal.Some? && principal.value != "", IssuerUntrusted);
    var profiles :- ProfilesOf(fields);
    var parties :- AuthorizedParties(fields);
    var required :- RequiredClaims(fields);
    var age :- OptionalSeconds(fields, "maximum_credential_age");
    var lifetime :- OptionalSeconds(fields, "maximum_identity_lifetime");
    var flag := if "require_non_reconstructible_evidence" in fields then fields["require_non_reconstructible_evidence"]
                else Value(Null);
    var _ :- Need(flag.Value? && flag.scalar.Boolean?, MalformedInput);
    var audit :- AuditClaim(fields);
    var keys :- KeySource(e, fields);
    var admitted := {principal.value} + (if audit == "" then {} else {audit}) + ClaimsOf(required);
    var policy := IssuerPolicy(issuer.value, profiles.audiences, parties, profiles.issuerAlgorithms, profiles.evidence,
                               profiles.bindings, flag.scalar.truth, age, skew, required, admitted);
    Success(IssuerConfiguration(id.value,
                                CorePolicy(profiles.callerAlgorithms, policy, limits.maxTokenBytes,
                                           limits.maxEvidenceBytes),
                                CarrierPolicy(principal.value, lifetime, skew), profiles.acquisitions, audit, keys))
  }

  function IssuersOf(e: Environment, elements: seq<Json>, skew: nat, limits: ResourceLimits, taken: set<string>)
    : Result<seq<IssuerConfiguration>>
    decreases |elements|
  {
    if elements == [] then Success([])
    else
      var first :- IssuerOf(e, elements[0], skew, limits, taken);
      var rest :- IssuersOf(e, elements[1..], skew, limits, taken + {first.policyId});
      Success([first] + rest)
  }

  // ---- accounts

  const PERMISSIONS: set<string> :=
    {"permit-agent-forwarding", "permit-port-forwarding", "permit-pty", "permit-user-rc", "permit-X11-forwarding"}

  function IssuerNames(issuers: seq<IssuerConfiguration>): set<string> {
    set i | i in issuers :: i.core.issuerPolicy.issuer
  }

  function RuleOf(j: Json, names: set<string>): Result<AccountRule> {
    var _ :- Need(ExactMembers(j, {"issuer", "all", "allowed_certificate_extensions"}, {}), MalformedInput);
    var fields := FieldsOf(j);
    var issuer, all, extensions :=
      StringMember(fields, "issuer"), Predicates(fields, "all", true),
      StringSet(fields, "allowed_certificate_extensions", false);
    var _ :- Need(issuer.Some? && all.Success? && extensions.Success? && issuer.value in names
                  && extensions.value <= PERMISSIONS, IssuerUntrusted);
    Success(AccountRule(issuer.value, all.value, extensions.value))
  }

  /** The issuers a rule names admit the claims the rule looks at. */
  function Admit(i: IssuerConfiguration, rule: AccountRule): (r: IssuerConfiguration)
    ensures r == i || r == i.(core := r.core)
  {
    if i.core.issuerPolicy.issuer != rule.issuer then i
    else i.(core := i.core.(issuerPolicy := i.core.issuerPolicy.(
              admittedClaims := i.core.issuerPolicy.admittedClaims + ClaimsOf(rule.all))))
  }

  function AdmitAll(issuers: seq<IssuerConfiguration>, rule: AccountRule): (r: seq<IssuerConfiguration>)
    ensures |r| == |issuers|
  {
    seq(|issuers|, i requires 0 <= i < |issuers| => Admit(issuers[i], rule))
  }

  datatype Progress = Progress(issuers: seq<IssuerConfiguration>, accounts: Accounts, rules: nat)

  /** One more rule for an account. */
  function AddRule(p: Progress, name: string, j: Json): Result<Progress> {
    var _ :- Need(p.rules + 1 <= MAXIMUM_ACCOUNT_RULES, ResourceLimit);
    var rule :- RuleOf(j, IssuerNames(p.issuers));
    var so := if name in p.accounts then p.accounts[name] else [];
    Success(Progress(AdmitAll(p.issuers, rule), p.accounts[name := so + [rule]], p.rules + 1))
  }

  function AddRules(p: Progress, name: string, elements: seq<Json>): Result<Progress>
    decreases |elements|
  {
    if elements == [] then Success(p)
    else
      var next :- AddRule(p, name, elements[0]);
      AddRules(next, name, elements[1..])
  }

  function AddAccount(p: Progress, name: string, j: Json): Result<Progress> {
    var _ :- Need(Utf8.ValidName(Octets(name), 256) && ExactMembers(j, {"allow"}, {})
                  && FieldsOf(j)["allow"].Array? && FieldsOf(j)["allow"].elements != [], MalformedInput);
    AddRules(p, name, FieldsOf(j)["allow"].elements)
  }

  function AddAccounts(p: Progress, names: seq<string>, accounts: map<string, Json>): Result<Progress>
    requires forall n :: n in names ==> n in accounts
    decreases |names|
  {
    if names == [] then Success(p)
    else
      var next :- AddAccount(p, names[0], accounts[names[0]]);
      AddAccounts(next, names[1..], accounts)
  }

  // ---- the document

  const TOP_REQUIRED: set<string> :=
    {"version", "clock_skew", "total_verification_deadline", "resource_limits", "trusted_issuers", "accounts",
     "logging"}
  const TOP_OPTIONAL: set<string> := {"issuer_key_cache"}

  function ParseFacility(name: string): Result<Facility> {
    match name
    case "authpriv" => Success(Authpriv)
    case "auth" => Success(Auth)
    case "daemon" => Success(Daemon)
    case "user" => Success(User)
    case "local0" => Success(Local0)
    case "local1" => Success(Local1)
    case "local2" => Success(Local2)
    case "local3" => Success(Local3)
    case "local4" => Success(Local4)
    case "local5" => Success(Local5)
    case "local6" => Success(Local6)
    case "local7" => Success(Local7)
    case _ => Failure(UnsupportedProfile)
  }

  function FacilityOf(logging: Json): Result<Facility> {
    var fields := FieldsOf(logging);
    if "facility" !in fields then Success(Authpriv)
    else
      var selected := StringOf(fields["facility"]);
      var _ :- Need(selected.Some?, MalformedInput);
      ParseFacility(selected.value)
  }

  function TextDuration(fields: map<string, Json>, name: string): Result<nat> {
    var text := StringMember(fields, name);
    if text.None? then Failure(MalformedInput) else DurationNanoseconds(text.value)
  }

  /** The key cache is checked and otherwise unused. */
  function CheckCache(fields: map<string, Json>): Result<()> {
    if "issuer_key_cache" !in fields then Success(())
    else
      var cache := fields["issuer_key_cache"];
      var _ :- Need(ExactMembers(cache, {"directory", "maximum_freshness"}, {}), MalformedInput);
      var directory := StringMember(FieldsOf(cache), "directory");
      var freshness :- TextDuration(FieldsOf(cache), "maximum_freshness");
      var _ :- Need(directory.Some? && |directory.value| >= 2 && directory.value[0] == '/', MalformedInput);
      Need(freshness == 0 || 60 * SECOND <= freshness <= 720 * 3600 * SECOND, ResourceLimit)
  }

  /** The scalar settings, in the order they are judged. */
  function SettingsOf(root: Json): (r: Result<Configuration>)
    ensures r.Success? ==>
              && root.Object? && "trusted_issuers" in root.fields && root.fields["trusted_issuers"].Array?
              && "accounts" in root.fields && root.fields["accounts"].Object?
              && |root.fields["trusted_issuers"].elements| <= MAXIMUM_POLICIES
              && r.value.issuers == [] && r.value.accounts == map[]
              && 0 <= r.value.skew <= INT64_MAX && 0 < r.value.deadline <= 10 * SECOND && InProtocol(r.value.limits)
  {
    var _ :- Need(ExactMembers(root, TOP_REQUIRED, TOP_OPTIONAL), MalformedInput);
    var fields := FieldsOf(root);
    assert TOP_REQUIRED <= fields.Keys;
    var _ :- Need(fields["version"] == Value(Unsigned(1)), UnsupportedVersion);
    var skew :- WholeSeconds(StringMember(fields, "clock_skew"), false);
    var deadline :- TextDuration(fields, "total_verification_deadline");
    var limits :- LimitsOf(fields["resource_limits"]);
    var _ :- Need(0 < deadline <= 10 * SECOND, ResourceLimit);
    var _ :- CheckCache(fields);
    var _ :- Need(fields["trusted_issuers"].Array? && |fields["trusted_issuers"].elements| <= MAXIMUM_POLICIES
                  && fields["accounts"].Object? && ExactMembers(fields["logging"], {}, {"facility"}), MalformedInput);
    var facility :- FacilityOf(fields["logging"]);
    Success(Configuration(skew, deadline, limits, [], map[], facility))
  }

  /** `parse_and_validate` behind the parser. */
  function Validate(e: Environment, root: Json): Result<Configuration>
    requires Walks(e)
  {
    var c :- SettingsOf(root);
    var accounts := root.fields["accounts"].fields;
    assert Enumerates(e.order(accounts), accounts);
    var issuers :- IssuersOf(e, root.fields["trusted_issuers"].elements, c.skew, c.limits, {});
    var p :- AddAccounts(Progress(issuers, map[], 0), e.order(accounts), accounts);
    Success(c.(issuers := p.issuers, accounts := p.accounts))
  }

  // ---- what a validated configuration is

  /** The issuer admits every claim it needs itself. */
  predicate AdmitsOwn(i: IssuerConfiguration) {
    var admitted := i.core.issuerPolicy.admittedClaims;
    && i.carrier.principalClaim != "" && i.carrier.principalClaim in admitted
    && (i.auditClaim != "" ==> i.auditClaim in admitted)
    && ClaimsOf(i.core.issuerPolicy.requiredClaims) <= admitted
  }

  predicate AdmitsRule(i: IssuerConfiguration, rule: AccountRule) {
    rule.issuer == i.core.issuerPolicy.issuer ==> ClaimsOf(rule.all) <= i.core.issuerPolicy.admittedClaims
  }

  predicate SoundIssuer(i: IssuerConfiguration, skew: int) {
    && ValidPolicyId(i.policyId) && AdmitsOwn(i)
    && i.core.issuerPolicy.skew == skew && i.carrier.skew == skew
    && 0 <= i.core.issuerPolicy.maximumAge <= INT64_MAX && 0 <= i.carrier.maximumLifetime <= INT64_MAX
    && i.core.issuerPolicy.evidenceProfiles <= {STANDARD_EVIDENCE, GQ_EVIDENCE}
    && i.core.issuerPolicy.bindingProfiles <= {NONCE_BINDING, AUDIENCE_BINDING, CLAIM_BINDING}
    && i.acquisitions <= {NATIVE_ACQUISITION, WEB_ACQUISITION, WORKLOAD_ACQUISITION}
    && 0 < i.core.maxTokenBytes <= 32768 && 0 < i.core.maxEvidenceBytes <= 16384
  }

  ghost predicate SoundIssuers(issuers: seq<IssuerConfiguration>, skew: int) {
    && (forall i :: 0 <= i < |issuers| ==> SoundIssuer(issuers[i], skew))
    && forall i, j :: 0 <= i < j < |issuers| ==> issuers[i].policyId != issuers[j].policyId
  }

  /** Every account rule is one its issuers' admitted claims are enough for. */
  ghost predicate Covered(issuers: seq<IssuerConfiguration>, accounts: Accounts) {
    forall i, name, r :: 0 <= i < |issuers| && name in accounts && r in accounts[name] ==> AdmitsRule(issuers[i], r)
  }

  ghost predicate Sound(c: Configuration) {
    && 0 <= c.skew <= INT64_MAX && 0 < c.deadline <= 10 * SECOND && InProtocol(c.limits)
    && |c.issuers| <= MAXIMUM_POLICIES
    && SoundIssuers(c.issuers, c.skew) && Covered(c.issuers, c.accounts)
    && forall name :: name in c.accounts ==> Utf8.IsName(Octets(name))
  }

  lemma {:induction false} IssuersAreSound(e: Environment, elements: seq<Json>, skew: nat, limits: ResourceLimits,
                                           taken: set<string>)
    requires InProtocol(limits)
    ensures var r := IssuersOf(e, elements, skew, limits, taken);
            r.Success? ==>
              && |r.value| == |elements| && SoundIssuers(r.value, skew)
              && forall i :: 0 <= i < |r.value| ==> r.value[i].policyId !in taken
    decreases |elements|
  {
    if elements != [] {
      var first := IssuerOf(e, elements[0], skew, limits, taken);
      if first.Success? {
        IssuerIsSound(e, elements[0], skew, limits, taken);
        hide IssuerOf, SoundIssuer;
        IssuersAreSound(e, elements[1..], skew, limits, taken + {first.value.policyId});
      }
    }
  }

  lemma IssuerIsSound(e: Environment, j: Json, skew: nat, limits: ResourceLimits, taken: set<string>)
    requires InProtocol(limits)
    ensures var r := IssuerOf(e, j, skew, limits, taken);
            r.Success? ==> SoundIssuer(r.value, skew) && r.value.policyId !in taken
  {
    hide ExactMembers, ProfilesOf, AuthorizedParties, RequiredClaims, OptionalSeconds, AuditClaim, KeySource,
         ValidPolicyId;
    var profiles := ProfilesOf(FieldsOf(j));
    if profiles.Success? {
      ProfilesAreKnown(FieldsOf(j));
    }
  }

  lemma ProfilesAreKnown(fields: map<string, Json>)
    ensures var p := ProfilesOf(fields);
            p.Success? ==>
              && p.value.evidence <= {STANDARD_EVIDENCE, GQ_EVIDENCE}
              && p.value.bindings <= {NONCE_BINDING, AUDIENCE_BINDING, CLAIM_BINDING}
              && p.value.acquisitions <= {NATIVE_ACQUISITION, WEB_ACQUISITION, WORKLOAD_ACQUISITION}
  {
    hide StringSet, CompatibleAcquisition;
  }

  lemma AdmitKeepsSound(i: IssuerConfiguration, rule: AccountRule, skew: int)
    requires SoundIssuer(i, skew)
    ensures SoundIssuer(Admit(i, rule), skew) && AdmitsRule(Admit(i, rule), rule)
    ensures forall r :: AdmitsRule(i, r) ==> AdmitsRule(Admit(i, rule), r)
  {
  }

  ghost predicate SoundProgress(p: Progress, skew: int) {
    && SoundIssuers(p.issuers, skew) && Covered(p.issuers, p.accounts)
    && forall name :: name in p.accounts ==> Utf8.IsName(Octets(name))
  }

  lemma RuleKeepsSound(p: Progress, name: string, j: Json, skew: int)
    requires SoundProgress(p, skew) && Utf8.IsName(Octets(name))
    ensures var r := AddRule(p, name, j);
            r.Success? ==> SoundProgress(r.value, skew) && |r.value.issuers| == |p.issuers|
  {
    hide RuleOf, SoundIssuer, AdmitsRule, Admit, Utf8.IsName;
    var r := AddRule(p, name, j);
    if r.Success? {
      var rule := RuleOf(j, IssuerNames(p.issuers)).value;
      forall i | 0 <= i < |p.issuers|
        ensures SoundIssuer(r.value.issuers[i], skew) && r.value.issuers[i].policyId == p.issuers[i].policyId
        ensures AdmitsRule(r.value.issuers[i], rule)
        ensures forall x :: AdmitsRule(p.issuers[i], x) ==> AdmitsRule(r.value.issuers[i], x)
      {
        AdmitKeepsSound(p.issuers[i], rule, skew);
        assert r.value.issuers[i] == Admit(p.issuers[i], rule);
      }
    }
  }

  lemma {:induction false} RulesKeepSound(p: Progress, name: string, elements: seq<Json>, skew: int)
    requires SoundProgress(p, skew) && Utf8.IsName(Octets(name))
    ensures var r := AddRules(p, name, elements);
            r.Success? ==> SoundProgress(r.value, skew) && |r.value.issuers| == |p.issuers|
    decreases |elements|
  {
    hide SoundProgress, AddRule, Utf8.IsName;
    if elements != [] {
      RuleKeepsSound(p, name, elements[0], skew);
      var next := AddRule(p, name, elements[0]);
      if next.Success? {
        RulesKeepSound(next.value, name, elements[1..], skew);
      }
    }
  }

  lemma {:induction false} AccountsKeepSound(p: Progress, names: seq<string>, accounts: map<string, Json>, skew: int)
    requires SoundProgress(p, skew) && forall n :: n in names ==> n in accounts
    ensures var r := AddAccounts(p, names, accounts);
            r.Success? ==> SoundProgress(r.value, skew) && |r.value.issuers| == |p.issuers|
    decreases |names|
  {
    hide SoundProgress, AddRules, Utf8.IsName, Utf8.ValidName;
    if names != [] {
      var next := AddAccount(p, names[0], accounts[names[0]]);
      if next.Success? {
        Utf8.ValidNameIsName(Octets(names[0]));
        RulesKeepSound(p, names[0], FieldsOf(accounts[names[0]])["allow"].elements, skew);
        AccountsKeepSound(next.value, names[1..], accounts, skew);
      }
    }
  }

  /** Whatever validates is sound: bounded, with one skew, with distinct policies, with account names that are
      printable UTF-8, and with every claim that any lookup needs admitted. */
  lemma ValidatedIsSound(e: Environment, root: Json)
    requires Walks(e)
    ensures Validate(e, root).Success? ==> Sound(Validate(e, root).value)
  {
    hide SettingsOf, IssuersOf, AddAccounts, SoundIssuers;
    var c := SettingsOf(root);
    if c.Success? {
      var accounts := root.fields["accounts"].fields;
      assert Enumerates(e.order(accounts), accounts);
      IssuersAreSound(e, root.fields["trusted_issuers"].elements, c.value.skew, c.value.limits, {});
      var issuers := IssuersOf(e, root.fields["trusted_issuers"].elements, c.value.skew, c.value.limits, {});
      if issuers.Success? {
        AccountsKeepSound(Progress(issuers.value, map[], 0), e.order(accounts), accounts, c.value.skew);
      }
    }
  }

  // ---- the loops

  /** The body of `string_set` and the loop of `predicates`. */
  method ReadPredicates(fields: map<string, Json>, name: string, required: bool) returns (r: Result<seq<Predicate>>)
    ensures r == Predicates(fields, name, required)
  {
    hide PredicateOf;
    if name !in fields {
      return if required then Failure(MalformedInput) else Success([]);
    }
    if !fields[name].Array? {
      return Failure(MalformedInput);
    }
    var items := fields[name].elements;
    var result: seq<Predicate> := [];
    var index := 0;
    assert items[0..] == items;
    PrependNoPredicates(PredicatesOf(items));
    while index < |items|
      invariant 0 <= index <= |items|
      invariant PredicatesOf(items) == PrependPredicates(result, PredicatesOf(items[index..]))
    {
      assert items[index..][0] == items[index] && items[index..][1..] == items[index + 1..];
      var parsed := PredicateOf(items[index]);
      if parsed.Failure? {
        return Failure(parsed.kind);
      }
      PrependOnePredicate(result, parsed.value, PredicatesOf(items[index + 1..]));
      result := result + [parsed.value];
      index := index + 1;
    }
    assert items[index..] == [];
    r := Success(result);
    assert result + [] == result;
  }

  function PrependPredicates(x: seq<Predicate>, y: Result<seq<Predicate>>): Result<seq<Predicate>> {
    if y.Success? then Success(x + y.value) else y
  }

  lemma PrependNoPredicates(y: Result<seq<Predicate>>)
    ensures PrependPredicates([], y) == y
  {
    if y.Success? {
      assert [] + y.value == y.value;
    }
  }

  lemma PrependOnePredicate(x: seq<Predicate>, p: Predicate, y: Result<seq<Predicate>>)
    ensures PrependPredicates(x, PrependPredicates([p], y)) == PrependPredicates(x + [p], y)
  {
    if y.Success? {
      assert x + ([p] + y.value) == (x + [p]) + y.value;
    }
  }

  /** `parse_and_validate`: the issuer loop, then the account loop, which goes on adding admitted claims
      to the issuers collected before. */
  class Validator {
    const environment: Environment
    var issuers: seq<IssuerConfiguration>
    var policyIds: set<string>
    var accounts: Accounts
    var ruleCount: nat

    constructor (environment: Environment)
      ensures this.environment == environment && issuers == [] && policyIds == {} && accounts == map[] && ruleCount == 0
    {
      this.environment := environment;
      issuers, policyIds, accounts, ruleCount := [], {}, map[], 0;
    }

    ghost function Now(): Progress
      reads this
    {
      Progress(issuers, accounts, ruleCount)
    }

    method ReadIssuers(elements: seq<Json>, skew: nat, limits: ResourceLimits) returns (failure: Option<Kind>)
      requires issuers == [] && policyIds == {}
      modifies this`issuers, this`policyIds
      ensures var r := IssuersOf(environment, elements, skew, limits, {});
              if failure.None? then r == Success(issuers) else r == Failure(failure.value)
    {
      hide IssuerOf;
      ghost var whole := IssuersOf(environment, elements, skew, limits, {});
      var index := 0;
      assert elements[0..] == elements;
      PrependNoIssuers(whole);
      while index < |elements|
        invariant 0 <= index <= |elements|
        invariant whole == PrependIssuers(issuers, IssuersOf(environment, elements[index..], skew, limits, policyIds))
      {
        assert elements[index..][0] == elements[index] && elements[index..][1..] == elements[index + 1..];
        var issuer := IssuerOf(environment, elements[index], skew, limits, policyIds);
        if issuer.Failure? {
          return Some(issuer.kind);
        }
        policyIds := policyIds + {issuer.value.policyId};
        PrependOneIssuer(issuers, issuer.value, IssuersOf(environment, elements[index + 1..], skew, limits, policyIds));
        issuers := issuers + [issuer.value];
        index := index + 1;
      }
      assert elements[index..] == [] && issuers + [] == issuers;
      failure := None;
    }

    /** The inner loop over the issuers: the claims of the rule are admitted where its issuer is configured. */
    method AdmitClaims(rule: AccountRule)
      modifies this`issuers
      ensures issuers == AdmitAll(old(issuers), rule)
    {
      var index := 0;
      while index < |issuers|
        invariant 0 <= index <= |issuers| == |old(issuers)|
        invariant issuers[..index] == AdmitAll(old(issuers), rule)[..index] && issuers[index..] == old(issuers)[index..]
      {
        var i := issuers[index];
        assert i == old(issuers)[index..][0];
        if i.core.issuerPolicy.issuer == rule.issuer {
          var policy := i.core.issuerPolicy;
          var admitted := policy.admittedClaims;
          var item := 0;
          while item < |rule.all|
            invariant 0 <= item <= |rule.all| && admitted == policy.admittedClaims + ClaimsOf(rule.all[..item])
          {
            assert rule.all[..item + 1] == rule.all[..item] + [rule.all[item]];
            admitted := admitted + {rule.all[item].claim};
            item := item + 1;
          }
          assert rule.all[..item] == rule.all;
          issuers := issuers[index := i.(core := i.core.(issuerPolicy := policy.(admittedClaims := admitted)))];
        }
        index := index + 1;
      }
    }

    method ReadRules(name: string, elements: seq<Json>) returns (failure: Option<Kind>)
      modifies this`issuers, this`accounts, this`ruleCount
      ensures var r := AddRules(old(Now()), name, elements);
              if failure.None? then r == Success(Now()) else r == Failure(failure.value)
    {
      hide RuleOf, AdmitAll;
      var index := 0;
      assert elements[0..] == elements;
      while index < |elements|
        invariant 0 <= index <= |elements|
        invariant AddRules(old(Now()), name, elements) == AddRules(Now(), name, elements[index..])
      {
        assert elements[index..][0] == elements[index] && elements[index..][1..] == elements[index + 1..];
        if ruleCount + 1 > MAXIMUM_ACCOUNT_RULES {
          return Some(ResourceLimit);
        }
        var rule := RuleOf(elements[index], IssuerNames(issuers));
        if rule.Failure? {
          return Some(rule.kind);
        }
        ruleCount := ruleCount + 1;
        accounts := accounts[name := (if name in accounts then accounts[name] else []) + [rule.value]];
        AdmitClaims(rule.value);
        index := index + 1;
      }
      assert elements[index..] == [];
      failure := None;
    }

    method ReadAccounts(names: seq<string>, fields: map<string, Json>) returns (failure: Option<Kind>)
      requires forall n :: n in names ==> n in fields
      modifies this`issuers, this`accounts, this`ruleCount
      ensures var r := AddAccounts(old(Now()), names, fields);
              if failure.None? then r == Success(Now()) else r == Failure(failure.value)
    {
      hide AddRules;
      var index := 0;
      assert names[0..] == names;
      while index < |names|
        invariant 0 <= index <= |names|
        invariant AddAccounts(old(Now()), names, fields) == AddAccounts(Now(), names[index..], fields)
      {
        assert names[index..][0] == names[index] && names[index..][1..] == names[index + 1..];
        var named := Utf8.WithoutControls(Octets(names[index]), 256);
        var account := fields[names[index]];
        if !named || !ExactMembers(account, {"allow"}, {}) || !account.fields["allow"].Array?
           || account.fields["allow"].elements == [] {
          return Some(MalformedInput);
        }
        failure := ReadRules(names[index], account.fields["allow"].elements);
        if failure.Some? {
          return;
        }
        index := index + 1;
      }
      assert names[index..] == [];
      failure := None;
    }
  }

  function PrependIssuers(x: seq<IssuerConfiguration>, y: Result<seq<IssuerConfiguration>>)
    : Result<seq<IssuerConfiguration>>
  {
    if y.Success? then Success(x + y.value) else y
  }

  lemma PrependNoIssuers(y: Result<seq<IssuerConfiguration>>)
    ensures PrependIssuers([], y) == y
  {
    if y.Success? {
      assert [] + y.value == y.value;
    }
  }

  lemma PrependOneIssuer(x: seq<IssuerConfiguration>, i: IssuerConfiguration, y: Result<seq<IssuerConfiguration>>)
    ensures PrependIssuers(x, PrependIssuers([i], y)) == PrependIssuers(x + [i], y)
  {
    if y.Success? {
      assert x + ([i] + y.value) == (x + [i]) + y.value;
    }
  }

  method ParseAndValidate(e: Environment, root: Json) returns (r: Result<Configuration>)
    requires Walks(e)
    ensures r == Validate(e, root)
  {
    hide SettingsOf, IssuersOf, AddAccounts;
    var settings := SettingsOf(root);
    if settings.Failure? {
      return Failure(settings.kind);
    }
    var c := settings.value;
    var accounts := root.fields["accounts"].fields;
    assert Enumerates(e.order(accounts), accounts);
    var v := new Validator(e);
    var failure := v.ReadIssuers(root.fields["trusted_issuers"].elements, c.skew, c.limits);
    if failure.Some? {
      return Failure(failure.value);
    }
    failure := v.ReadAccounts(e.order(accounts), accounts);
    if failure.Some? {
      return Failure(failure.value);
    }
    r := Success(c.(issuers := v.issuers, accounts := v.accounts));
  }
}
