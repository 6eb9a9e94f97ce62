/** `config init`: the canonical configuration of `src/config.cpp`, built member by member in a fixed order. */
module Initializer {
  import opened Configurations
  import opened Durations
  import opened Errors
  import opened JsonTrees
  import opened OrderedTrees
  import opened Printing
  import opened Writings
  import TreeBuilder
  import Utf8

  // ---- what the validator has made sure of

  predicate PredicateShape(j: Json) {
    j.Object? && (ExactMembers(j, VALUE_MEMBERS, {}) || ExactMembers(j, VALUES_MEMBERS, {}))
  }

  predicate PredicateListShape(j: Json) {
    j.Array? && forall i :: 0 <= i < |j.elements| ==> PredicateShape(j.elements[i])
  }

  predicate IssuerShape(j: Json) {
    && ExactMembers(j, ISSUER_REQUIRED, ISSUER_OPTIONAL)
    && "key_source" in j.fields && ExactMembers(j.fields["key_source"], {"type", "path"}, {})
    && ("required_claims" in j.fields ==> PredicateListShape(j.fields["required_claims"]))
    && ("environment_discriminator" in j.fields ==> PredicateShape(j.fields["environment_discriminator"]))
  }

  predicate RuleShape(j: Json) {
    && ExactMembers(j, {"issuer", "all", "allowed_certificate_extensions"}, {})
    && PredicateListShape(j.fields["all"])
  }

  predicate AccountShape(j: Json) {
    && ExactMembers(j, {"allow"}, {}) && j.fields["allow"].Array?
    && forall i :: 0 <= i < |j.fields["allow"].elements| ==> RuleShape(j.fields["allow"].elements[i])
  }

  lemma PredicateHasShape(j: Json)
    requires PredicateOf(j).Success?
    ensures PredicateShape(j)
  {
    hide StringList;
  }

  lemma {:induction false} PredicatesHaveShape(elements: seq<Json>)
    requires PredicatesOf(elements).Success?
    ensures forall i :: 0 <= i < |elements| ==> PredicateShape(elements[i])
    decreases |elements|
  {
    hide PredicateOf, PredicateShape;
    if elements != [] {
      PredicateHasShape(elements[0]);
      PredicatesHaveShape(elements[1..]);
      assert forall i :: 0 < i < |elements| ==> elements[i] == elements[1..][i - 1];
    }
  }

  lemma RequiredHaveShape(fields: map<string, Json>)
    requires RequiredClaims(fields).Success?
    ensures "required_claims" in fields ==> PredicateListShape(fields["required_claims"])
    ensures "environment_discriminator" in fields ==> PredicateShape(fields["environment_discriminator"])
  {
    hide PredicateOf, PredicateShape, PredicatesOf;
    if "required_claims" in fields {
      PredicatesHaveShape(fields["required_claims"].elements);
    }
    if "environment_discriminator" in fields {
      PredicateHasShape(fields["environment_discriminator"]);
    }
  }

  lemma KeySourceHasShape(e: Environment, fields: map<string, Json>)
    requires KeySource(e, fields).Success?
    ensures "key_source" in fields && ExactMembers(fields["key_source"], {"type", "path"}, {})
  {
    hide ExactMembers;
  }

  lemma IssuerHasShape(e: Environment, j: Json, skew: nat, limits: ResourceLimits, taken: set<string>)
    requires IssuerOf(e, j, skew, limits, taken).Success?
    ensures IssuerShape(j)
  {
    hide ProfilesOf, AuthorizedParties, RequiredClaims, OptionalSeconds, AuditClaim, ValidPolicyId, PredicateListShape,
         PredicateShape, KeySource, ExactMembers;
    RequiredHaveShape(FieldsOf(j));
    KeySourceHasShape(e, FieldsOf(j));
    MembersAreFields(j);
  }

  lemma MembersAreFields(j: Json)
    requires ExactMembers(j, ISSUER_REQUIRED, ISSUER_OPTIONAL)
    ensures j.Object? && FieldsOf(j) == j.fields
  {
  }

  lemma {:induction false} IssuersHaveShape(e: Environment, elements: seq<Json>, skew: nat, limits: ResourceLimits,
                                            taken: set<string>)
    requires IssuersOf(e, elements, skew, limits, taken).Success?
    ensures forall i :: 0 <= i < |elements| ==> IssuerShape(elements[i])
    decreases |elements|
  {
    hide IssuerOf, IssuerShape;
    if elements != [] {
      IssuerHasShape(e, elements[0], skew, limits, taken);
      IssuersHaveShape(e, elements[1..], skew, limits,
                       taken + {IssuerOf(e, elements[0], skew, limits, taken).value.policyId});
      assert forall i :: 0 < i < |elements| ==> elements[i] == elements[1..][i - 1];
    }
  }

  lemma RuleHasShape(j: Json, names: set<string>)
    requires RuleOf(j, names).Success?
    ensures RuleShape(j)
  {
    hide PredicatesOf, PredicateShape, StringSet;
    PredicatesHaveShape(FieldsOf(j)["all"].elements);
  }

  lemma {:induction false} RulesHaveShape(p: Progress, name: string, elements: seq<Json>)
    requires AddRules(p, name, elements).Success?
    ensures forall i :: 0 <= i < |elements| ==> RuleShape(elements[i])
    decreases |elements|
  {
    hide RuleOf, RuleShape, AdmitAll;
    if elements != [] {
      RuleHasShape(elements[0], IssuerNames(p.issuers));
      RulesHaveShape(AddRule(p, name, elements[0]).value, name, elements[1..]);
      assert forall i :: 0 < i < |elements| ==> elements[i] == elements[1..][i - 1];
    }
  }

  lemma {:induction false} AccountsHaveShape(p: Progress, names: seq<string>, accounts: map<string, Json>)
    requires (forall n :: n in names ==> n in accounts) && AddAccounts(p, names, accounts).Success?
    ensures forall n :: n in names ==> AccountShape(accounts[n])
    decreases |names|
  {
    hide AddRules, RuleShape, Utf8.ValidName;
    if names != [] {
      RulesHaveShape(p, names[0], FieldsOf(accounts[names[0]])["allow"].elements);
      AccountsHaveShape(AddAccount(p, names[0], accounts[names[0]]).value, names[1..], accounts);
      assert names == [names[0]] + names[1..];
    }
  }

  // ---- the canonical order

  const PREDICATE_ORDER: seq<string> := ["claim", "type", "op", "value", "values"]
  const SOURCE_ORDER: seq<string> := ["type", "path"]
  const IDENTITY_ORDER: seq<string> :=
    ["policy_id", "issuer", "key_source", "audiences", "authorized_parties", "issuer_algorithms", "caller_algorithms"]
  const POLICY_ORDER: seq<string> :=
    ["evidence_profiles", "binding_profiles", "acquisition_profiles", "require_non_reconstructible_evidence",
     "maximum_credential_age", "maximum_identity_lifetime", "certificate_principal_claim", "audit_identity_claim"]
  const ISSUER_ORDER: seq<string> := IDENTITY_ORDER + POLICY_ORDER + ["required_claims", "environment_discriminator"]
  const RULE_ORDER: seq<string> := ["issuer", "all", "allowed_certificate_extensions"]
  const DOCUMENT_ORDER: seq<string> :=
    ["version", "clock_skew", "total_verification_deadline", "resource_limits", "issuer_key_cache", "trusted_issuers",
     "accounts", "logging"]

  /** The object with these members, in the order. */
  predicate InOrder(o: Ordered, value: Json, order: seq<string>) {
    && Forget(o) == value && Tidy(o) && value.Object? && o.OrderedObject?
    && NamesOf(o.members) == Walk(order, value.fields)
  }

  // ---- the builders

  /** Nothing is left out of the orders. */
  lemma PredicateOrderCovers()
    ensures VALUE_MEMBERS + VALUES_MEMBERS <= SetOf(PREDICATE_ORDER)
  {
    var o := PREDICATE_ORDER;
    assert o[0] == "claim" && o[1] == "type" && o[2] == "op" && o[3] == "value" && o[4] == "values";
  }

  lemma SourceOrderCovers()
    ensures {"type", "path"} <= SetOf(SOURCE_ORDER)
  {
    assert SOURCE_ORDER[0] == "type" && SOURCE_ORDER[1] == "path";
  }

  lemma RuleOrderCovers()
    ensures {"issuer", "all", "allowed_certificate_extensions"} <= SetOf(RULE_ORDER)
  {
    var o := RULE_ORDER;
    assert o[0] == "issuer" && o[1] == "all" && o[2] == "allowed_certificate_extensions";
  }

  lemma IssuerOrderCovers()
    ensures ISSUER_REQUIRED + ISSUER_OPTIONAL <= SetOf(ISSUER_ORDER)
  {
    var a, b, c := IDENTITY_ORDER, POLICY_ORDER, ["required_claims", "environment_discriminator"];
    assert a[0] == "policy_id" && a[1] == "issuer" && a[2] == "key_source" && a[3] == "audiences"
           && a[4] == "authorized_parties"
           && a[5] == "issuer_algorithms" && a[6] == "caller_algorithms";
    assert b[0] == "evidence_profiles" && b[1] == "binding_profiles" && b[2] == "acquisition_profiles"
           && b[3] == "require_non_reconstructible_evidence" && b[4] == "maximum_credential_age"
           && b[5] == "maximum_identity_lifetime" && b[6] == "certificate_principal_claim"
           && b[7] == "audit_identity_claim";
    assert c[0] == "required_claims" && c[1] == "environment_discriminator";
    SetOfThree(a, b, c);
  }

  lemma SetOfThree(a: seq<string>, b: seq<string>, c: seq<string>)
    ensures SetOf(a + b + c) == SetOf(a) + SetOf(b) + SetOf(c)
  {
  }

  lemma DocumentOrderCovers()
    ensures TOP_REQUIRED + TOP_OPTIONAL <= SetOf(DOCUMENT_ORDER)
  {
    var o := DOCUMENT_ORDER;
    assert o[0] == "version" && o[1] == "clock_skew" && o[2] == "total_verification_deadline"
           && o[3] == "resource_limits"
           && o[4] == "issuer_key_cache" && o[5] == "trusted_issuers" && o[6] == "accounts" && o[7] == "logging";
  }

  method OrderPredicate(value: Json) returns (o: Ordered)
    requires PredicateShape(value)
    ensures InOrder(o, value, PREDICATE_ORDER)
  {
    hide Restrict, Collect, DistinctNames, Walk, SetOf, Forget, Put, Copies, NamesOf;
    NothingCopied(value.fields);
    var output, s := CopyMember([], value.fields, "claim", []);
    output, s := CopyMember(output, value.fields, "type", s);
    output, s := CopyMember(output, value.fields, "op", s);
    output, s := CopyOptional(output, value.fields, "value", s);
    output, s := CopyOptional(output, value.fields, "values", s);
    assert s == PREDICATE_ORDER;
    PredicateOrderCovers();
    CopiedAll(output, value.fields, s);
    o := OrderedObject(output);
  }

  method OrderPredicates(value: Json) returns (o: Ordered)
    requires PredicateListShape(value)
    ensures Forget(o) == value && Tidy(o)
  {
    hide PredicateShape;
    var output: seq<Ordered> := [];
    var index := 0;
    while index < |value.elements|
      invariant 0 <= index <= |value.elements| && |output| == index
      invariant forall i :: 0 <= i < index ==> Forget(output[i]) == value.elements[i] && Tidy(output[i])
    {
      var item := OrderPredicate(value.elements[index]);
      output := output + [item];
      index := index + 1;
    }
    o := OrderedArray(output);
    assert Forget(o).elements == value.elements;
  }

  method OrderKeySource(value: Json) returns (o: Ordered)
    requires ExactMembers(value, {"type", "path"}, {})
    ensures InOrder(o, value, SOURCE_ORDER)
  {
    hide Restrict, Collect, DistinctNames, Walk, SetOf, Forget, Put, Copies, NamesOf;
    NothingCopied(value.fields);
    var output, s := CopyMember([], value.fields, "type", []);
    output, s := CopyOptional(output, value.fields, "path", s);
    assert s == SOURCE_ORDER;
    SourceOrderCovers();
    CopiedAll(output, value.fields, s);
    o := OrderedObject(output);
  }

  method OrderIssuerIdentity(fields: map<string, Json>, source: Ordered)
    returns (output: seq<Entry>, ghost s: seq<string>)
    requires ISSUER_REQUIRED <= fields.Keys && Forget(source) == fields["key_source"] && Tidy(source)
    ensures Copies(output, fields, s)
    ensures s == IDENTITY_ORDER
  {
    hide Restrict, Collect, DistinctNames, Copies, Forget, Put;
    NothingCopied(fields);
    output, s := CopyMember([], fields, "policy_id", []);
    output, s := CopyMember(output, fields, "issuer", s);
    CopyStep(output, fields, s, "key_source", source);
    output, s := Put(output, "key_source", source), s + ["key_source"];
    output, s := CopyMember(output, fields, "audiences", s);
    output, s := CopyOptional(output, fields, "authorized_parties", s);
    output, s := CopyMember(output, fields, "issuer_algorithms", s);
    output, s := CopyMember(output, fields, "caller_algorithms", s);
  }

  method OrderIssuerPolicy(before: seq<Entry>, fields: map<string, Json>, ghost names: seq<string>)
    returns (output: seq<Entry>, ghost s: seq<string>)
    requires ISSUER_REQUIRED <= fields.Keys && Copies(before, fields, names)
    ensures Copies(output, fields, s)
    ensures s == names + POLICY_ORDER
  {
    hide Restrict, Collect, DistinctNames, Copies, Forget, Put;
    output, s := CopyMember(before, fields, "evidence_profiles", names);
    output, s := CopyMember(output, fields, "binding_profiles", s);
    output, s := CopyMember(output, fields, "acquisition_profiles", s);
    output, s := CopyMember(output, fields, "require_non_reconstructible_evidence", s);
    output, s := CopyOptional(output, fields, "maximum_credential_age", s);
    output, s := CopyOptional(output, fields, "maximum_identity_lifetime", s);
    output, s := CopyMember(output, fields, "certificate_principal_claim", s);
    output, s := CopyOptional(output, fields, "audit_identity_claim", s);
  }

  method OrderIssuer(value: Json) returns (o: Ordered)
    requires IssuerShape(value)
    ensures InOrder(o, value, ISSUER_ORDER)
  {
    hide Restrict, Collect, DistinctNames, Walk, SetOf, Forget, NamesOf, Copies, Put, PredicateListShape,
         PredicateShape;
    var fields := value.fields;
    var source := OrderKeySource(fields["key_source"]);
    var output, s := OrderIssuerIdentity(fields, source);
    output, s := OrderIssuerPolicy(output, fields, s);
    if "required_claims" in fields {
      var claims := OrderPredicates(fields["required_claims"]);
      CopyStep(output, fields, s, "required_claims", claims);
      output := Put(output, "required_claims", claims);
    } else {
      NothingToCopy(output, fields, s, "required_claims");
    }
    s := s + ["required_claims"];
    if "environment_discriminator" in fields {
      var discriminator := OrderPredicate(fields["environment_discriminator"]);
      CopyStep(output, fields, s, "environment_discriminator", discriminator);
      output := Put(output, "environment_discriminator", discriminator);
    } else {
      NothingToCopy(output, fields, s, "environment_discriminator");
    }
    s := s + ["environment_discriminator"];
    assert s == ISSUER_ORDER;
    IssuerOrderCovers();
    CopiedAll(output, fields, s);
    o := OrderedObject(output);
  }

  method OrderTrustedIssuers(value: Json) returns (o: Ordered)
    requires value.Array? && forall i :: 0 <= i < |value.elements| ==> IssuerShape(value.elements[i])
    ensures Forget(o) == value && Tidy(o)
  {
    hide IssuerShape;
    var output: seq<Ordered> := [];
    var index := 0;
    while index < |value.elements|
      invariant 0 <= index <= |value.elements| && |output| == index
      invariant forall i :: 0 <= i < index ==> Forget(output[i]) == value.elements[i] && Tidy(output[i])
    {
      var item := OrderIssuer(value.elements[index]);
      output := output + [item];
      index := index + 1;
    }
    o := OrderedArray(output);
    assert Forget(o).elements == value.elements;
  }

  method OrderRule(value: Json) returns (o: Ordered)
    requires RuleShape(value)
    ensures InOrder(o, value, RULE_ORDER)
  {
    hide Restrict, Collect, DistinctNames, Walk, SetOf, Forget, NamesOf, Put, Copies, PredicateListShape;
    var fields := value.fields;
    var all := OrderPredicates(fields["all"]);
    NothingCopied(fields);
    var output, s := CopyMember([], fields, "issuer", []);
    CopyStep(output, fields, s, "all", all);
    output, s := Put(output, "all", all), s + ["all"];
    output, s := CopyMember(output, fields, "allowed_certificate_extensions", s);
    assert s == RULE_ORDER;
    RuleOrderCovers();
    CopiedAll(output, fields, s);
    o := OrderedObject(output);
  }

  method OrderAccount(value: Json) returns (o: Ordered)
    requires AccountShape(value)
    ensures Forget(o) == value && Tidy(o)
  {
    hide Restrict, Collect, DistinctNames, Put, Copies, RuleShape;
    var items := value.fields["allow"].elements;
    var rules: seq<Ordered> := [];
    var index := 0;
    while index < |items|
      invariant 0 <= index <= |items| && |rules| == index
      invariant forall i :: 0 <= i < index ==> Forget(rules[i]) == items[i] && Tidy(rules[i])
    {
      var rule := OrderRule(items[index]);
      rules := rules + [rule];
      index := index + 1;
    }
    assert Forget(OrderedArray(rules)).elements == items;
    NothingCopied(value.fields);
    CopyStep([], value.fields, [], "allow", OrderedArray(rules));
    var output := Put([], "allow", OrderedArray(rules));
    CopiedAll(output, value.fields, [] + ["allow"]);
    o := OrderedObject(output);
  }

  method OrderAccounts(e: Environment, value: Json) returns (o: Ordered)
    requires Walks(e) && value.Object? && forall n :: n in value.fields ==> AccountShape(value.fields[n])
    ensures InOrder(o, value, e.order(value.fields))
  {
    hide Restrict, Collect, DistinctNames, Put, Copies, AccountShape;
    var fields := value.fields;
    var names := e.order(fields);
    assert Enumerates(names, fields);
    var output: seq<Entry> := [];
    ghost var s: seq<string> := [];
    NothingCopied(fields);
    var index := 0;
    while index < |names|
      invariant 0 <= index <= |names| && Copies(output, fields, s) && s == names[..index]
    {
      var name := names[index];
      assert names[..index + 1] == names[..index] + [name] && name in names;
      var account := OrderAccount(fields[name]);
      CopyStep(output, fields, s, name, account);
      output, s := Put(output, name, account), s + [name];
      index := index + 1;
    }
    assert names[..index] == names;
    CopiedAll(output, fields, s);
    o := OrderedObject(output);
  }

  // ---- the whole document

  datatype Options = Options(
    denyAll: bool, policyPath: string, clockSkew: string, deadline: string, maxTokenBytes: string,
    maxEvidenceBytes: string, maxCertificateBytes: string, maxOfferedKeyChars: string, maxOutputChars: string,
    cacheDirectory: string, cacheFreshness: string, facility: string)

  function CheckDurations(o: Options): Result<()> {
    var skew :- CanonicalDuration(o.clockSkew);
    var deadline :- CanonicalDuration(o.deadline);
    var freshness :- CanonicalDuration(o.cacheFreshness);
    Need(skew % SECOND == 0 && skew <= 30 * SECOND && 0 < deadline <= 10 * SECOND
         && (freshness == 0 || 60 * SECOND <= freshness <= 720 * 3600 * SECOND), ResourceLimit)
  }

  function CheckLimits(o: Options): (r: Result<ResourceLimits>)
    ensures r.Success? ==> InProtocol(r.value)
  {
    var token := CanonicalUnsigned(o.maxTokenBytes, 32768);
    var evidence := CanonicalUnsigned(o.maxEvidenceBytes, 16384);
    var certificate := CanonicalUnsigned(o.maxCertificateBytes, 49152);
    var offered := CanonicalUnsigned(o.maxOfferedKeyChars, 65536);
    var output := CanonicalUnsigned(o.maxOutputChars, 4096);
    var t :- token;
    var e :- evidence;
    var c :- certificate;
    var k :- offered;
    var l :- output;
    CanonicalUnsignedIsExact(o.maxTokenBytes, 32768, t);
    CanonicalUnsignedIsExact(o.maxEvidenceBytes, 16384, e);
    CanonicalUnsignedIsExact(o.maxCertificateBytes, 49152, c);
    CanonicalUnsignedIsExact(o.maxOfferedKeyChars, 65536, k);
    CanonicalUnsignedIsExact(o.maxOutputChars, 4096, l);
    var _ :- Need(t != 0 && e != 0 && c != 0 && k != 0 && l != 0, ResourceLimit);
    Success(ResourceLimits(t, e, c, k, l))
  }

  function CheckOptions(o: Options): (r: Result<ResourceLimits>)
    ensures r.Success? ==> InProtocol(r.value)
  {
    var _ :- Need(o.denyAll == (o.policyPath == ""), MalformedInput);
    var _ :- CheckDurations(o);
    var limits :- CheckLimits(o);
    var _ :- Need(|o.cacheDirectory| >= 2 && o.cacheDirectory[0] == '/' && 0 as char !in o.cacheDirectory,
                  MalformedInput);
    var _ :- ParseFacility(o.facility);
    Success(limits)
  }

  /** The two sections of the policy file, or empty ones. */
  function Sections(o: Options, policy: Result<Json>): (r: Result<(Json, Json)>)
    ensures r.Success? ==> r.value.0.Array? && r.value.1.Object?
  {
    if o.denyAll then Success((Array([]), Object(map[])))
    else
      var p :- policy;
      var _ :- Need(ExactMembers(p, {"trusted_issuers", "accounts"}, {})
                    && p.fields["trusted_issuers"].Array? && p.fields["trusted_issuers"].elements != []
                    && p.fields["accounts"].Object? && p.fields["accounts"].fields != map[], MalformedInput);
      Success((p.fields["trusted_issuers"], p.fields["accounts"]))
  }

  function Quoted(s: string): Json {
    Value(Text(s))
  }

  function Number(n: nat): Json {
    Value(Unsigned(n))
  }

  function LimitFields(l: ResourceLimits): map<string, Json> {
    map["max_token_bytes" := Number(l.maxTokenBytes), "max_evidence_bytes" := Number(l.maxEvidenceBytes),
        "max_ssh_certificate_bytes" := Number(l.maxCertificateBytes),
        "max_offered_key_chars" := Number(l.maxOfferedKeyChars),
        "max_authorized_keys_output_chars" := Number(l.maxOutputChars)]
  }

  function CacheFields(o: Options): map<string, Json> {
    map["directory" := Quoted(o.cacheDirectory), "maximum_freshness" := Quoted(o.cacheFreshness)]
  }

  /** The configuration as it is validated before it is put into order. */
  function Preliminary(o: Options, l: ResourceLimits, trusted: Json, accounts: Json): map<string, Json> {
    map["version" := Number(1), "clock_skew" := Quoted(o.clockSkew),
        "total_verification_deadline" := Quoted(o.deadline),
        "resource_limits" := Object(LimitFields(l)), "issuer_key_cache" := Object(CacheFields(o)),
        "trusted_issuers" := trusted, "accounts" := accounts,
        "logging" := Object(map["facility" := Quoted(o.facility)])]
  }

  function InitialTree(o: Options, policy: Result<Json>): Result<Json> {
    var limits :- CheckOptions(o);
    var (trusted, accounts) :- Sections(o, policy);
    Success(Object(Preliminary(o, limits, trusted, accounts)))
  }

  /** `output[name] = value` for a value that does not come from the policy. */
  method SetMember(output: seq<Entry>, ghost fields: map<string, Json>, name: string, value: Ordered,
                   ghost names: seq<string>)
    returns (copied: seq<Entry>, ghost now: seq<string>)
    requires Copies(output, fields, names) && name in fields && fields[name] == Forget(value) && Tidy(value)
    ensures Copies(copied, fields, now) && now == names + [name]
  {
    copied := Put(output, name, value);
    now := names + [name];
    CopyStep(output, fields, names, name, value);
  }

  method OrderLimits(l: ResourceLimits) returns (o: Ordered)
    ensures Forget(o) == Object(LimitFields(l)) && Tidy(o)
  {
    hide Restrict, Collect, DistinctNames, Put, Copies;
    ghost var fields := LimitFields(l);
    NothingCopied(fields);
    var output, s := SetMember([], fields, "max_token_bytes", Plain(Number(l.maxTokenBytes)), []);
    output, s := SetMember(output, fields, "max_evidence_bytes", Plain(Number(l.maxEvidenceBytes)), s);
    output, s := SetMember(output, fields, "max_ssh_certificate_bytes", Plain(Number(l.maxCertificateBytes)), s);
    output, s := SetMember(output, fields, "max_offered_key_chars", Plain(Number(l.maxOfferedKeyChars)), s);
    output, s := SetMember(output, fields, "max_authorized_keys_output_chars", Plain(Number(l.maxOutputChars)), s);
    CopiedAll(output, fields, s);
    o := OrderedObject(output);
  }

  method OrderCache(o: Options) returns (cache: Ordered)
    ensures Forget(cache) == Object(CacheFields(o)) && Tidy(cache)
  {
    hide Restrict, Collect, DistinctNames, Put, Copies;
    ghost var fields := CacheFields(o);
    NothingCopied(fields);
    var output, s := SetMember([], fields, "directory", Plain(Quoted(o.cacheDirectory)), []);
    output, s := SetMember(output, fields, "maximum_freshness", Plain(Quoted(o.cacheFreshness)), s);
    CopiedAll(output, fields, s);
    cache := OrderedObject(output);
  }

  method OrderLogging(facility: string) returns (logging: Ordered)
    ensures Forget(logging) == Object(map["facility" := Quoted(facility)]) && Tidy(logging)
  {
    hide Restrict, Collect, DistinctNames, Put, Copies;
    ghost var fields := map["facility" := Quoted(facility)];
    NothingCopied(fields);
    var output, s := SetMember([], fields, "facility", Plain(Quoted(facility)), []);
    CopiedAll(output, fields, s);
    logging := OrderedObject(output);
  }

  /** `initialization_json`. */
  method OrderDocument(e: Environment, o: Options, l: ResourceLimits, trusted: Json, accounts: Json)
    returns (document: Ordered)
    requires Walks(e)
    requires trusted.Array? && forall i :: 0 <= i < |trusted.elements| ==> IssuerShape(trusted.elements[i])
    requires accounts.Object? && forall n :: n in accounts.fields ==> AccountShape(accounts.fields[n])
    ensures InOrder(document, Object(Preliminary(o, l, trusted, accounts)), DOCUMENT_ORDER)
  {
    hide Restrict, Collect, DistinctNames, Walk, SetOf, NamesOf, Put, Copies, IssuerShape, AccountShape, LimitFields,
         CacheFields, Walks;
    ghost var fields := Preliminary(o, l, trusted, accounts);
    NothingCopied(fields);
    var output, s := SetMember([], fields, "version", Plain(Number(1)), []);
    output, s := SetMember(output, fields, "clock_skew", Plain(Quoted(o.clockSkew)), s);
    output, s := SetMember(output, fields, "total_verification_deadline", Plain(Quoted(o.deadline)), s);
    var resources := OrderLimits(l);
    output, s := SetMember(output, fields, "resource_limits", resources, s);
    var cache := OrderCache(o);
    output, s := SetMember(output, fields, "issuer_key_cache", cache, s);
    var issuers := OrderTrustedIssuers(trusted);
    output, s := SetMember(output, fields, "trusted_issuers", issuers, s);
    var policies := OrderAccounts(e, accounts);
    output, s := SetMember(output, fields, "accounts", policies, s);
    var logging := OrderLogging(o.facility);
    output, s := SetMember(output, fields, "logging", logging, s);
    assert s == DOCUMENT_ORDER;
    DocumentOrderCovers();
    assert fields.Keys <= TOP_REQUIRED + TOP_OPTIONAL;
    CopiedAll(output, fields, s);
    document := OrderedObject(output);
  }

  /** What the validator has accepted has the shape the builders rely on. */
  lemma ValidatedHasShape(e: Environment, o: Options, l: ResourceLimits, trusted: Json, accounts: Json)
    requires Walks(e) && trusted.Array? && accounts.Object?
    requires Validate(e, Object(Preliminary(o, l, trusted, accounts))).Success?
    ensures forall i :: 0 <= i < |trusted.elements| ==> IssuerShape(trusted.elements[i])
    ensures forall n :: n in accounts.fields ==> AccountShape(accounts.fields[n])
  {
    hide SettingsOf, IssuersOf, AddAccounts, IssuerShape, AccountShape, LimitFields, CacheFields;
    var root := Object(Preliminary(o, l, trusted, accounts));
    var c := SettingsOf(root).value;
    assert root.fields["trusted_issuers"] == trusted && root.fields["accounts"] == accounts;
    var names := e.order(accounts.fields);
    assert Enumerates(names, accounts.fields);
    IssuersHaveShape(e, trusted.elements, c.skew, c.limits, {});
    var issuers := IssuersOf(e, trusted.elements, c.skew, c.limits, {}).value;
    AccountsHaveShape(Progress(issuers, map[], 0), names, accounts.fields);
  }

  // ---- the preliminary text

  const MAXIMUM_CONFIGURATION_BYTES: nat := 1048576

  /** The text is within the bounds of the parser. */
  predicate WithinLimits(text: Printed) {
    text.octets <= MAXIMUM_CONFIGURATION_BYTES && TreeBuilder.Acceptable(text.document, TreeBuilder.CONFIG_LIMITS)
  }

  /** What `parse_and_validate` makes of a text. */
  function LoadText(e: Environment, text: Printed): Result<Configuration>
    requires Walks(e)
  {
    if text.octets > MAXIMUM_CONFIGURATION_BYTES then Failure(ResourceLimit)
    else
      var tree :- TreeBuilder.Parse(Events(text.document, []), TreeBuilder.CONFIG_LIMITS);
      Validate(e, tree)
  }

  lemma LoadedWithinLimits(e: Environment, text: Printed, t: Json)
    requires Walks(e) && Writes(text.document, t) && t.Object?
    ensures LoadText(e, text) == if WithinLimits(text) then Validate(e, t) else Failure(ResourceLimit)
  {
    hide TreeBuilder.Acceptable, TreeBuilder.Parse, Events, Writes, Validate, Walks;
    WrittenParse(text.document, t);
  }

  lemma SettingObjectsReadBack(o: Options, l: ResourceLimits)
    ensures ReadBack(Object(LimitFields(l))) == Object(LimitFields(l))
    ensures ReadBack(Object(CacheFields(o))) == Object(CacheFields(o))
    ensures ReadBack(Object(map["facility" := Quoted(o.facility)])) == Object(map["facility" := Quoted(o.facility)])
  {
    var limits, cache, logging := LimitFields(l), CacheFields(o), map["facility" := Quoted(o.facility)];
    FlatReadsBack(limits);
    FlatReadsBack(cache);
    FlatReadsBack(logging);
  }

  lemma FlatReadsBack(fields: map<string, Json>)
    requires forall n :: n in fields ==> fields[n].Value? && !fields[n].scalar.Signed?
    ensures ReadBack(Object(fields)) == Object(fields)
  {
    assert forall n :: n in fields ==> ReadBack(fields[n]) == fields[n];
    assert ReadBack(Object(fields)).fields == fields;
  }

  /** Only the policy's part can be read back differently. */
  lemma PreliminaryReadsBack(o: Options, l: ResourceLimits, trusted: Json, accounts: Json)
    ensures ReadBack(Object(Preliminary(o, l, trusted, accounts)))
            == Object(Preliminary(o, l, ReadBack(trusted), ReadBack(accounts)))
  {
    hide LimitFields, CacheFields;
    SettingObjectsReadBack(o, l);
    var x, y := Preliminary(o, l, trusted, accounts), Preliminary(o, l, ReadBack(trusted), ReadBack(accounts));
    assert ReadBack(Number(1)) == Number(1);
    assert ReadBack(Quoted(o.clockSkew)) == Quoted(o.clockSkew) && ReadBack(Quoted(o.deadline)) == Quoted(o.deadline);
    assert x.Keys == y.Keys;
    assert forall n :: n in x ==> ReadBack(x[n]) == y[n];
    assert ReadBack(Object(x)).fields == y;
  }

  lemma PreliminaryIsHeld(o: Options, l: ResourceLimits, trusted: Json, accounts: Json)
    requires InProtocol(l) && Held(trusted) && Held(accounts)
    ensures Held(Object(Preliminary(o, l, trusted, accounts)))
  {
    hide LimitFields, CacheFields;
    SettingObjectsHeld(o, l);
    var x := Preliminary(o, l, trusted, accounts);
    assert Held(Number(1)) && Held(Quoted(o.clockSkew)) && Held(Quoted(o.deadline));
    assert forall n :: n in x ==> Held(x[n]);
  }

  lemma SettingObjectsHeld(o: Options, l: ResourceLimits)
    requires InProtocol(l)
    ensures Held(Object(LimitFields(l))) && Held(Object(CacheFields(o)))
    ensures Held(Object(map["facility" := Quoted(o.facility)]))
  {
    assert forall n :: n in LimitFields(l) ==> Held(LimitFields(l)[n]);
    assert forall n :: n in CacheFields(o) ==> Held(CacheFields(o)[n]);
  }

  lemma SectionsAreHeld(o: Options, policy: Result<Json>)
    requires Sections(o, policy).Success? && (policy.Success? ==> Held(policy.value))
    ensures Held(Sections(o, policy).value.0) && Held(Sections(o, policy).value.1)
  {
  }

  // ---- shapes survive reading back

  lemma PredicateShapeReadBack(j: Json)
    requires PredicateShape(ReadBack(j))
    ensures PredicateShape(j)
  {
    assert j.Object? && ReadBack(j).fields.Keys == j.fields.Keys;
  }

  lemma PredicateListShapeReadBack(j: Json)
    requires PredicateListShape(ReadBack(j))
    ensures PredicateListShape(j)
  {
    hide PredicateShape;
    assert j.Array?;
    forall i | 0 <= i < |j.elements| ensures PredicateShape(j.elements[i]) {
      assert ReadBack(j).elements[i] == ReadBack(j.elements[i]);
      PredicateShapeReadBack(j.elements[i]);
    }
  }

  lemma ExactReadBack(j: Json, required: set<string>, optional: set<string>)
    ensures ExactMembers(ReadBack(j), required, optional) <==> ExactMembers(j, required, optional)
    ensures j.Object? <==> ReadBack(j).Object?
    ensures j.Object? ==> ReadBack(j).fields.Keys == j.fields.Keys
    ensures j.Object? ==> forall n :: n in j.fields ==> ReadBack(j).fields[n] == ReadBack(j.fields[n])
  {
    if j.Object? {
      assert ReadBack(j).fields.Keys == j.fields.Keys;
    }
  }

  lemma IssuerShapeReadBack(j: Json)
    requires IssuerShape(ReadBack(j))
    ensures IssuerShape(j)
  {
    hide PredicateShape, PredicateListShape, ExactMembers, ReadBack;
    ExactReadBack(j, ISSUER_REQUIRED, ISSUER_OPTIONAL);
    IssuerIsObject(ReadBack(j));
    ExactReadBack(j.fields["key_source"], {"type", "path"}, {});
    if "required_claims" in j.fields {
      PredicateListShapeReadBack(j.fields["required_claims"]);
    }
    if "environment_discriminator" in j.fields {
      PredicateShapeReadBack(j.fields["environment_discriminator"]);
    }
  }

  lemma IssuerIsObject(j: Json)
    requires IssuerShape(j)
    ensures j.Object? && "key_source" in j.fields
  {
  }

  lemma RuleShapeReadBack(j: Json)
    requires RuleShape(ReadBack(j))
    ensures RuleShape(j)
  {
    hide PredicateShape, PredicateListShape, ReadBack;
    ExactReadBack(j, {"issuer", "all", "allowed_certificate_extensions"}, {});
    PredicateListShapeReadBack(j.fields["all"]);
  }

  lemma AccountShapeReadBack(j: Json)
    requires AccountShape(ReadBack(j))
    ensures AccountShape(j)
  {
    hide RuleShape;
    ExactReadBack(j, {"allow"}, {});
    var rules := j.fields["allow"];
    assert rules.Array?;
    forall i | 0 <= i < |rules.elements| ensures RuleShape(rules.elements[i]) {
      assert ReadBack(rules).elements[i] == ReadBack(rules.elements[i]);
      RuleShapeReadBack(rules.elements[i]);
    }
  }

  /** What validates after reading back has the shapes before it, which is where the builders work. */
  lemma ReadBackHasShape(e: Environment, o: Options, l: ResourceLimits, trusted: Json, accounts: Json)
    requires Walks(e) && trusted.Array? && accounts.Object?
    requires Validate(e, ReadBack(Object(Preliminary(o, l, trusted, accounts)))).Success?
    ensures forall i :: 0 <= i < |trusted.elements| ==> IssuerShape(trusted.elements[i])
    ensures forall n :: n in accounts.fields ==> AccountShape(accounts.fields[n])
  {
    hide Validate, Walks, IssuerShape, AccountShape, Preliminary;
    PreliminaryReadsBack(o, l, trusted, accounts);
    ValidatedHasShape(e, o, l, ReadBack(trusted), ReadBack(accounts));
    forall i | 0 <= i < |trusted.elements| ensures IssuerShape(trusted.elements[i]) {
      assert ReadBack(trusted).elements[i] == ReadBack(trusted.elements[i]);
      IssuerShapeReadBack(trusted.elements[i]);
    }
    forall n | n in accounts.fields ensures AccountShape(accounts.fields[n]) {
      assert ReadBack(accounts).fields[n] == ReadBack(accounts.fields[n]);
      AccountShapeReadBack(accounts.fields[n]);
    }
  }

  // ---- the initializer

  /** `dump` of the tree, which throws when a string is not UTF-8, and `parse_json` of its text. */
  method Reparse(p: Printer, tree: Json) returns (r: Result<Json>)
    requires Prints(p) && Held(tree) && tree.Object?
    ensures !Writable(tree) ==> p.compact(tree).None? && r == Failure(InternalError)
    ensures Writable(tree) ==>
              && p.compact(tree).Some? && Writes(p.compact(tree).value.document, ReadBack(tree))
              && r == if WithinLimits(p.compact(tree).value) then Success(ReadBack(tree)) else Failure(ResourceLimit)
  {
    hide TreeBuilder.Acceptable, TreeBuilder.Parse, Events, Writes, Writable, Held;
    assert PrintsAs(p.compact(tree), tree);
    var text := p.compact(tree);
    if text.None? {
      return Failure(InternalError);
    }
    if text.value.octets > MAXIMUM_CONFIGURATION_BYTES {
      return Failure(ResourceLimit);
    }
    WrittenParse(text.value.document, ReadBack(tree));
    r := TreeBuilder.ParseEvents(Events(text.value.document, []), TreeBuilder.CONFIG_LIMITS);
  }

  /** The text that is emitted: the indented document and a newline. */
  ghost predicate Emits(p: Printer, document: Ordered, text: Printed) {
    var indented := p.indented(document);
    indented.Some? && text == Printed(indented.value.document, indented.value.octets + 1)
  }

  /** Two texts of one tree are within the bounds of the parser together, but for their length. */
  lemma TextsLoadAlike(e: Environment, a: Printed, b: Printed, t: Json)
    requires Walks(e) && Writes(a.document, t) && Writes(b.document, t) && t.Object? && WithinLimits(a)
    ensures LoadText(e, b) == if b.octets <= MAXIMUM_CONFIGURATION_BYTES then Validate(e, t) else Failure(ResourceLimit)
  {
    hide TreeBuilder.Acceptable, TreeBuilder.Parse, Events, Writes, Validate, Walks;
    WrittenParse(a.document, t);
    WritingsParseAlike(a.document, b.document, t);
  }

  /** `initialize`: what is emitted is the validated tree with its members in order, and nothing else. Loading it gives
      the validated configuration again, unless the indentation has made it too long. */
  method Initialize(e: Environment, p: Printer, o: Options, policy: Result<Json>)
    returns (r: Result<Printed>, ghost document: Ordered)
    requires Walks(e) && Prints(p) && (policy.Success? ==> Held(policy.value))
    ensures InitialTree(o, policy).Failure? ==> r == Failure(InitialTree(o, policy).kind)
    ensures InitialTree(o, policy).Success? && !Writable(InitialTree(o, policy).value) ==> r == Failure(InternalError)
    ensures InitialTree(o, policy).Success? && Writable(InitialTree(o, policy).value) ==>
              var tree := InitialTree(o, policy).value;
              && p.compact(tree).Some?
              && (r.Success? <==> WithinLimits(p.compact(tree).value) && Validate(e, ReadBack(tree)).Success?)
              && (r.Failure? ==> LoadText(e, p.compact(tree).value) == Failure(r.kind))
              && (r.Success? ==>
                    && InOrder(document, tree, DOCUMENT_ORDER) && Emits(p, document, r.value)
                    && LoadText(e, r.value) == if r.value.octets <= MAXIMUM_CONFIGURATION_BYTES then
                                                 Validate(e, ReadBack(tree))
                                               else Failure(ResourceLimit))
  {
    hide Validate, CheckOptions, Forget, Preliminary, IssuerShape, AccountShape, WithinLimits, Walks, Held, Writable,
         Writes, ReadBack, Tidy, LoadText;
    document := Plain(Value(Null));
    var limits := CheckOptions(o);
    if limits.Failure? {
      return Failure(limits.kind), document;
    }
    var sections := Sections(o, policy);
    if sections.Failure? {
      return Failure(sections.kind), document;
    }
    var (trusted, accounts) := sections.value;
    var tree := Object(Preliminary(o, limits.value, trusted, accounts));
    SectionsAreHeld(o, policy);
    PreliminaryIsHeld(o, limits.value, trusted, accounts);
    PreliminaryReadsBack(o, limits.value, trusted, accounts);
    var parsed := Reparse(p, tree);
    if Writable(tree) {
      LoadedWithinLimits(e, p.compact(tree).value, ReadBack(tree));
    }
    if parsed.Failure? {
      return Failure(parsed.kind), document;
    }
    var validated := ParseAndValidate(e, parsed.value);
    if validated.Failure? {
      return Failure(validated.kind), document;
    }
    ReadBackHasShape(e, o, limits.value, trusted, accounts);
    var ordered := OrderDocument(e, o, limits.value, trusted, accounts);
    document := ordered;
    assert PrintsAs(p.indented(ordered), tree);
    var text := p.indented(ordered);
    r := Success(Printed(text.value.document, text.value.octets + 1));
    TextsLoadAlike(e, p.compact(tree).value, r.value, ReadBack(tree));
  }

  lemma CanonicalIsDuration(text: string)
    ensures CanonicalDuration(text).Success? ==> DurationNanoseconds(text) == CanonicalDuration(text)
  {
    hide DurationNanoseconds, CanonicalUnsigned, UnitLength;
  }

  lemma LimitsReadBack(l: ResourceLimits)
    requires InProtocol(l)
    ensures LimitsOf(Object(LimitFields(l))) == Success(l)
  {
    assert ExactMembers(Object(LimitFields(l)), LIMIT_MEMBERS, {});
  }

  lemma PreliminarySettings(o: Options, l: ResourceLimits, trusted: Json, accounts: Json)
    requires InProtocol(l) && SettingsOf(Object(Preliminary(o, l, trusted, accounts))).Success?
    ensures var c := SettingsOf(Object(Preliminary(o, l, trusted, accounts))).value;
            && WholeSeconds(Some(o.clockSkew), false) == Success(c.skew)
            && DurationNanoseconds(o.deadline) == Success(c.deadline)
            && c.limits == l && ParseFacility(o.facility) == Success(c.facility)
  {
    hide WholeSeconds, DurationNanoseconds, CheckCache, LimitsOf, LimitFields, ParseFacility, ExactMembers;
    LimitsReadBack(l);
    var fields := Preliminary(o, l, trusted, accounts);
    assert fields["clock_skew"] == Quoted(o.clockSkew) && fields["total_verification_deadline"] == Quoted(o.deadline);
    assert fields["logging"] == Object(map["facility" := Quoted(o.facility)]);
  }

  lemma OptionsAdmitted(o: Options)
    requires CheckOptions(o).Success?
    ensures CanonicalDuration(o.clockSkew).Success? && CanonicalDuration(o.deadline).Success?
    ensures CanonicalDuration(o.clockSkew).value % SECOND == 0 && CanonicalDuration(o.clockSkew).value <= 30 * SECOND
  {
    hide CanonicalDuration, CheckLimits, ParseFacility;
  }

  /** The settings an initialized configuration is read back with are the ones the initializer checked. */
  lemma SettingsReadBack(e: Environment, o: Options, policy: Result<Json>)
    requires Walks(e) && InitialTree(o, policy).Success?
    requires Validate(e, ReadBack(InitialTree(o, policy).value)).Success?
    ensures var c := Validate(e, ReadBack(InitialTree(o, policy).value)).value;
            && CanonicalDuration(o.clockSkew) == Success(c.skew * SECOND) && c.skew <= 30
            && CanonicalDuration(o.deadline) == Success(c.deadline)
            && Success(c.limits) == CheckOptions(o)
            && Success(c.facility) == ParseFacility(o.facility)
  {
    hide IssuersOf, AddAccounts, CanonicalDuration, WholeSeconds, DurationNanoseconds, CheckOptions, Sections,
         SettingsOf, Preliminary, ParseFacility;
    OptionsAdmitted(o);
    CanonicalIsDuration(o.clockSkew);
    CanonicalIsDuration(o.deadline);
    SkewReadsBack(o.clockSkew, CanonicalDuration(o.clockSkew).value);
    var (trusted, accounts) := Sections(o, policy).value;
    PreliminaryReadsBack(o, CheckOptions(o).value, trusted, accounts);
    PreliminarySettings(o, CheckOptions(o).value, ReadBack(trusted), ReadBack(accounts));
  }
}
