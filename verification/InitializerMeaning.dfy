/** What `config init` writes: the options it admits, and the configuration that its document means. */
module InitializerMeaning {
  import opened Configurations
  import opened ConfigurationMeaning
  import opened Decimals
  import opened Durations
  import opened Errors
  import opened Initializer
  import opened IssuerAcceptance
  import opened JsonTrees
  import opened PolicyMeaning
  import opened Printing

  // ---- options

  /** The shortest numeral and one unit, for so many nanoseconds. */
  ghost predicate Spelled(text: string, n: nat) {
    n <= UINT64_MAX && exists k: nat, u: Unit :: text == Decimal(k) + Suffix(u) && n == Length(Term(k, u))
  }

  lemma SpelledExactly(text: string, n: nat)
    ensures CanonicalDuration(text) == Success(n) <==> Spelled(text, n)
  {
    hide CanonicalDuration, Decimal, Suffix, Length;
    CanonicalDurationIsExact(text, n);
  }

  /** A skew of at most 30 whole seconds, a deadline of at most ten seconds, and a freshness of none or between a
      minute and 720 hours. */
  ghost predicate AdmittedDurations(o: Options) {
    && (exists s: nat :: s <= 30 && Spelled(o.clockSkew, s * SECOND))
    && (exists d: nat :: 0 < d <= 10_000_000_000 && Spelled(o.deadline, d))
    && exists f: nat :: (f == 0 || 60_000_000_000 <= f <= 2_592_000_000_000_000) && Spelled(o.cacheFreshness, f)
  }

  lemma DurationsExactly(o: Options)
    ensures CheckDurations(o).Success? <==> AdmittedDurations(o)
  {
    hide CanonicalDuration, Spelled;
    forall text: string, n: nat ensures CanonicalDuration(text) == Success(n) <==> Spelled(text, n) {
      SpelledExactly(text, n);
    }
    var skew := CanonicalDuration(o.clockSkew);
    if skew.Success? && skew.value % SECOND == 0 {
      assert skew.value == (skew.value / SECOND) * SECOND;
    }
  }

  predicate IsNumeral(text: string, n: nat, maximum: nat) {
    text == Decimal(n) && 0 < n <= maximum
  }

  predicate AdmittedLimits(o: Options, l: ResourceLimits) {
    && IsNumeral(o.maxTokenBytes, l.maxTokenBytes, 32768) && IsNumeral(o.maxEvidenceBytes, l.maxEvidenceBytes, 16384)
    && IsNumeral(o.maxCertificateBytes, l.maxCertificateBytes, 49152)
    && IsNumeral(o.maxOfferedKeyChars, l.maxOfferedKeyChars, 65536)
    && IsNumeral(o.maxOutputChars, l.maxOutputChars, 4096)
  }

  lemma NumeralsExactly(o: Options, l: ResourceLimits)
    ensures CheckLimits(o) == Success(l) <==> AdmittedLimits(o, l)
  {
    hide CanonicalUnsigned, Decimal;
    CanonicalUnsignedIsExact(o.maxTokenBytes, 32768, l.maxTokenBytes);
    CanonicalUnsignedIsExact(o.maxEvidenceBytes, 16384, l.maxEvidenceBytes);
    CanonicalUnsignedIsExact(o.maxCertificateBytes, 49152, l.maxCertificateBytes);
    CanonicalUnsignedIsExact(o.maxOfferedKeyChars, 65536, l.maxOfferedKeyChars);
    CanonicalUnsignedIsExact(o.maxOutputChars, 4096, l.maxOutputChars);
  }

  /** A policy file unless everything is denied, durations and limits as above, an absolute cache directory and a
      facility by its name. */
  ghost predicate Admitted(o: Options, l: ResourceLimits) {
    && (o.denyAll <==> o.policyPath == "")
    && AdmittedDurations(o) && AdmittedLimits(o, l)
    && |o.cacheDirectory| >= 2 && o.cacheDirectory[0] == '/' && 0 as char !in o.cacheDirectory
    && exists f: Facility :: o.facility == FacilityText(f)
  }

  lemma OptionsExactly(o: Options, l: ResourceLimits)
    ensures CheckOptions(o) == Success(l) <==> Admitted(o, l)
  {
    hide CheckDurations, AdmittedDurations, CheckLimits, AdmittedLimits, ParseFacility, FacilityText;
    DurationsExactly(o);
    NumeralsExactly(o, l);
    forall f: Facility ensures ParseFacility(o.facility) == Success(f) <==> o.facility == FacilityText(f) {
      FacilityIsNamed(o.facility, f);
    }
  }

  // ---- the document

  /** The policy's issuers and accounts, neither of them empty; none of either when everything is denied. */
  predicate AreSections(o: Options, policy: Result<Json>, trusted: seq<Json>, accounts: map<string, Json>) {
    if o.denyAll then trusted == [] && accounts == map[]
    else
      && trusted != [] && accounts != map[]
      && policy == Success(Object(map["trusted_issuers" := Array(trusted), "accounts" := Object(accounts)]))
  }

  lemma SectionsExactly(o: Options, policy: Result<Json>, trusted: seq<Json>, accounts: map<string, Json>)
    ensures Sections(o, policy) == Success((Array(trusted), Object(accounts)))
       <==> AreSections(o, policy, trusted, accounts)
  {
    if !o.denyAll && policy.Success? && policy.value.Object? {
      TwoMembers(policy.value.fields, Array(trusted), Object(accounts));
    }
  }

  lemma TwoMembers(fields: map<string, Json>, a: Json, b: Json)
    ensures fields == map["trusted_issuers" := a, "accounts" := b] <==>
              && fields.Keys == {"trusted_issuers", "accounts"}
              && fields["trusted_issuers"] == a && fields["accounts"] == b
  {
  }

  /** The settings of the document, as the options give them. */
  predicate CarriesOptions(o: Options, l: ResourceLimits, fields: map<string, Json>) {
    && fields.Keys == {"version", "clock_skew", "total_verification_deadline", "resource_limits", "issuer_key_cache",
                       "trusted_issuers", "accounts", "logging"}
    && fields["version"] == Value(Unsigned(1))
    && TextMember(fields, "clock_skew", o.clockSkew)
    && TextMember(fields, "total_verification_deadline", o.deadline)
    && MeansLimits(fields["resource_limits"], l)
    && fields["issuer_key_cache"] == Object(map["directory" := Value(Text(o.cacheDirectory)),
                                                "maximum_freshness" := Value(Text(o.cacheFreshness))])
    && fields["logging"] == Object(map["facility" := Value(Text(o.facility))])
  }

  ghost predicate IsInitial(o: Options, policy: Result<Json>, tree: Json) {
    && tree.Object?
    && exists l: ResourceLimits, trusted: seq<Json>, accounts: map<string, Json> ::
         && Admitted(o, l) && AreSections(o, policy, trusted, accounts)
         && CarriesOptions(o, l, tree.fields)
         && tree.fields["trusted_issuers"] == Array(trusted) && tree.fields["accounts"] == Object(accounts)
  }

  lemma LimitFieldsMean(l: ResourceLimits)
    requires InProtocol(l)
    ensures MeansLimits(Object(LimitFields(l)), l)
  {
  }

  lemma LimitsAreFields(j: Json, l: ResourceLimits)
    requires MeansLimits(j, l)
    ensures j == Object(LimitFields(l))
  {
  }

  lemma PreliminaryCarries(o: Options, l: ResourceLimits, trusted: Json, accounts: Json)
    requires InProtocol(l)
    ensures var fields := Preliminary(o, l, trusted, accounts);
            CarriesOptions(o, l, fields) && fields["trusted_issuers"] == trusted && fields["accounts"] == accounts
  {
    hide LimitFields, MeansLimits;
    LimitFieldsMean(l);
  }

  lemma CarriedIsPreliminary(o: Options, l: ResourceLimits, fields: map<string, Json>)
    requires CarriesOptions(o, l, fields)
    ensures fields == Preliminary(o, l, fields["trusted_issuers"], fields["accounts"])
  {
    hide LimitFields, MeansLimits;
    LimitsAreFields(fields["resource_limits"], l);
    var x := Preliminary(o, l, fields["trusted_issuers"], fields["accounts"]);
    assert x.Keys == fields.Keys;
    assert CacheFields(o) == map["directory" := Value(Text(o.cacheDirectory)),
                                 "maximum_freshness" := Value(Text(o.cacheFreshness))];
  }

  lemma PreliminaryExactly(o: Options, l: ResourceLimits, trusted: Json, accounts: Json, fields: map<string, Json>)
    requires InProtocol(l)
    ensures fields == Preliminary(o, l, trusted, accounts) <==>
              && CarriesOptions(o, l, fields) && fields["trusted_issuers"] == trusted && fields["accounts"] == accounts
  {
    hide Preliminary, CarriesOptions;
    PreliminaryCarries(o, l, trusted, accounts);
    if CarriesOptions(o, l, fields) {
      CarriedIsPreliminary(o, l, fields);
    }
  }

  /** The tree that is validated and put into order is the one the options and the policy stand for. */
  lemma InitialExactly(o: Options, policy: Result<Json>, tree: Json)
    ensures InitialTree(o, policy) == Success(tree) <==> IsInitial(o, policy, tree)
  {
    hide CheckOptions, Admitted, Sections, AreSections, Preliminary, CarriesOptions;
    forall l: ResourceLimits ensures CheckOptions(o) == Success(l) <==> Admitted(o, l) {
      OptionsExactly(o, l);
    }
    forall trusted: seq<Json>, accounts: map<string, Json>
      ensures Sections(o, policy) == Success((Array(trusted), Object(accounts)))
         <==> AreSections(o, policy, trusted, accounts)
    {
      SectionsExactly(o, policy, trusted, accounts);
    }
    if CheckOptions(o).Success? && Sections(o, policy).Success? && tree.Object? {
      var l, sections := CheckOptions(o).value, Sections(o, policy).value;
      PreliminaryExactly(o, l, sections.0, sections.1, tree.fields);
      assert sections == (Array(sections.0.elements), Object(sections.1.fields));
    }
  }

  /** The issuers and accounts of the tree are the policy's, as their text is read back. */
  ghost predicate HasSections(o: Options, policy: Result<Json>, root: Json) {
    exists trusted: seq<Json>, accounts: map<string, Json> ::
      && AreSections(o, policy, trusted, accounts)
      && IssuerElements(root) == ReadBack(Array(trusted)).elements
      && AccountFields(root) == ReadBack(Object(accounts)).fields
  }

  /** The configuration that an initialized document means: the options' skew, deadline, limits and facility, and the
      policy's issuers and accounts. */
  lemma InitializedMeans(e: Environment, o: Options, policy: Result<Json>, tree: Json, root: Json, c: Configuration)
    requires Walks(e) && InitialTree(o, policy) == Success(tree) && root == ReadBack(tree)
    requires Validate(e, root) == Success(c)
    ensures Means(e, root, c) && HasSections(o, policy, root)
    ensures Admitted(o, c.limits) && o.facility == FacilityText(c.facility)
    ensures 0 <= c.skew <= 30 && Spelled(o.clockSkew, c.skew * SECOND) && Spelled(o.deadline, c.deadline)
  {
    hide CheckOptions, Admitted, InitialTree, Validate, Means, CanonicalDuration, Spelled, ParseFacility, FacilityText,
         ReadBack, HasSections, Walks;
    SettingsReadBack(e, o, policy);
    OptionsExactly(o, c.limits);
    FacilityIsNamed(o.facility, c.facility);
    ValidateExactly(e, root, c);
    SkewIsThere(e, root, c);
    SpelledExactly(o.clockSkew, c.skew * SECOND);
    SpelledExactly(o.deadline, c.deadline);
    InitialHasSections(o, policy, tree);
  }

  lemma InitialHasSections(o: Options, policy: Result<Json>, tree: Json)
    requires InitialTree(o, policy) == Success(tree)
    ensures HasSections(o, policy, ReadBack(tree))
  {
    hide CheckOptions, Sections, AreSections, Preliminary, ReadBack, IssuerElements, AccountFields;
    var l := CheckOptions(o).value;
    var (trusted, accounts) := Sections(o, policy).value;
    SectionsExactly(o, policy, trusted.elements, accounts.fields);
    PreliminaryReadsBack(o, l, trusted, accounts);
    SectionsReadBack(o, l, trusted, accounts);
    assert AreSections(o, policy, trusted.elements, accounts.fields);
  }

  lemma SkewIsThere(e: Environment, root: Json, c: Configuration)
    requires Walks(e) && Validate(e, root) == Success(c)
    ensures c.skew >= 0
  {
    hide Validate, SoundIssuers, Covered;
    ValidatedIsSound(e, root);
  }

  lemma SectionsReadBack(o: Options, l: ResourceLimits, trusted: Json, accounts: Json)
    requires trusted.Array? && accounts.Object?
    ensures IssuerElements(Object(Preliminary(o, l, ReadBack(trusted), ReadBack(accounts))))
            == ReadBack(trusted).elements
    ensures AccountFields(Object(Preliminary(o, l, ReadBack(trusted), ReadBack(accounts))))
            == ReadBack(accounts).fields
  {
    hide LimitFields, CacheFields;
  }
}
