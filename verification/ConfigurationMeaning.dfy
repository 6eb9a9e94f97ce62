/** What a configuration file means: the typed configuration that `src/config.cpp` makes of a tree, member by member. */
module ConfigurationMeaning {
  import opened Configurations
  import opened Durations
  import opened Errors
  import opened IssuerAcceptance
  import opened JsonTrees
  import opened Policies
  import opened PolicyMeaning
  import Utf8

  // ---- rules

  ghost predicate MeansRule(j: Json, names: set<string>, rule: AccountRule) {
    && j.Object? && j.fields.Keys == {"issuer", "all", "allowed_certificate_extensions"}
    && TextMember(j.fields, "issuer", rule.issuer) && rule.issuer in names
    && j.fields["all"].Array? && WritesAll(j.fields["all"].elements, rule.all)
    && Lists(j.fields, "allowed_certificate_extensions", rule.extensions)
    && rule.extensions <= {"permit-agent-forwarding", "permit-port-forwarding", "permit-pty", "permit-user-rc",
                           "permit-X11-forwarding"}
  }

  lemma RuleExactly(j: Json, names: set<string>, rule: AccountRule)
    ensures RuleOf(j, names) == Success(rule) <==> MeansRule(j, names, rule)
  {
    hide StringSet, Lists, PredicatesOf, WritesAll, StringMember, TextMember;
    var fields := FieldsOf(j);
    StringMemberExactly(fields, "issuer", rule.issuer);
    SetExactly(fields, "allowed_certificate_extensions", false, rule.extensions);
    if "all" in fields && fields["all"].Array? {
      PredicatesExactly(fields["all"].elements, rule.all);
    }
  }

  ghost predicate MeansRules(elements: seq<Json>, names: set<string>, rules: seq<AccountRule>) {
    |elements| == |rules| && forall k :: 0 <= k < |rules| ==> MeansRule(elements[k], names, rules[k])
  }

  /** The claims that rules for an issuer look at. */
  function ClaimsFor(rules: seq<AccountRule>, issuer: string): set<string> {
    set r, p | r in rules && r.issuer == issuer && p in r.all :: p.claim
  }

  function Admitting(i: IssuerConfiguration, claims: set<string>): (r: IssuerConfiguration)
    ensures r == i.(core := r.core)
  {
    i.(core := i.core.(issuerPolicy := i.core.issuerPolicy.(
         admittedClaims := i.core.issuerPolicy.admittedClaims + claims)))
  }

  function AdmitRules(issuers: seq<IssuerConfiguration>, rules: seq<AccountRule>): (r: seq<IssuerConfiguration>)
    ensures |r| == |issuers|
    ensures forall k :: 0 <= k < |r| ==>
              r[k] == Admitting(issuers[k], ClaimsFor(rules, issuers[k].core.issuerPolicy.issuer))
  {
    seq(|issuers|, k requires 0 <= k < |issuers| =>
      Admitting(issuers[k], ClaimsFor(rules, issuers[k].core.issuerPolicy.issuer)))
  }

  lemma AdmitNone(issuers: seq<IssuerConfiguration>)
    ensures AdmitRules(issuers, []) == issuers
  {
    forall k | 0 <= k < |issuers| ensures AdmitRules(issuers, [])[k] == issuers[k] {
      var i := issuers[k];
      assert ClaimsFor([], i.core.issuerPolicy.issuer) == {};
      assert i.core.issuerPolicy.admittedClaims + {} == i.core.issuerPolicy.admittedClaims;
    }
  }

  lemma AdmitKeepsNames(issuers: seq<IssuerConfiguration>, rules: seq<AccountRule>)
    ensures IssuerNames(AdmitRules(issuers, rules)) == IssuerNames(issuers)
  {
    var r := AdmitRules(issuers, rules);
    forall name ensures name in IssuerNames(r) <==> name in IssuerNames(issuers) {
      if name in IssuerNames(r) {
        var k :| 0 <= k < |r| && r[k].core.issuerPolicy.issuer == name;
        assert issuers[k] in issuers;
      }
      if name in IssuerNames(issuers) {
        var k :| 0 <= k < |issuers| && issuers[k].core.issuerPolicy.issuer == name;
        assert r[k] in r;
      }
    }
  }

  lemma AdmitTwice(issuers: seq<IssuerConfiguration>, a: seq<AccountRule>, b: seq<AccountRule>)
    ensures AdmitRules(AdmitRules(issuers, a), b) == AdmitRules(issuers, a + b)
  {
    var twice, once := AdmitRules(AdmitRules(issuers, a), b), AdmitRules(issuers, a + b);
    forall k | 0 <= k < |issuers| ensures twice[k] == once[k] {
      var i := issuers[k];
      var admitted, issuer := i.core.issuerPolicy.admittedClaims, i.core.issuerPolicy.issuer;
      ClaimsOfBoth(a, b, issuer);
      assert admitted + (ClaimsFor(a, issuer) + ClaimsFor(b, issuer))
          == (admitted + ClaimsFor(a, issuer)) + ClaimsFor(b, issuer);
    }
  }

  lemma ClaimsOfBoth(a: seq<AccountRule>, b: seq<AccountRule>, issuer: string)
    ensures ClaimsFor(a + b, issuer) == ClaimsFor(a, issuer) + ClaimsFor(b, issuer)
  {
    assert forall r :: r in a + b <==> r in a || r in b;
  }

  lemma AdmitOne(issuers: seq<IssuerConfiguration>, rule: AccountRule)
    ensures AdmitAll(issuers, rule) == AdmitRules(issuers, [rule])
  {
    forall issuer ensures ClaimsFor([rule], issuer) == if rule.issuer == issuer then ClaimsOf(rule.all) else {} {
    }
    forall k | 0 <= k < |issuers| ensures AdmitAll(issuers, rule)[k] == AdmitRules(issuers, [rule])[k] {
      var i := issuers[k];
      assert i.core.issuerPolicy.admittedClaims + {} == i.core.issuerPolicy.admittedClaims;
    }
  }

  /** What an account's rules add. */
  function After(p: Progress, name: string, rules: seq<AccountRule>): Progress {
    Progress(AdmitRules(p.issuers, rules),
             if rules == [] then p.accounts
             else p.accounts[name := (if name in p.accounts then p.accounts[name] else []) + rules],
             p.rules + |rules|)
  }

  lemma AfterFirst(p: Progress, name: string, first: AccountRule, rest: seq<AccountRule>)
    ensures After(After(p, name, [first]), name, rest) == After(p, name, [first] + rest)
    ensures IssuerNames(After(p, name, [first]).issuers) == IssuerNames(p.issuers)
  {
    hide AdmitRules;
    AdmitTwice(p.issuers, [first], rest);
    AdmitKeepsNames(p.issuers, [first]);
    var before := if name in p.accounts then p.accounts[name] else [];
    assert (before + [first]) + rest == before + ([first] + rest);
    if rest == [] {
      assert [first] + rest == [first];
    }
  }

  lemma {:induction false} RulesAreAdded(p: Progress, name: string, elements: seq<Json>, rules: seq<AccountRule>)
    requires MeansRules(elements, IssuerNames(p.issuers), rules) && p.rules <= MAXIMUM_ACCOUNT_RULES
    ensures AddRules(p, name, elements)
            == if p.rules + |rules| <= MAXIMUM_ACCOUNT_RULES then Success(After(p, name, rules))
               else Failure(ResourceLimit)
    decreases |elements|
  {
    hide MeansRule, RuleOf, AdmitAll, AdmitRules, After;
    if elements == [] {
      NothingAdded(p, name);
    } else {
      RuleExactly(elements[0], IssuerNames(p.issuers), rules[0]);
      var rest := rules[1..];
      assert rules == [rules[0]] + rest;
      AfterFirst(p, name, rules[0], rest);
      OneAdded(p, name, rules[0]);
      if p.rules + 1 <= MAXIMUM_ACCOUNT_RULES {
        RulesAreAdded(After(p, name, [rules[0]]), name, elements[1..], rest);
      }
    }
  }

  lemma NothingAdded(p: Progress, name: string)
    ensures After(p, name, []) == p
  {
    AdmitNone(p.issuers);
  }

  lemma OneAdded(p: Progress, name: string, rule: AccountRule)
    ensures After(p, name, [rule])
            == var so := if name in p.accounts then p.accounts[name] else [];
               Progress(AdmitAll(p.issuers, rule), p.accounts[name := so + [rule]], p.rules + 1)
  {
    AdmitOne(p.issuers, rule);
  }

  lemma {:induction false} AddedAreRules(p: Progress, name: string, elements: seq<Json>)
    returns (rules: seq<AccountRule>)
    requires AddRules(p, name, elements).Success?
    ensures MeansRules(elements, IssuerNames(p.issuers), rules)
    decreases |elements|
  {
    hide MeansRule, RuleOf, AdmitAll, AdmitRules, After;
    rules := [];
    if elements != [] {
      var first := RuleOf(elements[0], IssuerNames(p.issuers)).value;
      RuleExactly(elements[0], IssuerNames(p.issuers), first);
      OneAdded(p, name, first);
      AfterFirst(p, name, first, []);
      var rest := AddedAreRules(After(p, name, [first]), name, elements[1..]);
      rules := [first] + rest;
      assert forall k :: 0 < k < |rules| ==> elements[k] == elements[1..][k - 1] && rules[k] == rest[k - 1];
    }
  }

  // ---- accounts

  /** An account with at least one rule, under a name of printable UTF-8. */
  ghost predicate MeansAccount(name: string, j: Json, names: set<string>, rules: seq<AccountRule>) {
    && Utf8.IsName(Octets(name)) && j.Object? && j.fields.Keys == {"allow"} && j.fields["allow"].Array?
    && rules != [] && MeansRules(j.fields["allow"].elements, names, rules)
  }

  ghost predicate MeansAccounts(walk: seq<string>, fields: map<string, Json>, names: set<string>, accounts: Accounts)
    requires forall n :: n in walk ==> n in fields
  {
    forall n :: n in walk ==> n in accounts && MeansAccount(n, fields[n], names, accounts[n])
  }

  /** The rules of the accounts, one account after another. */
  function AllRules(walk: seq<string>, accounts: Accounts): seq<AccountRule>
    requires forall n :: n in walk ==> n in accounts
  {
    if walk == [] then [] else accounts[walk[0]] + AllRules(walk[1..], accounts)
  }

  function AfterAll(p: Progress, walk: seq<string>, accounts: Accounts): Progress
    requires forall n :: n in walk ==> n in accounts
  {
    var rules := AllRules(walk, accounts);
    Progress(AdmitRules(p.issuers, rules), p.accounts + map n | n in walk :: accounts[n], p.rules + |rules|)
  }

  /** No name of the walk has rules yet. */
  ghost predicate Ahead(p: Progress, walk: seq<string>) {
    Unrepeated(walk) && forall n :: n in walk ==> n !in p.accounts
  }

  lemma AccountIsAdded(p: Progress, name: string, j: Json, rules: seq<AccountRule>)
    requires MeansAccount(name, j, IssuerNames(p.issuers), rules) && p.rules <= MAXIMUM_ACCOUNT_RULES
    ensures AddAccount(p, name, j)
            == if p.rules + |rules| <= MAXIMUM_ACCOUNT_RULES then Success(After(p, name, rules))
               else Failure(ResourceLimit)
  {
    hide After, AddRules, MeansRule, Utf8.IsName, Utf8.ValidName;
    Utf8.ValidNameIsName(Octets(name));
    RulesAreAdded(p, name, j.fields["allow"].elements, rules);
  }

  lemma AddedIsAccount(p: Progress, name: string, j: Json) returns (rules: seq<AccountRule>)
    requires AddAccount(p, name, j).Success?
    ensures MeansAccount(name, j, IssuerNames(p.issuers), rules)
  {
    hide AddRules, MeansRule, Utf8.IsName, Utf8.ValidName;
    Utf8.ValidNameIsName(Octets(name));
    rules := AddedAreRules(p, name, j.fields["allow"].elements);
  }

  lemma AfterOne(p: Progress, walk: seq<string>, accounts: Accounts)
    requires walk != [] && Ahead(p, walk) && forall n :: n in walk ==> n in accounts
    requires accounts[walk[0]] != []
    ensures var next := After(p, walk[0], accounts[walk[0]]);
            && Ahead(next, walk[1..]) && AfterAll(next, walk[1..], accounts) == AfterAll(p, walk, accounts)
            && IssuerNames(next.issuers) == IssuerNames(p.issuers)
  {
    hide AdmitRules, Ahead, AllRules;
    var name, rest, rules := walk[0], walk[1..], accounts[walk[0]];
    NextAccount(p, walk, rules);
    var others := AllRules(rest, accounts);
    AdmitTwice(p.issuers, rules, others);
    RestIsThere(p, walk);
    assert AllRules(walk, accounts) == rules + others by {
      FirstRules(walk, accounts);
    }
    MapsAgree(p.accounts, walk, accounts);
    assert [] + rules == rules;
  }

  lemma RestIsThere(p: Progress, walk: seq<string>)
    requires walk != [] && Ahead(p, walk)
    ensures walk[0] !in p.accounts && walk[0] !in walk[1..] && forall n :: n in walk[1..] ==> n in walk
  {
  }

  lemma FirstRules(walk: seq<string>, accounts: Accounts)
    requires walk != [] && forall n :: n in walk ==> n in accounts
    ensures AllRules(walk, accounts) == accounts[walk[0]] + AllRules(walk[1..], accounts)
  {
  }

  lemma MapsAgree(before: Accounts, walk: seq<string>, accounts: Accounts)
    requires walk != [] && walk[0] !in walk[1..] && forall n :: n in walk ==> n in accounts
    ensures before[walk[0] := accounts[walk[0]]] + (map n | n in walk[1..] :: accounts[n])
            == before + map n | n in walk :: accounts[n]
  {
    assert walk == [walk[0]] + walk[1..];
  }

  lemma {:induction false} AccountsAreAdded(p: Progress, walk: seq<string>, fields: map<string, Json>,
                                            accounts: Accounts)
    requires Ahead(p, walk) && p.rules <= MAXIMUM_ACCOUNT_RULES && forall n :: n in walk ==> n in fields
    requires MeansAccounts(walk, fields, IssuerNames(p.issuers), accounts)
    ensures AddAccounts(p, walk, fields)
            == if p.rules + |AllRules(walk, accounts)| <= MAXIMUM_ACCOUNT_RULES then
                 Success(AfterAll(p, walk, accounts))
               else Failure(ResourceLimit)
    decreases |walk|
  {
    hide AddAccount, Ahead, After, AfterAll, MeansAccount;
    if walk == [] {
      NoAccounts(p, accounts);
    } else {
      var name, rest := walk[0], walk[1..];
      AccountIsAdded(p, name, fields[name], accounts[name]);
      AccountHasRules(name, fields[name], IssuerNames(p.issuers), accounts[name]);
      AfterOne(p, walk, accounts);
      AfterCounts(p, name, accounts[name]);
      if p.rules + |accounts[name]| <= MAXIMUM_ACCOUNT_RULES {
        AccountsAreAdded(After(p, name, accounts[name]), rest, fields, accounts);
      }
    }
  }

  lemma AccountHasRules(name: string, j: Json, names: set<string>, rules: seq<AccountRule>)
    requires MeansAccount(name, j, names, rules)
    ensures rules != []
  {
  }

  lemma AfterCounts(p: Progress, name: string, rules: seq<AccountRule>)
    ensures After(p, name, rules).rules == p.rules + |rules|
  {
  }

  lemma NoAccounts(p: Progress, accounts: Accounts)
    ensures AfterAll(p, [], accounts) == p
  {
    AdmitNone(p.issuers);
    assert p.accounts + map[] == p.accounts;
  }

  lemma {:induction false} AddedAreAccounts(p: Progress, walk: seq<string>, fields: map<string, Json>)
    returns (accounts: Accounts)
    requires Ahead(p, walk) && p.rules <= MAXIMUM_ACCOUNT_RULES && forall n :: n in walk ==> n in fields
    requires AddAccounts(p, walk, fields).Success?
    ensures MeansAccounts(walk, fields, IssuerNames(p.issuers), accounts)
    ensures forall n :: n in accounts ==> n in walk
    decreases |walk|
  {
    hide AddAccount, Ahead, After, AfterAll, MeansAccount;
    accounts := map[];
    if walk != [] {
      var name, rest := walk[0], walk[1..];
      var rules := AddedIsAccount(p, name, fields[name]);
      AccountIsAdded(p, name, fields[name], rules);
      AccountHasRules(name, fields[name], IssuerNames(p.issuers), rules);
      NextAccount(p, walk, rules);
      AfterCounts(p, name, rules);
      var others := AddedAreAccounts(After(p, name, rules), rest, fields);
      accounts := others[name := rules];
      assert walk == [name] + rest;
      forall n | n in walk ensures MeansAccount(n, fields[n], IssuerNames(p.issuers), accounts[n]) {
      }
    }
  }

  lemma NextAccount(p: Progress, walk: seq<string>, rules: seq<AccountRule>)
    requires walk != [] && Ahead(p, walk) && rules != []
    ensures var next := After(p, walk[0], rules);
            Ahead(next, walk[1..]) && IssuerNames(next.issuers) == IssuerNames(p.issuers)
  {
    hide AdmitRules;
    AdmitKeepsNames(p.issuers, rules);
    assert forall n :: n in walk[1..] ==> n != walk[0] && n in walk;
  }

  // ---- settings

  predicate DocumentMembers(names: set<string>) {
    && {"version", "clock_skew", "total_verification_deadline", "resource_limits", "trusted_issuers", "accounts",
        "logging"} <= names
    && names <= {"version", "clock_skew", "total_verification_deadline", "resource_limits", "trusted_issuers",
                 "accounts", "logging"} + {"issuer_key_cache"}
  }

  lemma DocumentMembersExactly(j: Json)
    ensures ExactMembers(j, TOP_REQUIRED, TOP_OPTIONAL) <==> j.Object? && DocumentMembers(j.fields.Keys)
  {
  }

  lemma MembersAreThere(names: set<string>)
    requires DocumentMembers(names)
    ensures "version" in names && "clock_skew" in names && "total_verification_deadline" in names
    ensures "resource_limits" in names && "trusted_issuers" in names && "accounts" in names && "logging" in names
  {
  }

  /** An absolute directory, and a freshness that is 0 or between a minute and 720 hours. */
  ghost predicate MeansCache(j: Json) {
    && j.Object? && j.fields.Keys == {"directory", "maximum_freshness"}
    && (exists path: string :: TextMember(j.fields, "directory", path) && |path| >= 2 && path[0] == '/')
    && exists n: nat ::
         && MeansNanoseconds(j.fields, "maximum_freshness", n)
         && (n == 0 || 60_000_000_000 <= n <= 2_592_000_000_000_000)
  }

  lemma CacheExactly(fields: map<string, Json>)
    ensures CheckCache(fields).Success? <==>
              ("issuer_key_cache" in fields ==> MeansCache(fields["issuer_key_cache"]))
  {
    hide TextDuration, MeansNanoseconds;
    if "issuer_key_cache" in fields {
      var cache := FieldsOf(fields["issuer_key_cache"]);
      forall n: nat
        ensures TextDuration(cache, "maximum_freshness") == Success(n) <==>
                  MeansNanoseconds(cache, "maximum_freshness", n)
      {
        NanosecondsExactly(cache, "maximum_freshness", n);
      }
      forall path: string
        ensures StringMember(cache, "directory") == Some(path) <==> TextMember(cache, "directory", path)
      {
        StringMemberExactly(cache, "directory", path);
      }
    }
  }

  function FacilityText(f: Facility): string {
    match f
    case Authpriv => "authpriv"
    case Auth => "auth"
    case Daemon => "daemon"
    case User => "user"
    case Local0 => "local0"
    case Local1 => "local1"
    case Local2 => "local2"
    case Local3 => "local3"
    case Local4 => "local4"
    case Local5 => "local5"
    case Local6 => "local6"
    case Local7 => "local7"
  }

  ghost predicate MeansLogging(j: Json, f: Facility) {
    && j.Object? && j.fields.Keys <= {"facility"}
    && if "facility" in j.fields then TextMember(j.fields, "facility", FacilityText(f)) else f == Authpriv
  }

  lemma FacilityIsNamed(name: string, f: Facility)
    ensures ParseFacility(name) == Success(f) <==> name == FacilityText(f)
  {
  }

  lemma LoggingExactly(j: Json, f: Facility)
    ensures (ExactMembers(j, {}, {"facility"}) && FacilityOf(j) == Success(f)) <==> MeansLogging(j, f)
  {
    hide ParseFacility, FacilityText;
    forall name: string
      ensures StringMember(FieldsOf(j), "facility") == Some(name) <==> TextMember(FieldsOf(j), "facility", name)
    {
      StringMemberExactly(FieldsOf(j), "facility", name);
    }
    forall name: string ensures ParseFacility(name) == Success(f) <==> name == FacilityText(f) {
      FacilityIsNamed(name, f);
    }
  }

  /** The document's own members: version 1, the skew, the deadline of at most ten seconds, the limits, the cache, at
      most 64 issuers, the accounts and the facility. */
  ghost predicate MeansSettings(root: Json, c: Configuration) {
    && root.Object? && DocumentMembers(root.fields.Keys)
    && var fields := root.fields;
       && fields["version"] == Value(Unsigned(1))
       && MeansSeconds(fields, "clock_skew", c.skew)
       && MeansNanoseconds(fields, "total_verification_deadline", c.deadline) && 0 < c.deadline <= 10_000_000_000
       && MeansLimits(fields["resource_limits"], c.limits)
       && ("issuer_key_cache" in fields ==> MeansCache(fields["issuer_key_cache"]))
       && fields["trusted_issuers"].Array? && |fields["trusted_issuers"].elements| <= 64
       && fields["accounts"].Object?
       && MeansLogging(fields["logging"], c.facility)
  }

  lemma SettingsExactly(root: Json, c: Configuration)
    ensures SettingsOf(root) == Success(c.(issuers := [], accounts := map[])) <==> MeansSettings(root, c)
  {
    hide ExactMembers, DocumentMembers, WholeSeconds, MeansSeconds, TextDuration, MeansNanoseconds, LimitsOf,
         MeansLimits, CheckCache, MeansCache, FacilityOf, MeansLogging, StringMember;
    var fields := FieldsOf(root);
    DocumentMembersExactly(root);
    if root.Object? && DocumentMembers(fields.Keys) {
      MembersAreThere(fields.Keys);
      SecondsExactly(fields, "clock_skew", false, c.skew);
      NanosecondsExactly(fields, "total_verification_deadline", c.deadline);
      LimitsExactly(fields["resource_limits"], c.limits);
      CacheExactly(fields);
      LoggingExactly(fields["logging"], c.facility);
    }
  }

  // ---- the number of rules

  /** One pair a rule: its account, and its place there. */
  function Slots(walk: seq<string>, accounts: Accounts): set<(string, int)>
    requires forall n :: n in walk ==> n in accounts
  {
    set n, k | n in walk && 0 <= k < |accounts[n]| :: (n, k)
  }

  function RuleSlots(accounts: Accounts): set<(string, int)> {
    set n, k | n in accounts && 0 <= k < |accounts[n]| :: (n, k)
  }

  lemma {:induction false} PlacesCount(name: string, size: nat)
    ensures |set k | 0 <= k < size :: (name, k)| == size
  {
    var places := set k | 0 <= k < size :: (name, k);
    if size > 0 {
      PlacesCount(name, size - 1);
      assert places == (set k | 0 <= k < size - 1 :: (name, k)) + {(name, size - 1)};
    } else {
      assert places == {};
    }
  }

  lemma {:induction false} SlotsCount(walk: seq<string>, accounts: Accounts)
    requires Unrepeated(walk) && forall n :: n in walk ==> n in accounts
    ensures |Slots(walk, accounts)| == |AllRules(walk, accounts)|
  {
    if walk == [] {
      assert Slots(walk, accounts) == {};
    } else {
      var name, rest := walk[0], walk[1..];
      SlotsCount(rest, accounts);
      PlacesCount(name, |accounts[name]|);
      var places := set k | 0 <= k < |accounts[name]| :: (name, k);
      assert walk == [name] + rest && name !in rest;
      assert Slots(walk, accounts) == places + Slots(rest, accounts);
      assert places !! Slots(rest, accounts);
    }
  }

  lemma WalkCounts(walk: seq<string>, accounts: Accounts)
    requires Unrepeated(walk) && forall n :: n in walk <==> n in accounts
    ensures |RuleSlots(accounts)| == |AllRules(walk, accounts)|
  {
    SlotsCount(walk, accounts);
    assert RuleSlots(accounts) == Slots(walk, accounts);
  }

  // ---- the claims that are admitted

  /** A rule for the issuer looks at the claim. */
  ghost predicate LookedAt(accounts: Accounts, issuer: string, claim: string) {
    exists n, r, p :: n in accounts && r in accounts[n] && r.issuer == issuer && p in r.all && p.claim == claim
  }

  /** An issuer's policy admits the claims that it looks at itself or that a rule for it looks at, and no others. */
  ghost predicate AdmitsExactly(i: IssuerConfiguration, accounts: Accounts) {
    forall claim ::
      claim in i.core.issuerPolicy.admittedClaims <==>
        claim in OwnClaims(i) || LookedAt(accounts, i.core.issuerPolicy.issuer, claim)
  }

  lemma {:induction false} AllRulesAre(walk: seq<string>, accounts: Accounts, r: AccountRule)
    requires forall n :: n in walk ==> n in accounts
    ensures r in AllRules(walk, accounts) <==> exists n :: n in walk && r in accounts[n]
  {
    if walk != [] {
      AllRulesAre(walk[1..], accounts, r);
      assert walk == [walk[0]] + walk[1..];
    }
  }

  lemma ClaimsAreLookedAt(walk: seq<string>, accounts: Accounts, issuer: string, claim: string)
    requires forall n :: n in walk <==> n in accounts
    ensures claim in ClaimsFor(AllRules(walk, accounts), issuer) <==> LookedAt(accounts, issuer, claim)
  {
    forall r ensures r in AllRules(walk, accounts) <==> exists n :: n in walk && r in accounts[n] {
      AllRulesAre(walk, accounts, r);
    }
  }

  /** The issuer before any rule is read. */
  function Bare(i: IssuerConfiguration): (r: IssuerConfiguration)
    ensures r == i.(core := r.core) && OwnClaims(r) == OwnClaims(i)
  {
    i.(core := i.core.(issuerPolicy := i.core.issuerPolicy.(admittedClaims := OwnClaims(i))))
  }

  function BareIssuers(issuers: seq<IssuerConfiguration>): (r: seq<IssuerConfiguration>)
    ensures |r| == |issuers| && forall k :: 0 <= k < |r| ==> r[k] == Bare(issuers[k])
  {
    seq(|issuers|, k requires 0 <= k < |issuers| => Bare(issuers[k]))
  }

  lemma AdmittedExactly(walk: seq<string>, accounts: Accounts, i: IssuerConfiguration)
    requires forall n :: n in walk <==> n in accounts
    ensures AdmitsExactly(i, accounts) <==>
              i == Admitting(Bare(i), ClaimsFor(AllRules(walk, accounts), i.core.issuerPolicy.issuer))
  {
    hide AllRules, ClaimsFor, LookedAt, OwnClaims;
    var issuer := i.core.issuerPolicy.issuer;
    var claims := ClaimsFor(AllRules(walk, accounts), issuer);
    forall claim ensures claim in claims <==> LookedAt(accounts, issuer, claim) {
      ClaimsAreLookedAt(walk, accounts, issuer, claim);
    }
    if AdmitsExactly(i, accounts) {
      assert i.core.issuerPolicy.admittedClaims == OwnClaims(i) + claims;
    }
  }

  lemma BareMeans(e: Environment, elements: seq<Json>, skew: int, limits: ResourceLimits,
                  issuers: seq<IssuerConfiguration>)
    ensures MeansIssuers(e, elements, skew, limits, BareIssuers(issuers)) <==>
              MeansIssuers(e, elements, skew, limits, issuers)
    ensures AdmitOwn(BareIssuers(issuers)) && IssuerNames(BareIssuers(issuers)) == IssuerNames(issuers)
  {
    hide MeansIssuer, OwnClaims;
    var bare := BareIssuers(issuers);
    forall k | 0 <= k < |issuers| && |elements| == |issuers|
      ensures MeansIssuer(e, elements[k], skew, limits, bare[k])
         <==> MeansIssuer(e, elements[k], skew, limits, issuers[k])
    {
      BareMeansSo(e, elements[k], skew, limits, issuers[k]);
    }
    forall name ensures name in IssuerNames(bare) <==> name in IssuerNames(issuers) {
      if name in IssuerNames(bare) {
        var k :| 0 <= k < |bare| && bare[k].core.issuerPolicy.issuer == name;
        assert issuers[k] in issuers;
      }
      if name in IssuerNames(issuers) {
        var k :| 0 <= k < |issuers| && issuers[k].core.issuerPolicy.issuer == name;
        assert bare[k] in bare;
      }
    }
  }

  lemma BareMeansSo(e: Environment, j: Json, skew: int, limits: ResourceLimits, i: IssuerConfiguration)
    ensures MeansIssuer(e, j, skew, limits, Bare(i)) <==> MeansIssuer(e, j, skew, limits, i)
  {
    hide IssuerMembers, MeansProfiles, MeansParties, MeansRequired, MeansLifetime, MeansAudit, MeansKeys, OwnClaims;
  }

  // ---- the document

  /** The accounts of the document under their names, with 256 rules in all at most. */
  ghost predicate MeansAuthorization(fields: map<string, Json>, names: set<string>, accounts: Accounts) {
    && accounts.Keys == fields.Keys
    && (forall n :: n in fields ==> MeansAccount(n, fields[n], names, accounts[n]))
    && |RuleSlots(accounts)| <= 256
  }

  /** The document means the configuration: every field is what the member for it says. */
  ghost predicate Means(e: Environment, root: Json, c: Configuration) {
    && MeansSettings(root, c)
    && MeansIssuers(e, IssuerElements(root), c.skew, c.limits, c.issuers)
    && MeansAuthorization(AccountFields(root), IssuerNames(c.issuers), c.accounts)
    && forall k :: 0 <= k < |c.issuers| ==> AdmitsExactly(c.issuers[k], c.accounts)
  }

  function IssuerElements(root: Json): seq<Json> {
    if root.Object? && "trusted_issuers" in root.fields && root.fields["trusted_issuers"].Array? then
      root.fields["trusted_issuers"].elements
    else []
  }

  function AccountFields(root: Json): map<string, Json> {
    if root.Object? && "accounts" in root.fields && root.fields["accounts"].Object? then root.fields["accounts"].fields
    else map[]
  }

  /** Accounts that are accepted are what the document means, and their rules make of the issuers what is left. */
  lemma AcceptedAccounts(walk: seq<string>, fields: map<string, Json>, issuers: seq<IssuerConfiguration>, p: Progress)
    requires Enumerates(walk, fields) && AddAccounts(Progress(issuers, map[], 0), walk, fields) == Success(p)
    ensures MeansAuthorization(fields, IssuerNames(issuers), p.accounts)
    ensures (forall n :: n in walk <==> n in p.accounts)
            && p.issuers == AdmitRules(issuers, AllRules(walk, p.accounts))
  {
    hide MeansAccount, AddAccount, AllRules, AdmitRules, RuleSlots;
    var start := Progress(issuers, map[], 0);
    var accounts := AddedAreAccounts(start, walk, fields);
    AccountsAreAdded(start, walk, fields, accounts);
    StartsEmpty(walk, accounts);
    assert p == AfterAll(start, walk, accounts);
    WalkCounts(walk, accounts);
  }

  lemma StartsEmpty(walk: seq<string>, accounts: Accounts)
    requires forall n :: n in walk <==> n in accounts
    ensures map[] + (map n | n in walk :: accounts[n]) == accounts
  {
  }

  lemma MeantAccounts(walk: seq<string>, fields: map<string, Json>, issuers: seq<IssuerConfiguration>,
                      accounts: Accounts)
    requires Enumerates(walk, fields) && MeansAuthorization(fields, IssuerNames(issuers), accounts)
    ensures (forall n :: n in walk <==> n in accounts)
            && AddAccounts(Progress(issuers, map[], 0), walk, fields)
               == Success(Progress(AdmitRules(issuers, AllRules(walk, accounts)), accounts, |RuleSlots(accounts)|))
  {
    hide MeansAccount, AddAccount, AllRules, AdmitRules, RuleSlots;
    WalkCounts(walk, accounts);
    AccountsAreAdded(Progress(issuers, map[], 0), walk, fields, accounts);
    StartsEmpty(walk, accounts);
  }

  /** The issuers admit what they should exactly when they are the bare ones after all rules. */
  lemma AllAdmit(walk: seq<string>, accounts: Accounts, issuers: seq<IssuerConfiguration>)
    requires forall n :: n in walk <==> n in accounts
    ensures (forall k :: 0 <= k < |issuers| ==> AdmitsExactly(issuers[k], accounts)) <==>
              issuers == AdmitRules(BareIssuers(issuers), AllRules(walk, accounts))
  {
    hide AdmitsExactly, AllRules, ClaimsFor;
    var bare := BareIssuers(issuers);
    var admitted := AdmitRules(bare, AllRules(walk, accounts));
    forall k | 0 <= k < |issuers| ensures AdmitsExactly(issuers[k], accounts) <==> issuers[k] == admitted[k] {
      AdmittedExactly(walk, accounts, issuers[k]);
      assert bare[k] == Bare(issuers[k]);
    }
    if forall k :: 0 <= k < |issuers| ==> AdmitsExactly(issuers[k], accounts) {
      assert issuers == admitted;
    }
  }

  lemma BareOfAdmitted(issuers: seq<IssuerConfiguration>, rules: seq<AccountRule>)
    requires AdmitOwn(issuers)
    ensures BareIssuers(AdmitRules(issuers, rules)) == issuers
  {
    hide ClaimsFor, ClaimsOf;
    forall k | 0 <= k < |issuers| ensures BareIssuers(AdmitRules(issuers, rules))[k] == issuers[k] {
      assert OwnClaims(AdmitRules(issuers, rules)[k]) == OwnClaims(issuers[k]);
    }
  }

  lemma ValidatedMeans(e: Environment, root: Json, c: Configuration)
    requires Walks(e) && Validate(e, root) == Success(c)
    ensures Means(e, root, c)
  {
    hide SettingsOf, MeansSettings, IssuersOf, MeansIssuers, AddAccounts, MeansAuthorization, AdmitsExactly, AllRules,
         AdmitRules, AdmitOwn, Untaken, BareIssuers;
    SettingsExactly(root, c);
    var fields := AccountFields(root);
    var walk := e.order(fields);
    assert Enumerates(walk, fields);
    var issuers := IssuersOf(e, IssuerElements(root), c.skew, c.limits, {}).value;
    IssuersExactly(e, IssuerElements(root), c.skew, c.limits, {}, issuers);
    var p := AddAccounts(Progress(issuers, map[], 0), walk, fields).value;
    AcceptedAccounts(walk, fields, issuers, p);
    BareOfAdmitted(issuers, AllRules(walk, p.accounts));
    BareMeans(e, IssuerElements(root), c.skew, c.limits, c.issuers);
    AllAdmit(walk, p.accounts, c.issuers);
  }

  lemma MeansValidated(e: Environment, root: Json, c: Configuration)
    requires Walks(e) && Means(e, root, c)
    ensures Validate(e, root) == Success(c)
  {
    hide SettingsOf, MeansSettings, IssuersOf, MeansIssuers, AddAccounts, MeansAuthorization, AdmitsExactly, AllRules,
         AdmitRules, AdmitOwn, BareIssuers;
    SettingsExactly(root, c);
    var fields := AccountFields(root);
    var walk := e.order(fields);
    assert Enumerates(walk, fields);
    var issuers := BareIssuers(c.issuers);
    BareMeans(e, IssuerElements(root), c.skew, c.limits, c.issuers);
    IssuersExactly(e, IssuerElements(root), c.skew, c.limits, {}, issuers);
    MeantAccounts(walk, fields, issuers, c.accounts);
    AllAdmit(walk, c.accounts, c.issuers);
  }

  /** Validation succeeds with exactly the configuration the document means, and fails when it means none. */
  lemma ValidateExactly(e: Environment, root: Json, c: Configuration)
    requires Walks(e)
    ensures Validate(e, root) == Success(c) <==> Means(e, root, c)
  {
    hide Validate, Means;
    if Validate(e, root) == Success(c) {
      ValidatedMeans(e, root, c);
    }
    if Means(e, root, c) {
      MeansValidated(e, root, c);
    }
  }
}
