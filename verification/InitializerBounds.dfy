/** What the caller of `config init` can check beforehand: strings that can be written, and room for the settings. */
module InitializerBounds {
  import opened Configurations
  import opened Durations
  import opened Errors
  import opened Initializer
  import opened JsonTrees
  import opened Printing
  import opened Writings
  import Decimals
  import TreeBuilder

  // ---- which strings are written

  lemma NumeralIsAscii(k: nat, u: Unit)
    ensures AsciiText(Decimals.Decimal(k) + Suffix(u))
  {
    var digits, suffix := Decimals.Decimal(k), Suffix(u);
    assert Decimals.Digits(digits);
    assert AsciiText(suffix);
    forall i | 0 <= i < |digits + suffix| ensures (digits + suffix)[i] < 128 as char {
      assert (digits + suffix)[i] == if i < |digits| then digits[i] else suffix[i - |digits|];
    }
  }

  lemma CanonicalIsAscii(text: string)
    requires CanonicalDuration(text).Success?
    ensures Utf8Text(text)
  {
    hide CanonicalDuration, Utf8Text, AsciiText;
    var n := CanonicalDuration(text).value;
    CanonicalDurationIsExact(text, n);
    var k, u :| text == Decimals.Decimal(k) + Suffix(u) && n == Length(Term(k, u)) && n <= UINT64_MAX;
    NumeralIsAscii(k, u);
    AsciiIsUtf8(text);
  }

  lemma FacilityIsAscii(name: string)
    requires ParseFacility(name).Success?
    ensures AsciiText(name)
  {
  }

  lemma SettingsAreWritten(o: Options)
    requires CheckOptions(o).Success?
    ensures Utf8Text(o.clockSkew) && Utf8Text(o.deadline) && Utf8Text(o.cacheFreshness) && Utf8Text(o.facility)
  {
    hide CanonicalDuration, ParseFacility, CheckLimits, Utf8Text;
    CanonicalIsAscii(o.clockSkew);
    CanonicalIsAscii(o.deadline);
    CanonicalIsAscii(o.cacheFreshness);
    FacilityIsAscii(o.facility);
    AsciiIsUtf8(o.facility);
  }

  lemma NamesAreWritten(fields: map<string, Json>)
    requires forall n :: n in fields ==> AsciiText(n)
    ensures Writable(Object(fields)) <==> forall n :: n in fields ==> Writable(fields[n])
  {
    hide Utf8Text;
    forall n | n in fields ensures Utf8Text(n) {
      AsciiIsUtf8(n);
    }
  }

  lemma ScalarsAreWritten(s: string, n: nat)
    ensures Writable(Quoted(s)) <==> Utf8Text(s)
    ensures Writable(Number(n))
  {
    hide Utf8Text;
  }

  lemma SizeNames()
    ensures AsciiText("max_token_bytes") && AsciiText("max_evidence_bytes") && AsciiText("max_ssh_certificate_bytes")
  {
  }

  lemma LengthNames()
    ensures AsciiText("max_offered_key_chars") && AsciiText("max_authorized_keys_output_chars")
  {
  }

  lemma LimitsWritten(l: ResourceLimits)
    ensures Writable(Object(LimitFields(l)))
  {
    hide Utf8Text, Writable, AsciiText, Quoted, Number;
    SizeNames();
    LengthNames();
    var fields := LimitFields(l);
    NamesAreWritten(fields);
    ScalarsAreWritten("", l.maxTokenBytes);
    ScalarsAreWritten("", l.maxEvidenceBytes);
    ScalarsAreWritten("", l.maxCertificateBytes);
    ScalarsAreWritten("", l.maxOfferedKeyChars);
    ScalarsAreWritten("", l.maxOutputChars);
  }

  lemma CacheWritten(o: Options)
    ensures Writable(Object(CacheFields(o))) <==> Utf8Text(o.cacheDirectory) && Utf8Text(o.cacheFreshness)
  {
    hide Utf8Text, Writable;
    var fields := CacheFields(o);
    assert forall n :: n in fields ==> AsciiText(n);
    NamesAreWritten(fields);
    ScalarsAreWritten(o.cacheDirectory, 0);
    ScalarsAreWritten(o.cacheFreshness, 0);
    assert "directory" in fields && "maximum_freshness" in fields;
  }

  lemma LoggingWritten(o: Options)
    ensures Writable(Object(map["facility" := Quoted(o.facility)])) <==> Utf8Text(o.facility)
  {
    hide Utf8Text, Writable;
    var fields := map["facility" := Quoted(o.facility)];
    assert forall n :: n in fields ==> AsciiText(n);
    NamesAreWritten(fields);
    ScalarsAreWritten(o.facility, 0);
    assert "facility" in fields;
  }

  lemma SettingNames()
    ensures AsciiText("version") && AsciiText("clock_skew") && AsciiText("total_verification_deadline")
    ensures AsciiText("resource_limits") && AsciiText("issuer_key_cache") && AsciiText("logging")
    ensures AsciiText("trusted_issuers") && AsciiText("accounts")
  {
  }

  lemma PreliminaryNames(o: Options, l: ResourceLimits, trusted: Json, accounts: Json)
    ensures forall n :: n in Preliminary(o, l, trusted, accounts) ==> AsciiText(n)
  {
    hide LimitFields, CacheFields, Quoted, Number, AsciiText;
    SettingNames();
  }

  lemma PreliminaryWritten(o: Options, l: ResourceLimits, trusted: Json, accounts: Json)
    ensures Writable(Object(Preliminary(o, l, trusted, accounts))) <==>
              && Utf8Text(o.clockSkew) && Utf8Text(o.deadline) && Utf8Text(o.cacheDirectory)
              && Utf8Text(o.cacheFreshness) && Utf8Text(o.facility) && Writable(trusted) && Writable(accounts)
  {
    hide Utf8Text, Writable, LimitFields, CacheFields, Quoted, Number, AsciiText;
    LimitsWritten(l);
    CacheWritten(o);
    LoggingWritten(o);
    ScalarsAreWritten(o.clockSkew, 1);
    ScalarsAreWritten(o.deadline, 1);
    PreliminaryNames(o, l, trusted, accounts);
    var fields := Preliminary(o, l, trusted, accounts);
    NamesAreWritten(fields);
    assert fields["clock_skew"] == Quoted(o.clockSkew) && fields["total_verification_deadline"] == Quoted(o.deadline);
    assert fields["trusted_issuers"] == trusted && fields["accounts"] == accounts;
    assert fields["issuer_key_cache"] == Object(CacheFields(o));
    assert fields["logging"] == Object(map["facility" := Quoted(o.facility)]);
  }

  /** Of the options that are admitted, only the cache directory can keep the preliminary document from being written:
      it is written exactly when the directory is UTF-8. The strings of a policy that was parsed are. */
  lemma WrittenExactly(o: Options, policy: Result<Json>)
    requires InitialTree(o, policy).Success? && (policy.Success? ==> Writable(policy.value))
    ensures Writable(InitialTree(o, policy).value) <==> Utf8Text(o.cacheDirectory)
  {
    hide CheckOptions, Preliminary, Utf8Text;
    var l := CheckOptions(o).value;
    var (trusted, accounts) := Sections(o, policy).value;
    SettingsAreWritten(o);
    SectionsAreWritten(o, policy);
    PreliminaryWritten(o, l, trusted, accounts);
  }

  lemma SectionsAreWritten(o: Options, policy: Result<Json>)
    requires Sections(o, policy).Success? && (policy.Success? ==> Writable(policy.value))
    ensures Writable(Sections(o, policy).value.0) && Writable(Sections(o, policy).value.1)
  {
    hide Utf8Text;
  }

  /** The directory `/` followed by the octet 0xFF. */
  const BROKEN_DIRECTORY: string := ['/', 255 as char]

  /** It is admitted in place of any other directory, and cannot be written. */
  lemma BrokenDirectory(o: Options, policy: Result<Json>)
    requires InitialTree(o, policy).Success?
    ensures var broken := o.(cacheDirectory := BROKEN_DIRECTORY);
            InitialTree(broken, policy).Success? && !Writable(InitialTree(broken, policy).value)
  {
    hide CanonicalDuration, CanonicalUnsigned, ParseFacility, Preliminary, Utf8Text, Writable;
    var broken := o.(cacheDirectory := BROKEN_DIRECTORY);
    assert CheckOptions(broken) == CheckOptions(o);
    var (trusted, accounts) := Sections(broken, policy).value;
    if Writable(InitialTree(broken, policy).value) {
      PreliminaryWritten(broken, CheckOptions(broken).value, trusted, accounts);
      Utf8Octets(BROKEN_DIRECTORY, 1);
      assert false;
    }
  }

  /** Options of the smallest kind, with the broken directory. */
  const BROKEN_OPTIONS: Options :=
    Options(true, "", "0s", "1s", "1", "1", "1", "1", "1", BROKEN_DIRECTORY, "0s", "auth")

  lemma SpelledOut(k: nat, u: Unit, text: string)
    requires k < 10 && text == [Decimals.DigitChar(k)] + Suffix(u) && Length(Term(k, u)) <= UINT64_MAX
    ensures CanonicalDuration(text) == Success(Length(Term(k, u)))
  {
    hide CanonicalDuration;
    assert Decimals.Decimal(k) == [Decimals.DigitChar(k)];
    CanonicalDurationIsExact(text, Length(Term(k, u)));
  }

  /** An input that is admitted and fails: `initialize` ends in its internal error, whatever the printer. */
  lemma BrokenOptions(policy: Result<Json>)
    ensures InitialTree(BROKEN_OPTIONS, policy).Success? && !Writable(InitialTree(BROKEN_OPTIONS, policy).value)
  {
    hide CanonicalDuration, CanonicalUnsigned, Preliminary, Writable;
    SpelledOut(0, Seconds, "0s");
    SpelledOut(1, Seconds, "1s");
    assert Decimals.Decimal(1) == "1";
    CanonicalUnsignedIsExact("1", 32768, 1);
    CanonicalUnsignedIsExact("1", 16384, 1);
    CanonicalUnsignedIsExact("1", 49152, 1);
    CanonicalUnsignedIsExact("1", 65536, 1);
    CanonicalUnsignedIsExact("1", 4096, 1);
    BrokenDirectory(BROKEN_OPTIONS, policy);
  }

  // ---- room for the settings

  function Word(s: string): Node {
    Leaf(Text(s))
  }

  function LimitMembers(l: ResourceLimits): seq<Member> {
    [Member("max_token_bytes", Leaf(Unsigned(l.maxTokenBytes))),
     Member("max_evidence_bytes", Leaf(Unsigned(l.maxEvidenceBytes))),
     Member("max_ssh_certificate_bytes", Leaf(Unsigned(l.maxCertificateBytes))),
     Member("max_offered_key_chars", Leaf(Unsigned(l.maxOfferedKeyChars))),
     Member("max_authorized_keys_output_chars", Leaf(Unsigned(l.maxOutputChars)))]
  }

  function CacheMembers(o: Options): seq<Member> {
    [Member("directory", Word(o.cacheDirectory)), Member("maximum_freshness", Word(o.cacheFreshness))]
  }

  function LoggingMembers(o: Options): seq<Member> {
    [Member("facility", Word(o.facility))]
  }

  function PlainSettings(o: Options): seq<Member> {
    [Member("version", Leaf(Unsigned(1))), Member("clock_skew", Word(o.clockSkew)),
     Member("total_verification_deadline", Word(o.deadline))]
  }

  function NestedSettings(o: Options, l: ResourceLimits): seq<Member> {
    [Member("resource_limits", Record(LimitMembers(l))), Member("issuer_key_cache", Record(CacheMembers(o))),
     Member("logging", Record(LoggingMembers(o)))]
  }

  function PolicyMembers(trusted: Node, accounts: Node): seq<Member> {
    [Member("trusted_issuers", trusted), Member("accounts", accounts)]
  }

  lemma LimitMembersWrite(l: ResourceLimits)
    ensures Writes(Record(LimitMembers(l)), Object(LimitFields(l)))
  {
    hide Writes;
    var m := LimitMembers(l);
    assert Names(m) == {m[0].name, m[1].name, m[2].name, m[3].name, m[4].name};
    WritesFields(m, LimitFields(l));
  }

  lemma CacheMembersWrite(o: Options)
    ensures Writes(Record(CacheMembers(o)), Object(CacheFields(o)))
  {
    hide Writes;
    var m := CacheMembers(o);
    assert Names(m) == {m[0].name, m[1].name};
    WritesFields(m, CacheFields(o));
  }

  lemma NestedSettingsWrite(o: Options, l: ResourceLimits)
    ensures Writes(Record(LimitMembers(l)), Object(LimitFields(l)))
    ensures Writes(Record(CacheMembers(o)), Object(CacheFields(o)))
    ensures Writes(Record(LoggingMembers(o)), Object(map["facility" := Quoted(o.facility)]))
  {
    hide Writes, LimitMembers, CacheMembers, LimitFields, CacheFields;
    LimitMembersWrite(l);
    CacheMembersWrite(o);
    var m := LoggingMembers(o);
    assert Names(m) == {m[0].name};
    WritesFields(m, map["facility" := Quoted(o.facility)]);
  }

  function DocumentMembers(o: Options, l: ResourceLimits, trusted: Node, accounts: Node): seq<Member> {
    PlainSettings(o) + NestedSettings(o, l) + PolicyMembers(trusted, accounts)
  }

  function PlainFields(o: Options): map<string, Json> {
    map["version" := Number(1), "clock_skew" := Quoted(o.clockSkew),
        "total_verification_deadline" := Quoted(o.deadline)]
  }

  function NestedFields(o: Options, l: ResourceLimits): map<string, Json> {
    map["resource_limits" := Object(LimitFields(l)), "issuer_key_cache" := Object(CacheFields(o)),
        "logging" := Object(map["facility" := Quoted(o.facility)])]
  }

  lemma PlainWrites(o: Options)
    ensures Writes(Record(PlainSettings(o)), Object(PlainFields(o)))
  {
    hide Writes;
    var m := PlainSettings(o);
    assert Names(m) == {m[0].name, m[1].name, m[2].name};
    WritesFields(m, PlainFields(o));
  }

  lemma NestedWrites(o: Options, l: ResourceLimits)
    ensures Writes(Record(NestedSettings(o, l)), Object(NestedFields(o, l)))
  {
    hide LimitMembers, CacheMembers, LoggingMembers, LimitFields, CacheFields, Tree, Unambiguous;
    NestedSettingsWrite(o, l);
    var m := NestedSettings(o, l);
    assert Names(m) == {m[0].name, m[1].name, m[2].name};
    WritesFields(m, NestedFields(o, l));
  }

  lemma SettingsAreDistinct(o: Options, l: ResourceLimits)
    ensures PlainFields(o).Keys !! NestedFields(o, l).Keys
    ensures (PlainFields(o) + NestedFields(o, l)).Keys !! {"trusted_issuers", "accounts"}
  {
    hide LimitFields, CacheFields;
  }

  lemma PreliminaryParts(o: Options, l: ResourceLimits, trusted: Json, accounts: Json)
    ensures Preliminary(o, l, trusted, accounts)
            == PlainFields(o) + NestedFields(o, l) + map["trusted_issuers" := trusted, "accounts" := accounts]
  {
    hide LimitFields, CacheFields, Quoted, Number;
  }

  lemma DocumentWrites(o: Options, l: ResourceLimits, trusted: Json, accounts: Json, t: Node, a: Node)
    requires Writes(t, trusted) && Writes(a, accounts)
    ensures Writes(Record(DocumentMembers(o, l, t, a)), Object(Preliminary(o, l, trusted, accounts)))
  {
    hide PlainSettings, NestedSettings, PolicyMembers, PlainFields, NestedFields, Preliminary, Writes;
    var policy := map["trusted_issuers" := trusted, "accounts" := accounts];
    PlainWrites(o);
    NestedWrites(o, l);
    PolicyWrites(Object(policy), t, a);
    PreliminaryParts(o, l, trusted, accounts);
    SettingsAreDistinct(o, l);
    assert policy.Keys == {"trusted_issuers", "accounts"};
    WritesAppend(PlainSettings(o), PlainFields(o), NestedSettings(o, l), NestedFields(o, l));
    WritesAppend(PlainSettings(o) + NestedSettings(o, l), PlainFields(o) + NestedFields(o, l), PolicyMembers(t, a),
                 policy);
  }

  lemma PolicyWrites(policy: Json, t: Node, a: Node)
    requires policy.Object? && policy.fields.Keys == {"trusted_issuers", "accounts"}
    requires Writes(t, policy.fields["trusted_issuers"]) && Writes(a, policy.fields["accounts"])
    ensures Writes(Record(PolicyMembers(t, a)), policy)
  {
    hide Tree, Unambiguous;
    var m := PolicyMembers(t, a);
    assert Names(m) == {m[0].name, m[1].name};
    WritesFields(m, policy.fields);
  }

  lemma NestedSettingsSize(o: Options, l: ResourceLimits)
    ensures MembersDepth(NestedSettings(o, l)) == 1
    ensures MembersMemberCount(NestedSettings(o, l)) == MembersValueCount(NestedSettings(o, l)) == 11
  {
    hide LimitMembers, CacheMembers, LoggingMembers, Depth, MemberCount, ValueCount;
    NestedLeaves(o, l);
    var s := NestedSettings(o, l);
    ThreeMembers(s[0], s[1], s[2]);
  }

  lemma NestedLeaves(o: Options, l: ResourceLimits)
    ensures Depth(Record(LimitMembers(l))) == Depth(Record(CacheMembers(o))) == Depth(Record(LoggingMembers(o))) == 1
    ensures MemberCount(Record(LimitMembers(l))) == 5 && ValueCount(Record(LimitMembers(l))) == 6
    ensures MemberCount(Record(CacheMembers(o))) == 2 && ValueCount(Record(CacheMembers(o))) == 3
    ensures MemberCount(Record(LoggingMembers(o))) == 1 && ValueCount(Record(LoggingMembers(o))) == 2
  {
    hide MembersDepth, MembersMemberCount, MembersValueCount;
    LeafMembers(LimitMembers(l));
    LeafMembers(CacheMembers(o));
    LeafMembers(LoggingMembers(o));
  }

  /** The settings add 14 members and 14 values to the two sections of a policy file. */
  lemma DocumentSize(o: Options, l: ResourceLimits, t: Node, a: Node)
    requires t.List?
    ensures var document, policy := Record(DocumentMembers(o, l, t, a)), Record(PolicyMembers(t, a));
            && Depth(document) == Depth(policy)
            && MemberCount(document) == MemberCount(policy) + 14
            && ValueCount(document) == ValueCount(policy) + 14
  {
    hide LimitMembers, CacheMembers, LoggingMembers, PlainSettings, NestedSettings, PolicyMembers, MembersDepth,
         MembersMemberCount, MembersValueCount, NamesFit;
    var plain, nested, rest := PlainSettings(o), NestedSettings(o, l), PolicyMembers(t, a);
    PlainLeaves(o);
    LeafMembers(plain);
    NestedSettingsSize(o, l);
    MembersAppend(plain, nested);
    MembersAppend(plain + nested, rest);
    PolicyIsDeep(t, a);
  }

  lemma PlainLeaves(o: Options)
    ensures |PlainSettings(o)| == 3
    ensures forall i :: 0 <= i < |PlainSettings(o)| ==> PlainSettings(o)[i].value.Leaf?
  {
  }

  lemma PolicyIsDeep(t: Node, a: Node)
    requires t.List?
    ensures MembersDepth(PolicyMembers(t, a)) >= 1
  {
  }

  lemma SettingsNamesFit(o: Options, l: ResourceLimits)
    ensures ShortMembers(PlainSettings(o) + NestedSettings(o, l), 256)
  {
    var m, n := PlainSettings(o), NestedSettings(o, l);
    assert forall i :: 0 <= i < |m| ==> |m[i].name| <= 256 && NamesFit(m[i].value, 256);
    assert NamesFit(n[0].value, 256) && NamesFit(n[1].value, 256) && NamesFit(n[2].value, 256);
  }

  lemma DocumentNamesFit(o: Options, l: ResourceLimits, t: Node, a: Node)
    requires Unambiguous(Record(DocumentMembers(o, l, t, a))) && NamesFit(Record(PolicyMembers(t, a)), 256)
    ensures NamesFit(Record(DocumentMembers(o, l, t, a)), 256)
  {
    hide PlainSettings, NestedSettings, PolicyMembers;
    SettingsNamesFit(o, l);
    var settings, rest := PlainSettings(o) + NestedSettings(o, l), PolicyMembers(t, a);
    var m := DocumentMembers(o, l, t, a);
    assert m == settings + rest;
    forall i | 0 <= i < |m| ensures |m[i].name| <= 256 && NamesFit(m[i].value, 256) {
      if i >= |settings| {
        assert m[i] == rest[i - |settings|];
      } else {
        assert m[i] == settings[i];
      }
    }
  }

  /** A policy file that parses leaves the preliminary text within the bounds of the parser exactly when it has room
      for the 14 members and 14 values of the settings, and the text is not too long. */
  lemma RoomForSettings(p: Printer, o: Options, n: Node, policy: Json)
    requires Prints(p) && !o.denyAll && Held(policy) && Writable(policy) && Utf8Text(o.cacheDirectory)
    requires TreeBuilder.Parse(Events(n, []), TreeBuilder.CONFIG_LIMITS) == Success(policy)
    requires InitialTree(o, Success(policy)).Success?
    ensures p.compact(InitialTree(o, Success(policy)).value).Some?
    ensures var text := p.compact(InitialTree(o, Success(policy)).value).value;
            WithinLimits(text) <==>
              && text.octets <= MAXIMUM_CONFIGURATION_BYTES
              && MemberCount(n) + 14 <= 4096 && ValueCount(n) + 14 <= 8192
  {
    hide CheckOptions, TreeBuilder.Parse, Events, NamesFit, Depth, MemberCount, ValueCount, Tree, Unambiguous,
         DocumentMembers, PolicyMembers, Preliminary, ReadBack, Held, Writable, Utf8Text, Reread;
    var l := CheckOptions(o).value;
    var tree := InitialTree(o, Success(policy)).value;
    var trusted, accounts := policy.fields["trusted_issuers"], policy.fields["accounts"];
    SectionsAreHeld(o, Success(policy));
    SectionsAreWritten(o, Success(policy));
    PreliminaryIsHeld(o, l, trusted, accounts);
    WrittenExactly(o, Success(policy));
    assert PrintsAs(p.compact(trusted), trusted) && PrintsAs(p.compact(accounts), accounts);
    assert PrintsAs(p.compact(tree), tree);
    TreeBuilder.ParseAcceptsExactly(n, TreeBuilder.CONFIG_LIMITS);
    PolicyRoom(o, l, n, policy, p.compact(trusted).value.document, p.compact(accounts).value.document,
               p.compact(tree).value.document);
  }

  lemma PolicyRoom(o: Options, l: ResourceLimits, n: Node, policy: Json, t: Node, a: Node, document: Node)
    requires policy.Object? && policy.fields.Keys == {"trusted_issuers", "accounts"}
    requires policy.fields["trusted_issuers"].Array?
    requires TreeBuilder.Acceptable(n, TreeBuilder.CONFIG_LIMITS) && Tree(n) == policy
    requires Writes(t, ReadBack(policy.fields["trusted_issuers"])) && Writes(a, ReadBack(policy.fields["accounts"]))
    requires var fields := Preliminary(o, l, policy.fields["trusted_issuers"], policy.fields["accounts"]);
             Writes(document, ReadBack(Object(fields)))
    ensures TreeBuilder.Acceptable(document, TreeBuilder.CONFIG_LIMITS) <==>
              MemberCount(n) + 14 <= 4096 && ValueCount(n) + 14 <= 8192
  {
    hide NamesFit, Depth, MemberCount, ValueCount, Tree, Unambiguous, DocumentMembers, PolicyMembers, Preliminary,
         ReadBack, Reread;
    var trusted, accounts := policy.fields["trusted_issuers"], policy.fields["accounts"];
    var whole, rest := Record(DocumentMembers(o, l, t, a)), Record(PolicyMembers(t, a));
    PreliminaryReadsBack(o, l, trusted, accounts);
    DocumentWrites(o, l, ReadBack(trusted), ReadBack(accounts), t, a);
    PolicyReadsBack(policy);
    PolicyWrites(ReadBack(policy), t, a);
    ListOf(t, ReadBack(trusted));
    ListOf(document, ReadBack(Object(Preliminary(o, l, trusted, accounts))));
    DocumentSize(o, l, t, a);
    FittingIsUnambiguous(n, 256);
    RereadIsAlike(n, 256);
    SameTreeSameSize(Reread(n), rest, 256);
    SameTreeSameSize(document, whole, 256);
    DocumentNamesFit(o, l, t, a);
  }

  lemma PolicyReadsBack(policy: Json)
    requires policy.Object? && policy.fields.Keys == {"trusted_issuers", "accounts"}
    ensures ReadBack(policy).Object? && ReadBack(policy).fields.Keys == {"trusted_issuers", "accounts"}
    ensures ReadBack(policy).fields["trusted_issuers"] == ReadBack(policy.fields["trusted_issuers"])
    ensures ReadBack(policy).fields["accounts"] == ReadBack(policy.fields["accounts"])
    ensures policy.fields["trusted_issuers"].Array? ==> ReadBack(policy.fields["trusted_issuers"]).Array?
  {
  }

  lemma ListOf(n: Node, t: Json)
    requires Tree(n) == t
    ensures (t.Array? ==> n.List?) && (t.Object? ==> n.Record?)
  {
  }

  // ---- a policy without room

  function Nulls(count: nat): (items: seq<Node>)
    ensures |items| == count && forall i :: 0 <= i < count ==> items[i] == Leaf(Null)
  {
    seq(count, _ => Leaf(Null))
  }

  /** Two sections as the initializer asks for them, with `count` entries in the first. */
  function CrowdedPolicy(count: nat): Node {
    Record(PolicyMembers(List(Nulls(count)), Record([Member("a", Leaf(Null))])))
  }

  lemma {:induction false} LeafItems(items: seq<Node>)
    requires forall i :: 0 <= i < |items| ==> items[i].Leaf?
    ensures ItemsDepth(items) == 0 && ItemsMemberCount(items) == 0 && ItemsValueCount(items) == |items|
    decreases items
  {
    if items != [] {
      LeafItems(items[1..]);
    }
  }

  lemma CrowdedPolicySize(count: nat)
    ensures var n := CrowdedPolicy(count);
            Depth(n) == 2 && MemberCount(n) == 3 && ValueCount(n) == count + 4 && NamesFit(n, 256)
  {
    hide ItemsDepth, ItemsMemberCount, ItemsValueCount, Nulls;
    var trusted, accounts := List(Nulls(count)), Record([Member("a", Leaf(Null))]);
    var m := PolicyMembers(trusted, accounts);
    LeafItems(Nulls(count));
    LeafMembers(accounts.members);
    assert m == [m[0]] + [m[1]];
    MembersAppend([m[0]], [m[1]]);
    OneMember(m[0]);
    OneMember(m[1]);
    assert NamesFit(trusted, 256) && NamesFit(accounts, 256);
    assert m[0].name != m[1].name;
  }

  lemma CrowdedPolicyTree(count: nat)
    ensures var t := Tree(CrowdedPolicy(count));
            && t.Object? && t.fields.Keys == {"trusted_issuers", "accounts"}
            && t.fields["trusted_issuers"] == Array(Trees(Nulls(count)))
            && t.fields["accounts"] == Object(map["a" := Value(Null)])
  {
    hide Trees, Nulls;
    var members := PolicyMembers(List(Nulls(count)), Record([Member("a", Leaf(Null))]));
    assert Tree(Record([Member("a", Leaf(Null))])) == Object(map["a" := Value(Null)]);
    assert Names(members) == {members[0].name, members[1].name};
    FieldsLookup(members);
  }

  lemma CrowdedPolicyHeld(count: nat)
    ensures Held(Tree(CrowdedPolicy(count))) && Writable(Tree(CrowdedPolicy(count)))
  {
    hide Trees, Nulls, Utf8Text, Tree, CrowdedPolicy, AsciiText;
    CrowdedPolicyTree(count);
    NullsHeld(count);
    SettingNames();
    AsciiIsUtf8("trusted_issuers");
    AsciiIsUtf8("accounts");
  }

  lemma NullsHeld(count: nat)
    ensures Held(Array(Trees(Nulls(count)))) && Writable(Array(Trees(Nulls(count))))
    ensures Held(Object(map["a" := Value(Null)])) && Writable(Object(map["a" := Value(Null)]))
  {
    hide Trees, Nulls, Utf8Text;
    assert forall i :: 0 <= i < count ==> Trees(Nulls(count))[i] == Value(Null);
    AsciiIsUtf8("a");
  }

  /** It parses and has the sections that are asked for, and yet the initializer refuses it for its size. */
  lemma CrowdedPolicyHasNoRoom(p: Printer, o: Options, count: nat)
    requires Prints(p) && !o.denyAll && CheckOptions(o).Success? && Utf8Text(o.cacheDirectory)
    requires 8175 <= count <= 8188
    ensures var n := CrowdedPolicy(count);
            && TreeBuilder.Parse(Events(n, []), TreeBuilder.CONFIG_LIMITS) == Success(Tree(n))
            && InitialTree(o, Success(Tree(n))).Success?
            && p.compact(InitialTree(o, Success(Tree(n))).value).Some?
            && !WithinLimits(p.compact(InitialTree(o, Success(Tree(n))).value).value)
  {
    hide CheckOptions, TreeBuilder.Parse, Events, NamesFit, Depth, MemberCount, ValueCount, Tree, Held, Writable,
         CrowdedPolicy, Preliminary, WithinLimits, Utf8Text, Trees, Prints;
    var n := CrowdedPolicy(count);
    CrowdedPolicySize(count);
    CrowdedPolicyHeld(count);
    CrowdedIsRecord(count);
    CrowdedSections(o, count);
    TreeBuilder.ParseAcceptsExactly(n, TreeBuilder.CONFIG_LIMITS);
    RoomForSettings(p, o, n, Tree(n));
  }

  lemma CrowdedSections(o: Options, count: nat)
    requires count > 0 && !o.denyAll
    ensures Sections(o, Success(Tree(CrowdedPolicy(count)))).Success?
  {
    hide Tree, CrowdedPolicy, Held, Writable, Trees;
    CrowdedPolicyTree(count);
    CrowdedIsRecord(count);
    var t := Tree(CrowdedPolicy(count));
    assert |t.fields["trusted_issuers"].elements| == count && "a" in t.fields["accounts"].fields;
  }

  lemma CrowdedIsRecord(count: nat)
    ensures CrowdedPolicy(count).Record? && |Trees(Nulls(count))| == count
  {
  }
}
