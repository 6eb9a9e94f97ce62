/** Audit events: `serialize` of `src/syslog_logger.cpp` and the bound on what it writes. */
module Audit {
  import opened Bytes
  import opened Decimals
  import opened Errors
  import opened GqEvidence
  import opened Policies
  import Configurations
  import Utf8

  const MAXIMUM_EVENT_BYTES := 1024

  datatype Outcome = Allow | Deny | Faulty

  datatype Severity = Info | Notice | Severe

  datatype Event = Event(outcome: Outcome, reason: Option<Kind>, duration: nat, user: string, policy: string,
                         identity: string, acquisition: string, binding: string, evidence: string, algorithm: string)

  datatype Serialized = Serialized(payload: string, severity: Severity)

  // ---- JSON text

  function HexDigit(n: nat): (c: char)
    requires n < 16
    ensures '0' <= c <= '9' || 'a' <= c <= 'f'
  {
    if n < 10 then n as char + '0' else (n - 10) as char + 'a'
  }

  /** What the JSON printer writes for one character of a string that is valid UTF-8. */
  function EscapeChar(c: char): (s: string)
    ensures 1 <= |s| <= 6
    ensures c >= ' ' ==> |s| <= 2
    ensures forall i :: 0 <= i < |s| ==> s[i] >= ' '
  {
    if c == '"' then ['\\', '"']
    else if c == '\\' then ['\\', '\\']
    else if c == 8 as char then ['\\', 'b']
    else if c == 9 as char then ['\\', 't']
    else if c == 10 as char then ['\\', 'n']
    else if c == 12 as char then ['\\', 'f']
    else if c == 13 as char then ['\\', 'r']
    else if c < ' ' then ['\\', 'u', '0', '0', HexDigit(c as int / 16), HexDigit(c as int % 16)]
    else [c]
  }

  predicate Clean(s: string) {
    forall i :: 0 <= i < |s| ==> s[i] >= ' '
  }

  function Escape(s: string): (t: string)
    ensures Clean(t)
    ensures |s| <= |t|
  {
    if s == "" then "" else EscapeChar(s[0]) + Escape(s[1..])
  }

  function Quote(s: string): (t: string)
    ensures Clean(t)
  {
    ['"'] + Escape(s) + ['"']
  }

  lemma {:induction false} PlainIsKept(s: string)
    requires Plain(s)
    ensures Escape(s) == s && |Quote(s)| == |s| + 2
  {
    if s != "" {
      PlainIsKept(s[1..]);
    }
  }

  lemma {:induction false} CleanDoubles(s: string)
    requires Clean(s)
    ensures |Escape(s)| <= 2 * |s|
  {
    if s != "" {
      CleanDoubles(s[1..]);
    }
  }

  function LowerHex(octets: Bytes): (s: string)
    ensures |s| == 2 * |octets|
    ensures forall i :: 0 <= i < |s| ==> '0' <= s[i] <= '9' || 'a' <= s[i] <= 'f'
  {
    if octets == [] then ""
    else [HexDigit(octets[0] as int / 16), HexDigit(octets[0] as int % 16)] + LowerHex(octets[1..])
  }

  // ---- the members of an event

  /** A member name and the JSON text of its value. */
  datatype Field = Field(name: string, text: string)

  function Size(f: Field): nat {
    |Quote(f.name)| + 1 + |f.text|
  }

  function Fields(fields: seq<Field>): string {
    if fields == [] then ""
    else Fields(fields[..|fields| - 1]) + (if |fields| == 1 then "" else ",")
         + Quote(fields[|fields| - 1].name) + ":" + fields[|fields| - 1].text
  }

  function Sizes(fields: seq<Field>): nat {
    if fields == [] then 0 else Sizes(fields[..|fields| - 1]) + 1 + Size(fields[|fields| - 1])
  }

  lemma {:induction false} FieldsFit(fields: seq<Field>)
    requires forall f :: f in fields ==> Clean(f.text)
    ensures Clean(Fields(fields)) && |Fields(fields)| <= Sizes(fields)
    ensures fields != [] ==> |Fields(fields)| == Sizes(fields) - 1
  {
    hide Quote;
    if fields != [] {
      FieldsFit(fields[..|fields| - 1]);
    }
  }

  const MALFORMED_INPUT: word := "malformed_input"
  const RESOURCE_LIMIT: word := "resource_limit"
  const UNSUPPORTED_VERSION: word := "unsupported_version"
  const UNSUPPORTED_PROFILE: word := "unsupported_profile"
  const UNSUPPORTED_ALGORITHM: word := "unsupported_algorithm"
  const CALLER_KEY_INVALID: word := "caller_key_invalid"
  const ISSUER_UNTRUSTED: word := "issuer_untrusted"
  const ISSUER_SIGNATURE_INVALID: word := "issuer_signature_invalid"
  const EVIDENCE_INVALID: word := "evidence_invalid"
  const EVIDENCE_RESULT_MISMATCH: word := "evidence_result_mismatch"
  const BINDING_INVALID: word := "binding_invalid"
  const ISSUER_CLAIMS_INVALID: word := "issuer_claims_invalid"
  const CREDENTIAL_NOT_YET_VALID: word := "credential_not_yet_valid"
  const CREDENTIAL_EXPIRED: word := "credential_expired"
  const CALLER_SIGNATURE_INVALID: word := "caller_signature_invalid"
  const SSH_CERTIFICATE_INVALID: word := "ssh_certificate_invalid"
  const SSH_KEY_MISMATCH: word := "ssh_key_mismatch"
  const SSH_IDENTITY_NOT_YET_VALID: word := "ssh_identity_not_yet_valid"
  const SSH_IDENTITY_EXPIRED: word := "ssh_identity_expired"
  const SSH_PRINCIPAL_INVALID: word := "ssh_principal_invalid"
  const ACCOUNT_UNAUTHORIZED: word := "account_unauthorized"
  const DEADLINE_EXCEEDED: word := "deadline_exceeded"
  const OPERATION_CANCELLED: word := "operation_cancelled"
  const STATE_INVALID: word := "state_invalid"
  const INTERNAL_ERROR: word := "internal_error"

  function ErrorName(k: Kind): (s: word)
    ensures |s| <= 26
  {
    match k
    case MalformedInput => MALFORMED_INPUT
    case ResourceLimit => RESOURCE_LIMIT
    case UnsupportedVersion => UNSUPPORTED_VERSION
    case UnsupportedProfile => UNSUPPORTED_PROFILE
    case UnsupportedAlgorithm => UNSUPPORTED_ALGORITHM
    case CallerKeyInvalid => CALLER_KEY_INVALID
    case IssuerUntrusted => ISSUER_UNTRUSTED
    case IssuerSignatureInvalid => ISSUER_SIGNATURE_INVALID
    case EvidenceInvalid => EVIDENCE_INVALID
    case EvidenceResultMismatch => EVIDENCE_RESULT_MISMATCH
    case BindingInvalid => BINDING_INVALID
    case IssuerClaimsInvalid => ISSUER_CLAIMS_INVALID
    case CredentialNotYetValid => CREDENTIAL_NOT_YET_VALID
    case CredentialExpired => CREDENTIAL_EXPIRED
    case CallerSignatureInvalid => CALLER_SIGNATURE_INVALID
    case SshCertificateInvalid => SSH_CERTIFICATE_INVALID
    case SshKeyMismatch => SSH_KEY_MISMATCH
    case SshIdentityNotYetValid => SSH_IDENTITY_NOT_YET_VALID
    case SshIdentityExpired => SSH_IDENTITY_EXPIRED
    case SshPrincipalInvalid => SSH_PRINCIPAL_INVALID
    case AccountUnauthorized => ACCOUNT_UNAUTHORIZED
    case DeadlineExceeded => DEADLINE_EXCEEDED
    case OperationCancelled => OPERATION_CANCELLED
    case StateInvalid => STATE_INVALID
    case InternalError => INTERNAL_ERROR
  }

  const ALLOW: word := "allow"
  const DENY: word := "deny"
  const ERROR: word := "error"

  function OutcomeName(o: Outcome): (s: word)
    ensures |s| <= 5
  {
    match o
    case Allow => ALLOW
    case Deny => DENY
    case Faulty => ERROR
  }

  /** Outcome and reason belong together. */
  predicate Consistent(e: Event) {
    match e.outcome
    case Allow => e.reason.None?
    case Deny => e.reason.Some? && e.reason.value != InternalError
    case Faulty => e.reason == Some(InternalError)
  }

  predicate LowerHexDigest(s: string) {
    s == "" || (|s| == 64 && forall i :: 0 <= i < |s| ==> '0' <= s[i] <= '9' || 'a' <= s[i] <= 'f')
  }

  const ACQUISITIONS: set<string> :=
    {Configurations.NATIVE_ACQUISITION, Configurations.WEB_ACQUISITION, Configurations.WORKLOAD_ACQUISITION}
  const BINDINGS: set<string> := {NONCE_BINDING, AUDIENCE_BINDING, CLAIM_BINDING}
  const EVIDENCES: set<string> := {STANDARD_EVIDENCE, GQ_EVIDENCE}
  const ES256_NAME: word := "ES256"
  const ED25519_NAME: word := "Ed25519"
  const ALGORITHMS: set<string> := {ES256_NAME, ED25519_NAME}

  predicate WellFormed(e: Event) {
    && Consistent(e)
    && (e.policy == "" || Configurations.ValidPolicyId(e.policy))
    && LowerHexDigest(e.identity)
    && (e.acquisition == "" || e.acquisition in ACQUISITIONS)
    && (e.binding == "" || e.binding in BINDINGS)
    && (e.evidence == "" || e.evidence in EVIDENCES)
    && (e.algorithm == "" || e.algorithm in ALGORITHMS)
  }

  function Optional(name: string, value: string): seq<Field> {
    if value == "" then [] else [Field(name, Quote(value))]
  }

  function UserField(H: Sha256, user: string, hashed: bool): Field {
    if hashed then Field("requested_user_sha256", Quote(LowerHex(H(Octets(user)))))
    else Field("requested_user", Quote(user))
  }

  const NO_REASON: word := "none"

  function ReasonName(e: Event): (s: word)
    ensures |s| <= 26
  {
    if e.reason.None? then NO_REASON else ErrorName(e.reason.value)
  }

  function Head(H: Sha256, e: Event, hashed: bool): seq<Field> {
    [Field("event_version", Decimal(1)), Field("event", Quote("verification_completed")),
     Field("result", Quote(OutcomeName(e.outcome))),
     Field("reason", Quote(ReasonName(e))), Field("duration_ms", Decimal(e.duration)), UserField(H, e.user, hashed)]
  }

  function Tail(e: Event): seq<Field> {
    Optional("issuer_policy", e.policy) + Optional("identity_ref_sha256", e.identity)
    + Optional("acquisition_profile", e.acquisition)
    + Optional("binding_profile", e.binding) + Optional("evidence_profile", e.evidence)
    + Optional("caller_algorithm", e.algorithm)
  }

  function Text(H: Sha256, e: Event, hashed: bool): string {
    "{" + Fields(Head(H, e, hashed) + Tail(e)) + "}"
  }

  function SeverityOf(e: Event): Severity {
    if e.outcome == Allow then Info else if e.reason == Some(InternalError) then Severe else Notice
  }

  function Payload(H: Sha256, e: Event, hashed: bool): Result<Serialized> {
    var _ :- Need(WellFormed(e), InternalError);
    var _ :- Need(e.identity != "" ==> e.policy != "", InternalError);
    var text := Text(H, e, hashed);
    var _ :- Need(|text| <= MAXIMUM_EVENT_BYTES && 10 as char !in text && 0 as char !in text, InternalError);
    Success(Serialized(text, SeverityOf(e)))
  }

  predicate SafeUser(user: string) {
    Utf8.ValidName(Octets(user), Utf8.MAXIMUM_NAME_BYTES)
  }

  function Serialize(H: Sha256, e: Event): Result<Serialized> {
    var first := Payload(H, e, !SafeUser(e.user));
    if first.Failure? && SafeUser(e.user) then Payload(H, e, true) else first
  }

  // ---- the bound

  lemma {:induction false} SizesAppend(a: seq<Field>, b: seq<Field>)
    ensures Sizes(a + b) == Sizes(a) + Sizes(b)
    decreases |b|
  {
    if b == [] {
      assert a + b == a;
    } else {
      SizesAppend(a, b[..|b| - 1]);
      assert (a + b)[..|a + b| - 1] == a + b[..|b| - 1];
    }
  }

  lemma SizesOfOne(f: Field)
    ensures Sizes([f]) == 1 + Size(f)
  {
    assert [f][..0] == [];
  }

  lemma {:induction false} DecimalLength(n: nat, digits: nat, limit: nat)
    requires digits > 0 && limit == Power10(digits) && n < limit
    ensures |Decimal(n)| <= digits && Clean(Decimal(n))
    decreases digits
  {
    if n >= 10 {
      DecimalLength(n / 10, digits - 1, Power10(digits - 1));
    }
  }

  function Power10(k: nat): (p: nat)
    ensures p > 0
  {
    if k == 0 then 1 else 10 * Power10(k - 1)
  }

  lemma Uint32Length(n: nat)
    requires n < UINT32_LIMIT
    ensures |Decimal(n)| <= 10 && Clean(Decimal(n))
  {
    assert Power10(5) == 100_000 && Power10(10) == 10_000_000_000 by {
      assert Power10(2) == 100 && Power10(4) == 10_000 && Power10(6) == 1_000_000 && Power10(8) == 100_000_000;
    }
    DecimalLength(n, 10, Power10(10));
  }

  /** The printable octets of a name are printable characters. */
  lemma {:induction false} NamesAreClean(value: Bytes)
    requires Utf8.Characters(value)
    ensures forall i :: 0 <= i < |value| ==> value[i] >= 0x20
    decreases |value|
  {
    if value != [] {
      var k := Utf8.Character(value).value;
      NamesAreClean(value[k..]);
      CharacterIsClean(value);
      assert forall i :: k <= i < |value| ==> value[i] == value[k..][i - k];
    }
  }

  lemma CharacterIsClean(value: Bytes)
    requires value != [] && Utf8.Character(value).Some?
    ensures forall i :: 0 <= i < Utf8.Character(value).value ==> value[i] >= 0x20
  {
    var k := Utf8.Character(value).value;
    var n := Utf8.CharacterIsEncoded(value);
    assert value[..k] == Utf8.EncodeScalar(n);
    forall i | 0 <= i < k ensures value[i] >= 0x20 {
      assert value[i] == Utf8.EncodeScalar(n)[i];
    }
  }

  lemma SafeUserIsClean(user: string)
    requires SafeUser(user)
    ensures Clean(user) && |user| <= 256
  {
    NamesAreClean(Octets(user));
    assert forall i :: 0 <= i < |user| ==> Octets(user)[i] == user[i] as int % 256;
  }

  lemma QuoteLength(s: string)
    ensures |Quote(s)| == |Escape(s)| + 2
  {
  }

  lemma UserFieldFits(H: Sha256, user: string)
    ensures var f := UserField(H, user, !SafeUser(user)); Clean(f.text) && Size(f) <= 531
  {
    hide Escape, SafeUser, Quote;
    if SafeUser(user) {
      SafeUserIsClean(user);
      CleanDoubles(user);
      QuoteLength(user);
      PlainIsKept("requested_user");
    } else {
      PlainIsKept("requested_user_sha256");
      PlainIsKept(LowerHex(H(Octets(user))));
    }
  }

  lemma ReasonFits(e: Event)
    ensures |Quote(ReasonName(e))| <= 28
  {
    hide Quote, Escape, ReasonName;
    PlainIsKept(ReasonName(e));
  }

  lemma HeadFits(H: Sha256, e: Event)
    requires e.duration < UINT32_LIMIT
    ensures Sizes(Head(H, e, !SafeUser(e.user))) <= 657 + 6
    ensures forall f :: f in Head(H, e, !SafeUser(e.user)) ==> Clean(f.text)
  {
    hide Quote, Escape, UserField, SafeUser, LowerHex, ErrorName, Plain, Decimal;
    var fields := Head(H, e, !SafeUser(e.user));
    UserFieldFits(H, e.user);
    Uint32Length(e.duration);
    Uint32Length(1);
    NamePlain();
    ReasonFits(e);
    SixSizes(fields[0], fields[1], fields[2], fields[3], fields[4], fields[5]);
  }

  lemma SixSizes(a: Field, b: Field, c: Field, d: Field, e: Field, f: Field)
    ensures Sizes([a, b, c, d, e, f]) == 6 + Size(a) + Size(b) + Size(c) + Size(d) + Size(e) + Size(f)
  {
    SizesOfOne(a);
    SizesAppend([a], [b]);
    SizesOfOne(b);
    assert [a] + [b] == [a, b];
    SizesAppend([a, b], [c]);
    SizesOfOne(c);
    assert [a, b] + [c] == [a, b, c];
    SizesAppend([a, b, c], [d]);
    SizesOfOne(d);
    assert [a, b, c] + [d] == [a, b, c, d];
    SizesAppend([a, b, c, d], [e]);
    SizesOfOne(e);
    assert [a, b, c, d] + [e] == [a, b, c, d, e];
    SizesAppend([a, b, c, d, e], [f]);
    SizesOfOne(f);
    assert [a, b, c, d, e] + [f] == [a, b, c, d, e, f];
  }

  lemma NamePlain()
    ensures |Decimal(1)| == 1 && |Quote("event_version")| == 15 && |Quote("event")| == 7
    ensures |Quote("result")| == 8 && |Quote("reason")| == 8
    ensures |Quote("duration_ms")| == 13 && |Quote("verification_completed")| == 24
    ensures forall o: Outcome :: |Quote(OutcomeName(o))| <= 7
  {
    hide Escape, Quote;
    PlainIsKept("event_version");
    PlainIsKept("event");
    PlainIsKept("result");
    PlainIsKept("reason");
    PlainIsKept("duration_ms");
    PlainIsKept("verification_completed");
    forall o: Outcome ensures |Quote(OutcomeName(o))| <= 7 {
      PlainIsKept(OutcomeName(o));
    }
  }

  lemma OptionalFits(name: string, value: string, bound: nat)
    requires Plain(name) && Plain(value) && |value| <= bound
    ensures Sizes(Optional(name, value)) <= |name| + bound + 6
    ensures forall f :: f in Optional(name, value) ==> Clean(f.text)
  {
    PlainIsKept(name);
    PlainIsKept(value);
    SizesOfOne(Field(name, Quote(value)));
  }

  lemma PolicyIdIsPlain(id: string)
    requires Configurations.ValidPolicyId(id)
    ensures Plain(id) && |id| <= 64
  {
  }

  lemma NothingIsPlain()
    ensures Plain("")
  {
  }

  lemma WordIsPlain(w: word)
    ensures Plain(w)
  {
  }

  lemma EnumerationsArePlain(e: Event)
    requires WellFormed(e)
    ensures Plain(e.acquisition) && |e.acquisition| <= 34 && Plain(e.binding) && |e.binding| <= 17
    ensures Plain(e.evidence) && |e.evidence| <= 15 && Plain(e.algorithm) && |e.algorithm| <= 7
  {
    hide Plain;
    NothingIsPlain();
    WordIsPlain(Configurations.NATIVE_ACQUISITION);
    WordIsPlain(Configurations.WEB_ACQUISITION);
    WordIsPlain(Configurations.WORKLOAD_ACQUISITION);
    WordIsPlain(NONCE_BINDING);
    WordIsPlain(AUDIENCE_BINDING);
    WordIsPlain(CLAIM_BINDING);
    WordIsPlain(STANDARD_EVIDENCE);
    WordIsPlain(GQ_EVIDENCE);
    WordIsPlain(ES256_NAME);
    WordIsPlain(ED25519_NAME);
  }

  lemma TailFits(e: Event)
    requires WellFormed(e)
    ensures Sizes(Tail(e)) <= 329 + 6
    ensures forall f :: f in Tail(e) ==> Clean(f.text)
  {
    hide Optional, Plain, Quote, Escape;
    EnumerationsArePlain(e);
    if e.policy != "" {
      PolicyIdIsPlain(e.policy);
    }
    TailNames();
    OptionalFits("issuer_policy", e.policy, 64);
    OptionalFits("identity_ref_sha256", e.identity, 64);
    OptionalFits("acquisition_profile", e.acquisition, 34);
    OptionalFits("binding_profile", e.binding, 17);
    OptionalFits("evidence_profile", e.evidence, 15);
    OptionalFits("caller_algorithm", e.algorithm, 7);
    var a, b := Optional("issuer_policy", e.policy), Optional("identity_ref_sha256", e.identity);
    var c, d := Optional("acquisition_profile", e.acquisition), Optional("binding_profile", e.binding);
    var f, g := Optional("evidence_profile", e.evidence), Optional("caller_algorithm", e.algorithm);
    SizesAppend(a, b);
    SizesAppend(a + b, c);
    SizesAppend(a + b + c, d);
    SizesAppend(a + b + c + d, f);
    SizesAppend(a + b + c + d + f, g);
  }

  lemma TailNames()
    ensures Plain("issuer_policy") && Plain("identity_ref_sha256") && Plain("acquisition_profile")
    ensures Plain("binding_profile") && Plain("evidence_profile") && Plain("caller_algorithm")
  {
  }

  /** The text of an event whose fields are what the serializer admits. */
  lemma TextFits(H: Sha256, e: Event)
    requires e.duration < UINT32_LIMIT && WellFormed(e)
    ensures |Text(H, e, !SafeUser(e.user))| <= 999 && Clean(Text(H, e, !SafeUser(e.user)))
  {
    hide Head, Tail, WellFormed, SafeUser, Fields, Sizes;
    HeadFits(H, e);
    TailFits(e);
    var head, tail := Head(H, e, !SafeUser(e.user)), Tail(e);
    SizesAppend(head, tail);
    FieldsFit(head + tail);
    HeadIsSix(H, e, !SafeUser(e.user));
  }

  lemma HeadIsSix(H: Sha256, e: Event, hashed: bool)
    ensures |Head(H, e, hashed)| == 6
  {
  }

  /** Every event with a 32-bit duration serializes exactly when its fields are admitted, on the first attempt
      and within 999 of the 1024 octets: the second attempt never changes the result. */
  lemma SerializeNeedsOneAttempt(H: Sha256, e: Event)
    requires e.duration < UINT32_LIMIT
    ensures Serialize(H, e) == Payload(H, e, !SafeUser(e.user))
    ensures Serialize(H, e).Success? <==> WellFormed(e) && (e.identity != "" ==> e.policy != "")
    ensures Serialize(H, e).Success? ==> |Serialize(H, e).value.payload| <= 999 && Clean(Serialize(H, e).value.payload)
  {
    hide Text, WellFormed, SafeUser;
    if WellFormed(e) {
      TextFits(H, e);
      var text := Text(H, e, !SafeUser(e.user));
      assert 10 as char !in text && 0 as char !in text;
    }
  }

  // ---- the writer

  lemma FieldsStep(before: seq<Field>, f: Field)
    ensures "{" + Fields(before + [f])
            == "{" + Fields(before) + (if before == [] then "" else ",") + Quote(f.name) + ":" + f.text
  {
    hide Quote;
    assert (before + [f])[..|before|] == before;
    var separator := if before == [] then "" else ",";
    var body := Fields(before) + separator + Quote(f.name) + ":" + f.text;
    assert Fields(before + [f]) == body;
    Reassociate("{", Fields(before), separator, Quote(f.name), ":", f.text);
  }

  lemma Reassociate(a: string, b: string, c: string, d: string, e: string, f: string)
    ensures a + (b + c + d + e + f) == a + b + c + d + e + f
  {
  }

  /** The text of a payload as it grows; `first` says that no member has been written. */
  class PayloadBuffer {
    var output: string
    var first: bool
    ghost var fields: seq<Field>

    ghost predicate Valid()
      reads this
    {
      output == "{" + Fields(fields) && first == (fields == [])
    }

    constructor ()
      ensures Valid() && fields == []
    {
      output, first, fields := "{", true, [];
    }

    method Append(name: string, text: string)
      requires Valid()
      modifies this
      ensures Valid() && fields == old(fields) + [Field(name, text)]
    {
      hide Quote, Fields;
      ghost var before := fields;
      FieldsStep(before, Field(name, text));
      if !first {
        output := output + ",";
      }
      first := false;
      output := output + Quote(name);
      output := output + ":";
      output := output + text;
      fields := before + [Field(name, text)];
    }

    method Member(name: string, value: string)
      requires Valid()
      modifies this
      ensures Valid() && fields == old(fields) + [Field(name, Quote(value))]
    {
      Append(name, Quote(value));
    }

    method IntegerMember(name: string, value: nat)
      requires Valid()
      modifies this
      ensures Valid() && fields == old(fields) + [Field(name, Decimal(value))]
    {
      Append(name, Decimal(value));
    }

    method OptionalMember(name: string, value: string)
      requires Valid()
      modifies this
      ensures Valid() && fields == old(fields) + Optional(name, value)
    {
      if value != "" {
        Member(name, value);
      } else {
        assert fields + [] == fields;
      }
    }
  }

  /** `verification_payload`. */
  method WritePayload(H: Sha256, e: Event, hashed: bool) returns (r: Result<Serialized>)
    ensures r == Payload(H, e, hashed)
  {
    hide WellFormed, Fields, Quote, Decimal, LowerHex, Head, Optional, Tail;
    if !WellFormed(e) {
      return Failure(InternalError);
    }
    var buffer := WriteHead(H, e, hashed);
    buffer.OptionalMember("issuer_policy", e.policy);
    if e.identity != "" && e.policy == "" {
      return Failure(InternalError);
    }
    buffer.OptionalMember("identity_ref_sha256", e.identity);
    buffer.OptionalMember("acquisition_profile", e.acquisition);
    buffer.OptionalMember("binding_profile", e.binding);
    buffer.OptionalMember("evidence_profile", e.evidence);
    buffer.OptionalMember("caller_algorithm", e.algorithm);
    TailInOrder(Head(H, e, hashed), e);
    var text := buffer.output + "}";
    assert text == Text(H, e, hashed);
    if |text| > MAXIMUM_EVENT_BYTES || 10 as char in text || 0 as char in text {
      return Failure(InternalError);
    }
    r := Success(Serialized(text, SeverityOf(e)));
  }

  method WriteHead(H: Sha256, e: Event, hashed: bool) returns (buffer: PayloadBuffer)
    ensures fresh(buffer) && buffer.Valid() && buffer.fields == Head(H, e, hashed)
  {
    hide Fields, Quote, Decimal, LowerHex, OutcomeName, ReasonName;
    buffer := new PayloadBuffer();
    buffer.IntegerMember("event_version", 1);
    buffer.Member("event", "verification_completed");
    buffer.Member("result", OutcomeName(e.outcome));
    buffer.Member("reason", ReasonName(e));
    buffer.IntegerMember("duration_ms", e.duration);
    if !hashed {
      buffer.Member("requested_user", e.user);
    } else {
      buffer.Member("requested_user_sha256", LowerHex(H(Octets(e.user))));
    }
    assert buffer.fields == Head(H, e, hashed);
  }

  lemma TailInOrder(head: seq<Field>, e: Event)
    ensures head + Optional("issuer_policy", e.policy) + Optional("identity_ref_sha256", e.identity)
            + Optional("acquisition_profile", e.acquisition) + Optional("binding_profile", e.binding)
            + Optional("evidence_profile", e.evidence) + Optional("caller_algorithm", e.algorithm) == head + Tail(e)
  {
    hide Optional;
  }

  method SerializeEvent(H: Sha256, e: Event) returns (r: Result<Serialized>)
    ensures r == Serialize(H, e)
  {
    hide Payload;
    var safe := Utf8.WithoutControls(Octets(e.user), Utf8.MAXIMUM_NAME_BYTES);
    r := WritePayload(H, e, !safe);
    if r.Failure? && safe {
      r := WritePayload(H, e, true);
    }
  }

  /** The name of an account the configuration knows is logged as it stands. */
  lemma ConfiguredUserIsClear(H: Sha256, e: Event, c: Configurations.Configuration)
    requires Configurations.Sound(c) && e.user in c.accounts
    requires e.duration < UINT32_LIMIT && Serialize(H, e).Success?
    ensures Serialize(H, e).value.payload == Text(H, e, false)
    ensures Field("requested_user", Quote(e.user)) in Head(H, e, false)
  {
    hide Text, WellFormed, Payload;
    Utf8.ValidNameIsName(Octets(e.user));
    SerializeNeedsOneAttempt(H, e);
    PayloadIsText(H, e, false);
    assert Head(H, e, false)[5] == Field("requested_user", Quote(e.user));
  }

  lemma PayloadIsText(H: Sha256, e: Event, hashed: bool)
    ensures Payload(H, e, hashed).Success? ==> Payload(H, e, hashed).value.payload == Text(H, e, hashed)
  {
    hide Text, WellFormed;
  }
}
