/** Reading an audit event back: a reader for the JSON objects of section 4 of RFC 8259 whose values are texts and
    natural numbers, and what it finds in the events of `Audit`. */
module AuditReading {
  import opened Bytes
  import opened Decimals
  import opened Errors
  import opened GqEvidence
  import opened Policies
  import Audit
  import Durations

  datatype Datum = Number(value: nat) | Text(text: string)

  datatype Entry = Entry(name: string, datum: Datum)

  // ---- the reader

  function HexValue(c: char): Option<nat> {
    if '0' <= c <= '9' then Some(c as int - 48)
    else if 'a' <= c <= 'f' then Some(c as int - 87)
    else if 'A' <= c <= 'F' then Some(c as int - 55)
    else None
  }

  function ReadHex(text: string): Option<nat> {
    if text == "" then Some(0)
    else
      var front, last := ReadHex(text[..|text| - 1]), HexValue(text[|text| - 1]);
      if front.None? || last.None? then None else Some(16 * front.value + last.value)
  }

  /** One character of a string, and the text behind it: section 7 of RFC 8259. */
  function ReadChar(text: string): (r: Option<(char, string)>)
    ensures r.Some? ==> |r.value.1| < |text|
  {
    if text == "" || text[0] == '"' || text[0] < ' ' then None
    else if text[0] != '\\' then Some((text[0], text[1..]))
    else if |text| < 2 then None
    else if text[1] == '"' || text[1] == '\\' || text[1] == '/' then Some((text[1], text[2..]))
    else if text[1] == 'b' then Some((8 as char, text[2..]))
    else if text[1] == 't' then Some((9 as char, text[2..]))
    else if text[1] == 'n' then Some((10 as char, text[2..]))
    else if text[1] == 'f' then Some((12 as char, text[2..]))
    else if text[1] == 'r' then Some((13 as char, text[2..]))
    else if text[1] != 'u' || |text| < 6 then None
    else
      var code := ReadHex(text[2..6]);
      if code.None? || code.value >= 0xD800 then None else Some((code.value as char, text[6..]))
  }

  /** A string from behind its opening quote on. */
  function ReadString(text: string): (r: Option<(string, string)>)
    ensures r.Some? ==> |r.value.1| < |text|
    decreases |text|
  {
    if text == "" then None
    else if text[0] == '"' then Some(("", text[1..]))
    else
      var first := ReadChar(text);
      if first.None? then None
      else
        var rest := ReadString(first.value.1);
        if rest.None? then None else Some(([first.value.0] + rest.value.0, rest.value.1))
  }

  function ReadDatum(text: string): (r: Option<(Datum, string)>)
    ensures r.Some? ==> |r.value.1| < |text|
  {
    if text == "" then None
    else if text[0] == '"' then
      var quoted := ReadString(text[1..]);
      if quoted.None? then None else Some((Text(quoted.value.0), quoted.value.1))
    else
      var k := Durations.DigitCount(text);
      if Canonical(text[..k]) then Some((Number(Value(text[..k])), text[k..])) else None
  }

  function ReadEntry(text: string): (r: Option<(Entry, string)>)
    ensures r.Some? ==> |r.value.1| < |text|
  {
    if text == "" || text[0] != '"' then None
    else
      var name := ReadString(text[1..]);
      if name.None? || name.value.1 == "" || name.value.1[0] != ':' then None
      else
        var datum := ReadDatum(name.value.1[1..]);
        if datum.None? then None else Some((Entry(name.value.0, datum.value.0), datum.value.1))
  }

  function ReadEntries(text: string): Option<seq<Entry>>
    decreases |text|
  {
    var first := ReadEntry(text);
    if first.None? || first.value.1 == "" then None
    else if first.value.1 == "}" then Some([first.value.0])
    else if first.value.1[0] != ',' then None
    else
      var rest := ReadEntries(first.value.1[1..]);
      if rest.None? then None else Some([first.value.0] + rest.value)
  }

  function ReadObject(text: string): Option<seq<Entry>> {
    if text == "" || text[0] != '{' then None else ReadEntries(text[1..])
  }

  // ---- strings

  lemma HexDigitsRead(n: nat)
    requires n < 32
    ensures ReadHex(['0', '0', Audit.HexDigit(n / 16), Audit.HexDigit(n % 16)]) == Some(n)
  {
    var a, b := Audit.HexDigit(n / 16), Audit.HexDigit(n % 16);
    assert ['0', '0', a, b][..3] == ['0', '0', a] && ['0', '0', a][..2] == ['0', '0'];
    assert ['0', '0'][..1] == ['0'] && ['0'][..0] == [];
    assert HexValue(a) == Some(n / 16) && HexValue(b) == Some(n % 16);
    assert ReadHex(['0']) == Some(0) && ReadHex(['0', '0']) == Some(0);
    assert ReadHex(['0', '0', a]) == Some(n / 16);
  }

  lemma CharRead(c: char, rest: string)
    ensures ReadChar(Audit.EscapeChar(c) + rest) == Some((c, rest))
    ensures (Audit.EscapeChar(c) + rest)[0] != '"'
  {
    hide ReadHex, Audit.HexDigit;
    var escaped := Audit.EscapeChar(c);
    var text := escaped + rest;
    assert text[|escaped|..] == rest;
    if |escaped| == 6 {
      HexDigitsRead(c as int);
      assert text[2..6] == ['0', '0', Audit.HexDigit(c as int / 16), Audit.HexDigit(c as int % 16)];
    }
  }

  lemma {:induction false} StringRead(s: string, rest: string)
    ensures ReadString(Audit.Escape(s) + ['"'] + rest) == Some((s, rest))
  {
    hide Audit.EscapeChar, ReadChar;
    if s == "" {
      assert Audit.Escape(s) + ['"'] + rest == ['"'] + rest;
    } else {
      var behind := Audit.Escape(s[1..]) + ['"'] + rest;
      assert Audit.Escape(s) + ['"'] + rest == Audit.EscapeChar(s[0]) + behind;
      CharRead(s[0], behind);
      StringRead(s[1..], rest);
      assert s == [s[0]] + s[1..];
    }
  }

  // ---- values

  /** The text of a value. */
  function Written(d: Datum): (s: string)
    ensures s != ""
  {
    match d
    case Number(n) => Decimal(n)
    case Text(s) => Audit.Quote(s)
  }

  lemma DatumRead(d: Datum, rest: string)
    requires rest != "" && !Digit(rest[0])
    ensures ReadDatum(Written(d) + rest) == Some((d, rest))
  {
    hide ReadString, Audit.Escape, Decimal, Value;
    match d
    case Number(n) =>
      var digits := Decimal(n);
      var text := digits + rest;
      ValueOfDecimal(n);
      Durations.DigitCountOf(digits, rest);
      assert text[..|digits|] == digits && text[|digits|..] == rest;
      assert text[0] == digits[0] && Digit(digits[0]);
    case Text(s) =>
      StringRead(s, rest);
      var text := Audit.Quote(s) + rest;
      assert text == ['"'] + (Audit.Escape(s) + ['"'] + rest);
      assert text[1..] == Audit.Escape(s) + ['"'] + rest;
  }

  lemma EntryRead(name: string, d: Datum, rest: string)
    requires rest != "" && !Digit(rest[0])
    ensures ReadEntry(Audit.Quote(name) + ":" + Written(d) + rest) == Some((Entry(name, d), rest))
  {
    hide ReadString, Audit.Escape, ReadDatum, Written;
    var behind := [':'] + (Written(d) + rest);
    var text := Audit.Quote(name) + ":" + Written(d) + rest;
    assert text == ['"'] + (Audit.Escape(name) + ['"'] + behind);
    assert text[1..] == Audit.Escape(name) + ['"'] + behind;
    StringRead(name, behind);
    assert behind[1..] == Written(d) + rest;
    DatumRead(d, rest);
  }

  // ---- objects

  /** Members with these names and values. */
  function FieldsOf(entries: seq<Entry>): (f: seq<Audit.Field>)
    ensures |f| == |entries|
  {
    seq(|entries|, i requires 0 <= i < |entries| => Audit.Field(entries[i].name, Written(entries[i].datum)))
  }

  lemma {:induction false} FieldsFirst(first: Audit.Field, rest: seq<Audit.Field>)
    ensures Audit.Fields([first] + rest)
            == Audit.Quote(first.name) + ":" + first.text + if rest == [] then "" else "," + Audit.Fields(rest)
  {
    hide Audit.Quote, Audit.Fields;
    var fields := [first] + rest;
    NoFields();
    if rest == [] {
      LastField([], first);
      assert fields == [] + [first];
    } else {
      var front, last := rest[..|rest| - 1], rest[|rest| - 1];
      FieldsFirst(first, front);
      LastField([first] + front, last);
      LastField(front, last);
      assert fields == ([first] + front) + [last] && rest == front + [last];
      var head := Audit.Quote(first.name) + ":" + first.text;
      var tail := Audit.Quote(last.name) + ":" + last.text;
      if front == [] {
        assert (head + "") + "," + tail == head + ("," + ("" + "" + tail));
      } else {
        assert (head + ("," + Audit.Fields(front))) + "," + tail == head + ("," + (Audit.Fields(front) + "," + tail));
      }
    }
  }

  lemma NoFields()
    ensures Audit.Fields([]) == ""
  {
  }

  lemma LastField(front: seq<Audit.Field>, last: Audit.Field)
    ensures Audit.Fields(front + [last])
            == Audit.Fields(front) + (if front == [] then "" else ",") + (Audit.Quote(last.name) + ":" + last.text)
  {
    hide Audit.Quote;
    assert (front + [last])[..|front|] == front;
    var before := Audit.Fields(front) + if front == [] then "" else ",";
    assert ((before + Audit.Quote(last.name)) + ":") + last.text == before + (Audit.Quote(last.name) + ":" + last.text);
  }

  lemma {:induction false} EntriesRead(entries: seq<Entry>)
    requires entries != []
    ensures ReadEntries(Audit.Fields(FieldsOf(entries)) + "}") == Some(entries)
  {
    hide ReadEntry, Audit.Quote, Written, Audit.Fields;
    var first, rest := entries[0], entries[1..];
    var fields := FieldsOf(entries);
    assert fields == [fields[0]] + FieldsOf(rest);
    FieldsFirst(fields[0], FieldsOf(rest));
    var behind := (if rest == [] then "" else "," + Audit.Fields(FieldsOf(rest))) + "}";
    assert Audit.Fields(fields) + "}" == Audit.Quote(first.name) + ":" + Written(first.datum) + behind;
    EntryRead(first.name, first.datum, behind);
    if rest == [] {
      assert behind == "}" && entries == [first];
    } else {
      EntriesRead(rest);
      assert behind[0] == ',' && behind[1..] == Audit.Fields(FieldsOf(rest)) + "}" && |behind| > 1;
      assert entries == [first] + rest;
    }
  }

  // ---- events

  /** The error a name stands for. */
  function KindOf(name: string): Option<Kind> {
    match name
    case "malformed_input" => Some(MalformedInput)
    case "resource_limit" => Some(ResourceLimit)
    case "unsupported_version" => Some(UnsupportedVersion)
    case "unsupported_profile" => Some(UnsupportedProfile)
    case "unsupported_algorithm" => Some(UnsupportedAlgorithm)
    case "caller_key_invalid" => Some(CallerKeyInvalid)
    case "issuer_untrusted" => Some(IssuerUntrusted)
    case "issuer_signature_invalid" => Some(IssuerSignatureInvalid)
    case "evidence_invalid" => Some(EvidenceInvalid)
    case "evidence_result_mismatch" => Some(EvidenceResultMismatch)
    case "binding_invalid" => Some(BindingInvalid)
    case "issuer_claims_invalid" => Some(IssuerClaimsInvalid)
    case "credential_not_yet_valid" => Some(CredentialNotYetValid)
    case "credential_expired" => Some(CredentialExpired)
    case "caller_signature_invalid" => Some(CallerSignatureInvalid)
    case "ssh_certificate_invalid" => Some(SshCertificateInvalid)
    case "ssh_key_mismatch" => Some(SshKeyMismatch)
    case "ssh_identity_not_yet_valid" => Some(SshIdentityNotYetValid)
    case "ssh_identity_expired" => Some(SshIdentityExpired)
    case "ssh_principal_invalid" => Some(SshPrincipalInvalid)
    case "account_unauthorized" => Some(AccountUnauthorized)
    case "deadline_exceeded" => Some(DeadlineExceeded)
    case "operation_cancelled" => Some(OperationCancelled)
    case "state_invalid" => Some(StateInvalid)
    case "internal_error" => Some(InternalError)
    case _ => None
  }

  lemma ReasonRead(k: Kind)
    ensures KindOf(Audit.ErrorName(k)) == Some(k)
  {
  }

  function OptionalEntry(name: string, value: string): seq<Entry> {
    if value == "" then [] else [Entry(name, Text(value))]
  }

  function ResultText(o: Audit.Outcome): string {
    match o
    case Allow => "allow"
    case Deny => "deny"
    case Faulty => "error"
  }

  /** What every log line says. */
  function HeadEntries(H: Sha256, e: Audit.Event): seq<Entry> {
    [Entry("event_version", Number(1)), Entry("event", Text("verification_completed")),
     Entry("result", Text(ResultText(e.outcome))),
     Entry("reason", Text(if e.reason.None? then "none" else Audit.ErrorName(e.reason.value))),
     Entry("duration_ms", Number(e.duration)), UserEntry(H, e.user)]
  }

  /** What a log line says about a credential. */
  function TailEntries(e: Audit.Event): seq<Entry> {
    OptionalEntry("issuer_policy", e.policy) + OptionalEntry("identity_ref_sha256", e.identity)
    + OptionalEntry("acquisition_profile", e.acquisition) + OptionalEntry("binding_profile", e.binding)
    + OptionalEntry("evidence_profile", e.evidence) + OptionalEntry("caller_algorithm", e.algorithm)
  }

  /** A name of printable UTF-8 as it stands, and the digest of any other. */
  function UserEntry(H: Sha256, user: string): Entry {
    if Audit.SafeUser(user) then Entry("requested_user", Text(user))
    else Entry("requested_user_sha256", Text(Audit.LowerHex(H(Octets(user)))))
  }

  lemma OptionalRead(name: string, value: string)
    ensures FieldsOf(OptionalEntry(name, value)) == Audit.Optional(name, value)
  {
    hide Audit.Quote;
  }

  lemma FieldsOfBoth(a: seq<Entry>, b: seq<Entry>)
    ensures FieldsOf(a + b) == FieldsOf(a) + FieldsOf(b)
  {
    hide Written;
  }

  lemma HeadRead(H: Sha256, e: Audit.Event)
    ensures FieldsOf(HeadEntries(H, e)) == Audit.Head(H, e, !Audit.SafeUser(e.user))
  {
    hide Audit.Quote, Audit.LowerHex, Decimal, Audit.ErrorName, Audit.SafeUser;
  }

  lemma TailRead(e: Audit.Event)
    ensures FieldsOf(TailEntries(e)) == Audit.Tail(e)
  {
    hide OptionalEntry, FieldsOf, Audit.Optional;
    var a, b := OptionalEntry("issuer_policy", e.policy), OptionalEntry("identity_ref_sha256", e.identity);
    var c, d := OptionalEntry("acquisition_profile", e.acquisition), OptionalEntry("binding_profile", e.binding);
    var f, g := OptionalEntry("evidence_profile", e.evidence), OptionalEntry("caller_algorithm", e.algorithm);
    OptionalRead("issuer_policy", e.policy);
    OptionalRead("identity_ref_sha256", e.identity);
    OptionalRead("acquisition_profile", e.acquisition);
    OptionalRead("binding_profile", e.binding);
    OptionalRead("evidence_profile", e.evidence);
    OptionalRead("caller_algorithm", e.algorithm);
    FieldsOfBoth(a, b);
    FieldsOfBoth(a + b, c);
    FieldsOfBoth(a + b + c, d);
    FieldsOfBoth(a + b + c + d, f);
    FieldsOfBoth(a + b + c + d + f, g);
  }

  /** Whatever is logged reads back as the event: its version, result, reason, duration and user, and the members about
      the credential that are not empty. */
  lemma EventRead(H: Sha256, e: Audit.Event)
    requires e.duration < UINT32_LIMIT && Audit.Serialize(H, e).Success?
    ensures ReadObject(Audit.Serialize(H, e).value.payload) == Some(HeadEntries(H, e) + TailEntries(e))
  {
    hide Audit.Serialize, Audit.Head, Audit.Tail, Audit.Fields, HeadEntries, TailEntries, FieldsOf, ReadEntries,
         Audit.WellFormed, Audit.SafeUser;
    var hashed := !Audit.SafeUser(e.user);
    Audit.SerializeNeedsOneAttempt(H, e);
    var entries := HeadEntries(H, e) + TailEntries(e);
    HeadRead(H, e);
    TailRead(e);
    FieldsOfBoth(HeadEntries(H, e), TailEntries(e));
    var text := Audit.Text(H, e, hashed);
    assert text == "{" + (Audit.Fields(FieldsOf(entries)) + "}");
    assert text[1..] == Audit.Fields(FieldsOf(entries)) + "}";
    HeadIsThere(H, e);
    EntriesRead(entries);
  }

  lemma HeadIsThere(H: Sha256, e: Audit.Event)
    ensures |HeadEntries(H, e)| == 6
  {
  }

  // ---- what a log line determines

  ghost predicate Without(entries: seq<Entry>, name: string) {
    forall x :: x in entries ==> x.name != name
  }

  lemma OptionalsAgree(name: string, a: string, b: string, x: seq<Entry>, y: seq<Entry>)
    requires OptionalEntry(name, a) + x == OptionalEntry(name, b) + y
    requires Without(x, name) && Without(y, name)
    ensures a == b && x == y
  {
    var whole := OptionalEntry(name, a) + x;
    OptionalIsThere(name, a, x);
    OptionalIsThere(name, b, y);
    if a == "" {
      assert whole == x && whole == y;
    } else {
      assert whole[0] == Entry(name, Text(a)) && whole[0] == Entry(name, Text(b));
      assert whole[1..] == x && whole[1..] == y;
    }
  }

  lemma OptionalIsThere(name: string, value: string, x: seq<Entry>)
    requires Without(x, name)
    ensures Without(OptionalEntry(name, value) + x, name) <==> value == ""
  {
    var whole := OptionalEntry(name, value) + x;
    if value == "" {
      assert whole == x;
    } else {
      assert whole[0].name == name && whole[0] in whole;
    }
  }

  /** Two events with one log line are the same event, unless its user was replaced by a digest. */
  lemma LineDeterminesEvent(H: Sha256, a: Audit.Event, b: Audit.Event)
    requires a.duration < UINT32_LIMIT && b.duration < UINT32_LIMIT
    requires Audit.Serialize(H, a).Success? && Audit.Serialize(H, b).Success?
    requires Audit.Serialize(H, a).value.payload == Audit.Serialize(H, b).value.payload
    ensures a == b.(user := a.user) && UserEntry(H, a.user) == UserEntry(H, b.user)
    ensures Audit.SafeUser(a.user) ==> a == b
  {
    hide Audit.Serialize, HeadEntries, TailEntries, Audit.SafeUser;
    EventRead(H, a);
    EventRead(H, b);
    HeadIsThere(H, a);
    HeadIsThere(H, b);
    var x, y := HeadEntries(H, a) + TailEntries(a), HeadEntries(H, b) + TailEntries(b);
    assert x[..6] == HeadEntries(H, a) && y[..6] == HeadEntries(H, b);
    assert x[6..] == TailEntries(a) && y[6..] == TailEntries(b);
    HeadsAgree(H, a, b);
    TailsAgree(a, b);
    UsersAgree(H, a.user, b.user);
  }

  lemma HeadsAgree(H: Sha256, a: Audit.Event, b: Audit.Event)
    requires HeadEntries(H, a) == HeadEntries(H, b)
    ensures a.outcome == b.outcome && a.reason == b.reason && a.duration == b.duration
    ensures UserEntry(H, a.user) == UserEntry(H, b.user)
  {
    hide UserEntry, KindOf, Audit.ErrorName;
    var x, y := HeadEntries(H, a), HeadEntries(H, b);
    assert x[2] == y[2] && x[3] == y[3] && x[4] == y[4] && x[5] == y[5];
    OutcomesDiffer(a.outcome, b.outcome);
    NoneIsNoReason();
    if a.reason.Some? {
      ReasonRead(a.reason.value);
    }
    if b.reason.Some? {
      ReasonRead(b.reason.value);
    }
  }

  lemma NoneIsNoReason()
    ensures KindOf("none") == None
  {
  }

  lemma OutcomesDiffer(a: Audit.Outcome, b: Audit.Outcome)
    requires ResultText(a) == ResultText(b)
    ensures a == b
  {
  }

  lemma UsersAgree(H: Sha256, a: string, b: string)
    requires UserEntry(H, a) == UserEntry(H, b)
    ensures Audit.SafeUser(a) ==> a == b
  {
    hide Audit.SafeUser;
    assert |"requested_user"| == 14 && |"requested_user_sha256"| == 21;
  }

  lemma TailsAgree(a: Audit.Event, b: Audit.Event)
    requires TailEntries(a) == TailEntries(b)
    ensures a.policy == b.policy && a.identity == b.identity && a.acquisition == b.acquisition
    ensures a.binding == b.binding && a.evidence == b.evidence && a.algorithm == b.algorithm
  {
    hide OptionalEntry;
    TailApart(a);
    TailApart(b);
    OptionalsAgree("issuer_policy", a.policy, b.policy, AfterPolicy(a), AfterPolicy(b));
    OptionalsAgree("identity_ref_sha256", a.identity, b.identity, AfterIdentity(a), AfterIdentity(b));
    OptionalsAgree("acquisition_profile", a.acquisition, b.acquisition, AfterAcquisition(a), AfterAcquisition(b));
    OptionalsAgree("binding_profile", a.binding, b.binding, AfterBinding(a), AfterBinding(b));
    OptionalsAgree("evidence_profile", a.evidence, b.evidence, AfterEvidence(a), AfterEvidence(b));
    assert AfterEvidence(a) + [] == AfterEvidence(a) && AfterEvidence(b) + [] == AfterEvidence(b);
    OptionalsAgree("caller_algorithm", a.algorithm, b.algorithm, [], []);
  }

  function AfterEvidence(e: Audit.Event): seq<Entry> {
    OptionalEntry("caller_algorithm", e.algorithm)
  }

  function AfterBinding(e: Audit.Event): seq<Entry> {
    OptionalEntry("evidence_profile", e.evidence) + AfterEvidence(e)
  }

  function AfterAcquisition(e: Audit.Event): seq<Entry> {
    OptionalEntry("binding_profile", e.binding) + AfterBinding(e)
  }

  function AfterIdentity(e: Audit.Event): seq<Entry> {
    OptionalEntry("acquisition_profile", e.acquisition) + AfterAcquisition(e)
  }

  function AfterPolicy(e: Audit.Event): seq<Entry> {
    OptionalEntry("identity_ref_sha256", e.identity) + AfterIdentity(e)
  }

  lemma TailApart(e: Audit.Event)
    ensures TailEntries(e) == OptionalEntry("issuer_policy", e.policy) + AfterPolicy(e)
    ensures Without(AfterPolicy(e), "issuer_policy") && Without(AfterIdentity(e), "identity_ref_sha256")
    ensures Without(AfterAcquisition(e), "acquisition_profile") && Without(AfterBinding(e), "binding_profile")
    ensures Without(AfterEvidence(e), "evidence_profile")
  {
    hide OptionalEntry, Without;
    NamesDiffer();
    OptionalIsWithout(e, "evidence_profile");
    OptionalIsWithout(e, "binding_profile");
    OptionalIsWithout(e, "acquisition_profile");
    OptionalIsWithout(e, "identity_ref_sha256");
    OptionalIsWithout(e, "issuer_policy");
  }

  /** An optional member has no name but its own. */
  lemma OptionalIsWithout(e: Audit.Event, name: string)
    ensures name != "caller_algorithm" ==> Without(AfterEvidence(e), name)
    ensures name !in ["evidence_profile", "caller_algorithm"] ==> Without(AfterBinding(e), name)
    ensures name !in ["binding_profile", "evidence_profile", "caller_algorithm"] ==> Without(AfterAcquisition(e), name)
    ensures name !in ["acquisition_profile", "binding_profile", "evidence_profile", "caller_algorithm"] ==>
              Without(AfterIdentity(e), name)
    ensures name !in ["identity_ref_sha256", "acquisition_profile", "binding_profile", "evidence_profile",
                      "caller_algorithm"]
            ==> Without(AfterPolicy(e), name)
  {
  }

  lemma NamesDiffer()
    ensures "issuer_policy" !in ["identity_ref_sha256", "acquisition_profile", "binding_profile", "evidence_profile",
                                 "caller_algorithm"]
    ensures "identity_ref_sha256" !in ["acquisition_profile", "binding_profile", "evidence_profile",
                                       "caller_algorithm"]
    ensures "acquisition_profile" !in ["binding_profile", "evidence_profile", "caller_algorithm"]
    ensures "binding_profile" !in ["evidence_profile", "caller_algorithm"]
    ensures "evidence_profile" !in ["caller_algorithm"]
  {
  }
}
