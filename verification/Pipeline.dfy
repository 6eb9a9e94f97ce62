/** One run of the `verify` command: `run_verify` of `src/command.cpp` over every clock and cancellation trace. */
module Pipeline {
  import opened Bytes
  import opened Configurations
  import opened Errors
  import opened GqEvidence
  import opened JsonTrees
  import opened Policies
  import Audit
  import Base64
  import Carriers
  import CertificateFormat
  import Issuers
  import Preimages
  import TimeWindow

  const MAXIMUM_VERIFICATION: nat := 10_000_000_000
  const MILLISECOND: nat := 1_000_000

  // ---- deadline and cancellation

  /** One look at the clock, and at the cancellation flag if it came to that. */
  datatype Sample = Sample(started: nat, now: nat, budget: nat, cancelled: Option<bool>)

  predicate InTime(s: Sample) {
    s.started <= s.now && s.now - s.started < s.budget
  }

  /** `interrupted`: the reason to stop, if there is one. */
  function Judge(s: Sample): Option<Kind> {
    if s.now < s.started then Some(InternalError)
    else if s.now - s.started >= s.budget then Some(DeadlineExceeded)
    else if s.cancelled == Some(true) then Some(OperationCancelled)
    else None
  }

  // ---- the audit event

  function AlgorithmName(a: CertificateFormat.Algorithm): string {
    if a.Es256? then Audit.ES256_NAME else Audit.ED25519_NAME
  }

  /** The acquisition profile a binding implies, when only one is configured for it. */
  function AcquisitionProfile(acquisitions: set<string>, binding: string): string {
    if binding == AUDIENCE_BINDING || binding == CLAIM_BINDING then
      if WORKLOAD_ACQUISITION in acquisitions then WORKLOAD_ACQUISITION else ""
    else if binding != NONCE_BINDING then ""
    else if NATIVE_ACQUISITION in acquisitions && WEB_ACQUISITION in acquisitions then ""
    else if NATIVE_ACQUISITION in acquisitions then NATIVE_ACQUISITION
    else if WEB_ACQUISITION in acquisitions then WEB_ACQUISITION
    else ""
  }

  /** The loop over the two interactive profiles. */
  method SelectAcquisition(acquisitions: set<string>, binding: string) returns (r: string)
    ensures r == AcquisitionProfile(acquisitions, binding)
  {
    if binding == AUDIENCE_BINDING || binding == CLAIM_BINDING {
      return if WORKLOAD_ACQUISITION in acquisitions then WORKLOAD_ACQUISITION else "";
    }
    if binding != NONCE_BINDING {
      return "";
    }
    var candidates := [NATIVE_ACQUISITION, WEB_ACQUISITION];
    r := "";
    var index := 0;
    while index < 2
      invariant 0 <= index <= 2
      invariant r == if index == 0 then "" else if index == 1 then
                       (if NATIVE_ACQUISITION in acquisitions then NATIVE_ACQUISITION else "")
                     else AcquisitionProfile(acquisitions, binding)
    {
      if candidates[index] in acquisitions {
        if r != "" {
          return "";
        }
        r := candidates[index];
      }
      index := index + 1;
    }
  }

  function Identity(H: Sha256, auditClaim: string, core: Carriers.CoreResult): string {
    var value := StringMember(core.claims, auditClaim);
    if auditClaim == "" || value.None? || value.value == "" then ""
    else Audit.LowerHex(H(Preimages.Encode(
           Preimages.AuditIdentity(Octets(core.issuer), Octets(auditClaim), Octets(value.value)))))
  }

  /** A policy and a credential that it found authentic. */
  datatype Subject = Subject(policy: IssuerConfiguration, core: Carriers.CoreResult)

  /** What the audit says about an authenticated credential, denied or not. */
  function Authenticated(H: Sha256, e: Audit.Event, s: Subject): Audit.Event {
    e.(policy := s.policy.policyId, acquisition := AcquisitionProfile(s.policy.acquisitions, s.core.binding),
       binding := s.core.binding, evidence := s.core.evidence, algorithm := AlgorithmName(s.core.algorithm),
       identity := Identity(H, s.policy.auditClaim, s.core))
  }

  function Plainly(outcome: Audit.Outcome, reason: Option<Kind>, duration: nat, user: string): Audit.Event {
    Audit.Event(outcome, reason, duration, user, "", "", "", "", "", "")
  }

  /** The duration an event reports, in 32 bits. */
  function Milliseconds(started: nat, ended: nat): (n: nat)
    ensures n < UINT32_LIMIT
  {
    var elapsed := if ended >= started then (ended - started) / MILLISECOND else 0;
    if elapsed < UINT32_LIMIT then elapsed else UINT32_LIMIT - 1
  }

  /** The event of a grant, which has no reason, or of a denial, with the credential it is about. */
  function EventOf(H: Sha256, reason: Option<Kind>, duration: nat, user: string, subject: Option<Subject>)
    : Audit.Event
  {
    var outcome := if reason.None? then Audit.Allow
                   else if reason.value == InternalError then Audit.Faulty
                   else Audit.Deny;
    var e := Plainly(outcome, reason, duration, user);
    if subject.None? then e else Authenticated(H, e, subject.value)
  }

  lemma EventKeeps(H: Sha256, reason: Option<Kind>, duration: nat, user: string, subject: Option<Subject>)
    ensures var e := EventOf(H, reason, duration, user, subject);
            && (e.outcome == Audit.Allow <==> reason.None?) && e.reason == reason
            && e.duration == duration && e.user == user
  {
  }

  /** A credential whose profiles have names the audit knows. */
  predicate Named(core: Carriers.CoreResult) {
    core.binding in Audit.BINDINGS && core.evidence in Audit.EVIDENCES
  }

  lemma VerifiedIsNamed(w: World, token: Bytes, policy: CorePolicy, keys: Keys, now: int)
    ensures var r := Carriers.VerifyToken(w, token, policy, keys, now); r.Success? ==> Named(r.value)
  {
    hide Carriers.OpenToken, Issuers.ParseObject, Issuers.ReadEvidence, Issuers.CheckHeader, Issuers.CheckEvidence,
         Issuers.ValidateClaims, Base64.DecodeBounded, Carriers.CheckCaller, Carriers.Consistent;
  }

  lemma EventIsWellFormed(H: Sha256, e: Audit.Event, s: Subject, skew: int)
    requires Audit.Consistent(e) && SoundIssuer(s.policy, skew) && Named(s.core)
    requires e == Plainly(e.outcome, e.reason, e.duration, e.user)
    ensures Audit.WellFormed(Authenticated(H, e, s)) && Authenticated(H, e, s).policy != ""
  {
    hide Preimages.Encode, AdmitsOwn;
  }

  lemma PlainEventIsWellFormed(e: Audit.Event)
    requires Audit.Consistent(e) && e == Plainly(e.outcome, e.reason, e.duration, e.user)
    ensures Audit.WellFormed(e) && (e.identity != "" ==> e.policy != "")
  {
  }

  lemma EventSerializes(H: Sha256, reason: Option<Kind>, duration: nat, user: string, subject: Option<Subject>,
                        skew: int)
    requires duration < UINT32_LIMIT
    requires subject.Some? ==> SoundIssuer(subject.value.policy, skew) && Named(subject.value.core)
    ensures Audit.Serialize(H, EventOf(H, reason, duration, user, subject)).Success?
  {
    hide SoundIssuer, Named, Authenticated, Audit.WellFormed, Audit.Serialize;
    var plain := EventOf(H, reason, duration, user, None);
    PlainEventIsWellFormed(plain);
    if subject.Some? {
      EventIsWellFormed(H, plain, subject.value, skew);
    }
    EventKeeps(H, reason, duration, user, subject);
    Audit.SerializeNeedsOneAttempt(H, EventOf(H, reason, duration, user, subject));
  }

  // ---- the line

  function Line(r: Carriers.CarrierResult): (s: string)
    ensures s != ""
  {
    "cert-authority,principals=\"" + r.principal + "\" " + Chars(r.caKeyType) + " " + Chars(r.caKey) + "\n"
  }

  /** `validate_size_bound`. */
  predicate WithinBound(size: nat, maximum: nat) {
    maximum != 0 && size <= maximum
  }

  // ---- one policy

  function CertificateLimits(c: Configuration): CertificateFormat.Limits {
    CertificateFormat.Limits(c.limits.maxCertificateBytes, c.limits.maxTokenBytes, 16, 16, 256)
  }

  function Attempt(w: World, c: Configuration, i: IssuerConfiguration, input: Carriers.CarrierInput)
    : Result<Carriers.CarrierResult>
  {
    Carriers.VerifyCarrier(w, input, i.core, i.carrier, c.accounts, i.keys, CertificateLimits(c))
  }

  /** The audit context: the credential, when it is authentic, even if the carrier is refused. */
  function Context(w: World, c: Configuration, i: IssuerConfiguration, input: Carriers.CarrierInput)
    : Option<Carriers.CoreResult>
  {
    var opening := Carriers.OpenCarrier(input, i.carrier, CertificateLimits(c));
    if opening.Failure? then None
    else
      var core := Carriers.VerifyToken(w, opening.value.token, i.core, i.keys, input.now);
      if core.Success? then Some(core.value) else None
  }

  lemma AttemptIsNamed(w: World, c: Configuration, i: IssuerConfiguration, input: Carriers.CarrierInput)
    ensures Context(w, c, i, input).Some? ==> Named(Context(w, c, i, input).value)
    ensures Attempt(w, c, i, input).Success? ==> Context(w, c, i, input) == Some(Attempt(w, c, i, input).value.core)
  {
    hide Carriers.OpenCarrier, Carriers.VerifyToken, Carriers.CheckKey, Carriers.CheckValidity, Carriers.Principal,
         Carriers.AccountAllows, Named, Base64.Encode;
    var opening := Carriers.OpenCarrier(input, i.carrier, CertificateLimits(c));
    if opening.Success? {
      VerifiedIsNamed(w, opening.value.token, i.core, i.keys, input.now);
    }
  }

  /** What the configuration makes of one policy and one carrier, for any time. */
  function RequestOf(c: Configuration, i: IssuerConfiguration, blob: Bytes, keyType: Bytes, user: string)
    : TimeWindow.Request
  {
    TimeWindow.Request(blob, keyType, user, i.core, i.carrier, c.accounts, i.keys, CertificateLimits(c))
  }

  /** Under a sound configuration a carrier that is ever accepted is accepted at exactly the times of its window. */
  lemma ConfiguredWindow(w: World, c: Configuration, k: nat, blob: Bytes, keyType: Bytes, user: string, once: int,
                         now: int)
    requires Sound(c) && k < |c.issuers| && Int64(once) && Int64(now)
    requires Attempt(w, c, c.issuers[k], Carriers.CarrierInput(blob, keyType, user, once)).Success?
    ensures var dates := TimeWindow.DatesOf(w, RequestOf(c, c.issuers[k], blob, keyType, user));
            && dates.Some?
            && (Attempt(w, c, c.issuers[k], Carriers.CarrierInput(blob, keyType, user, now)).Success?
                <==> TimeWindow.Open(dates.value, c.skew, now))
  {
    hide Carriers.VerifyCarrier, TimeWindow.DatesOf, TimeWindow.Open, TimeWindow.Bounded;
    SoundParts(c);
    assert SoundIssuer(c.issuers[k], c.skew);
    SoundSkew(c);
    TimeWindow.AcceptedTimesAreTheWindow(w, RequestOf(c, c.issuers[k], blob, keyType, user), once, now);
  }

  lemma SoundSkew(c: Configuration)
    requires Sound(c)
    ensures c.skew <= INT64_MAXIMUM
  {
    hide SoundIssuer;
  }

  lemma SoundParts(c: Configuration)
    requires Sound(c)
    ensures c.deadline <= MAXIMUM_VERIFICATION
    ensures forall i :: 0 <= i < |c.issuers| ==> SoundIssuer(c.issuers[i], c.skew)
  {
    hide SoundIssuer;
  }

  /** The verification of one policy, as the command sees it: the result, and the audit context beside it. */
  datatype Verifier = Verifier(
    attempt: (Configuration, IssuerConfiguration, Carriers.CarrierInput) -> Result<Carriers.CarrierResult>,
    context: (Configuration, IssuerConfiguration, Carriers.CarrierInput) -> Option<Carriers.CoreResult>)

  /** The context is there whenever the result is, and its profiles have names. */
  ghost predicate NamesCredentials(v: Verifier) {
    forall c, i, input ::
      && (v.context(c, i, input).Some? ==> Named(v.context(c, i, input).value))
      && (v.attempt(c, i, input).Success? ==> v.context(c, i, input) == Some(v.attempt(c, i, input).value.core))
  }

  /** The direct verifier. */
  function Direct(w: World): Verifier {
    Verifier((c, i, input) => Attempt(w, c, i, input), (c, i, input) => Context(w, c, i, input))
  }

  lemma DirectNamesCredentials(w: World)
    ensures NamesCredentials(Direct(w))
  {
    hide Attempt, Context, Named;
    forall c, i, input
      ensures Context(w, c, i, input).Some? ==> Named(Context(w, c, i, input).value)
      ensures Attempt(w, c, i, input).Success? ==> Context(w, c, i, input) == Some(Attempt(w, c, i, input).value.core)
    {
      AttemptIsNamed(w, c, i, input);
    }
  }

  // ---- the request

  predicate ValidArguments(arguments: seq<string>) {
    && |arguments| == 9 && arguments[1] == "--config" && arguments[3] == "--user" && arguments[5] == "--key"
    && arguments[7] == "--key-type"
  }

  /** The certificate of a request, when request and configuration are in order. */
  function Prepare(arguments: seq<string>, configuration: Result<Configuration>): (r: Result<Bytes>)
    ensures r.Success? ==> |arguments| == 9 && configuration.Success?
  {
    var _ :- Need(ValidArguments(arguments), MalformedInput);
    var c :- configuration;
    var _ :- Need(WithinBound(|arguments[6]|, c.limits.maxOfferedKeyChars), ResourceLimit);
    Base64.DecodeOffered(Octets(arguments[6]), c.limits.maxCertificateBytes)
  }

  // ---- the run

  /** What a process can observe: its clocks and cancellation flag as traces of answers, how much its output
      stream takes, and the verifier it calls. */
  datatype Process = Process(sha256: Sha256, verifier: Verifier, monotonic: nat -> nat, cancelled: nat -> bool,
                             wall: nat -> int, accepts: nat)

  /** How a run ends: the reason unless it grants, what it has written, the credential it reports on. */
  datatype Ending = Ending(reason: Option<Kind>, written: string, subject: Option<Subject>)

  datatype Emission = Emission(facility: Facility, event: Audit.Serialized)

  /** What `emit` hands to the logger: one event, if it serializes. */
  function EmissionOf(H: Sha256, facility: Facility, e: Audit.Event): seq<Emission> {
    var serialized := Audit.Serialize(H, e);
    if serialized.Success? then [Emission(facility, serialized.value)] else []
  }

  /** A run of the command. Its looks at the clock are numbered from 0; the clock's first answer is the start. */
  datatype Run = Run(process: Process, arguments: seq<string>, configuration: Result<Configuration>) {

    function Budget(i: nat): nat {
      if i < 2 || configuration.Failure? then MAXIMUM_VERIFICATION else configuration.value.deadline
    }

    /** Look `i`, when nothing stopped the run before it. */
    function Look(i: nat): Sample {
      var started, now := process.monotonic(0), process.monotonic(1 + i);
      var inTime := started <= now && now - started < Budget(i);
      Sample(started, now, Budget(i), if inTime then Some(process.cancelled(i)) else None)
    }

    /** At look `i` the clock has not gone back, the deadline is not reached and nobody has cancelled. */
    predicate Clear(i: nat) {
      && process.monotonic(0) <= process.monotonic(1 + i)
      && process.monotonic(1 + i) - process.monotonic(0) < Budget(i)
      && !process.cancelled(i)
    }

    ghost predicate Undisturbed(n: nat) {
      forall i :: 0 <= i < n ==> Clear(i)
    }

    predicate Ready() {
      Prepare(arguments, configuration).Success?
    }

    function Policies(): nat {
      if configuration.Success? then |configuration.value.issuers| else 0
    }

    /** Policy `k` gets the wall clock's answer `k`. */
    function Input(k: nat): Carriers.CarrierInput
      requires Ready()
    {
      Carriers.CarrierInput(Prepare(arguments, configuration).value, Octets(arguments[8]), arguments[4],
                            process.wall(k))
    }

    function ResultOf(k: nat): Result<Carriers.CarrierResult>
      requires Ready() && k < Policies()
    {
      process.verifier.attempt(configuration.value, configuration.value.issuers[k], Input(k))
    }

    function ContextOf(k: nat): Option<Carriers.CoreResult>
      requires Ready() && k < Policies()
    {
      process.verifier.context(configuration.value, configuration.value.issuers[k], Input(k))
    }

    /** The credential that policy `k` found authentic. */
    function Testimony(k: nat): Option<Subject>
      requires Ready() && k < Policies()
    {
      var policy := configuration.value.issuers[k];
      if ResultOf(k).Success? then Some(Subject(policy, ResultOf(k).value.core))
      else if ContextOf(k).Some? then Some(Subject(policy, ContextOf(k).value))
      else None
    }

    /** The successes among the first `n` policies. */
    function Successes(n: nat): (s: seq<(nat, Carriers.CarrierResult)>)
      requires Ready() && n <= Policies()
      ensures forall x :: x in s ==> x.0 < n && ResultOf(x.0) == Success(x.1)
    {
      if n == 0 then []
      else Successes(n - 1) + if ResultOf(n - 1).Success? then [(n - 1, ResultOf(n - 1).value)] else []
    }

    /** The refused policies among the first `n` that found the credential authentic. */
    function Refusals(n: nat): (s: seq<(nat, Carriers.CoreResult)>)
      requires Ready() && n <= Policies()
      ensures forall x :: x in s ==> x.0 < n && ResultOf(x.0).Failure? && ContextOf(x.0) == Some(x.1)
    {
      if n == 0 then []
      else Refusals(n - 1)
           + if ResultOf(n - 1).Failure? && ContextOf(n - 1).Some? then [(n - 1, ContextOf(n - 1).value)] else []
    }

    /** The error of the first policy from `k` on that fails. */
    function FirstError(k: nat): Kind
      requires Ready() && k <= Policies()
      decreases Policies() - k
    {
      if k == Policies() then IssuerUntrusted
      else if ResultOf(k).Failure? then ResultOf(k).kind
      else FirstError(k + 1)
    }

    /** Policy `k` succeeds and no other does. */
    ghost predicate OnlyOne(k: nat)
      requires Ready()
    {
      && k < Policies() && ResultOf(k).Success?
      && forall j :: 0 <= j < Policies() && j != k ==> ResultOf(j).Failure?
    }

    /** Policy `k` is the only one that succeeds, and its line is within the bound. */
    ghost predicate Grants(k: nat): (r: bool)
      requires Ready()
      ensures r ==> k < Policies() && ResultOf(k).Success?
    {
      OnlyOne(k) && WithinBound(|Line(ResultOf(k).value)|, configuration.value.limits.maxOutputChars)
    }

    /** How the run ends when nothing disturbs it. */
    function Verdict(): Ending {
      if !Ready() then Ending(Some(Prepare(arguments, configuration).kind), "", None)
      else if |Successes(Policies())| == 1 then
        var (k, result) := Successes(Policies())[0];
        Granting(Subject(configuration.value.issuers[k], result.core), Line(result))
      else Ending(Some(if Successes(Policies()) == [] then FirstError(0) else IssuerUntrusted), "", Suspect())
    }

    /** From the selected line on. */
    function Granting(subject: Subject, line: string): Ending
      requires configuration.Success?
    {
      if !WithinBound(|line|, configuration.value.limits.maxOutputChars) then
        Ending(Some(ResourceLimit), "", Some(subject))
      else if process.accepts < |line| then
        Ending(Some(InternalError), line[..process.accepts], Some(subject))
      else Ending(None, line, Some(subject))
    }

    /** When every policy refuses, the audit is about the only credential that is authentic. */
    function Suspect(): Option<Subject>
      requires Ready()
    {
      var refusals := Refusals(Policies());
      if Successes(Policies()) == [] && |refusals| == 1 then
        Some(Subject(configuration.value.issuers[refusals[0].0], refusals[0].1))
      else None
    }

    /** How often an undisturbed run looks at the clock: up to four times before the policies, twice a policy,
        once after them, once more before the size of the line is judged and once before it is written. */
    function Length(): nat {
      if !ValidArguments(arguments) then 1
      else if configuration.Failure? then 2
      else if !Ready() then 3
      else if |Successes(Policies())| != 1 then 5 + 2 * Policies()
      else if WithinBound(|Line(Successes(Policies())[0].1)|, configuration.value.limits.maxOutputChars) then
        7 + 2 * Policies()
      else 6 + 2 * Policies()
    }

    /** The credential at hand at look `i`. */
    function Witness(i: nat): Option<Subject> {
      if !Ready() || i < 5 || i == 4 + 2 * Policies() then None
      else if i < 4 + 2 * Policies() then if i % 2 == 1 then Testimony((i - 5) / 2) else None
      else if |Successes(Policies())| == 1 then Testimony(Successes(Policies())[0].0)
      else None
    }

    /** The first look from `i` on that stops the run. */
    function StopFrom(i: nat): (j: nat)
      requires i <= Length()
      ensures i <= j <= Length()
      ensures j < Length() ==> Judge(Look(j)).Some?
      ensures forall k :: i <= k < j ==> Judge(Look(k)).None?
      decreases Length() - i
    {
      if i == Length() || Judge(Look(i)).Some? then i else StopFrom(i + 1)
    }

    /** How many looks the run takes. */
    function Looks(): nat {
      if StopFrom(0) < Length() then StopFrom(0) + 1 else Length()
    }

    function Outcome(): Ending {
      var i := StopFrom(0);
      if i < Length() then Ending(Judge(Look(i)), "", Witness(i)) else Verdict()
    }

    /** The user is known from the second look on, the configured facility from the third on. */
    function User(looks: nat): string {
      if looks <= 1 || |arguments| != 9 then "" else arguments[4]
    }

    function LogFacility(looks: nat): Facility {
      if looks <= 2 || configuration.Failure? then Authpriv else configuration.value.facility
    }

    function EventAfter(looks: nat, reason: Option<Kind>, subject: Option<Subject>): Audit.Event {
      EventOf(process.sha256, reason, Milliseconds(process.monotonic(0), process.monotonic(1 + looks)), User(looks),
              subject)
    }

    /** The one event of the run. */
    function Event(): Audit.Event {
      EventAfter(Looks(), Outcome().reason, Outcome().subject)
    }

    function Emitted(): seq<Emission> {
      EmissionOf(process.sha256, LogFacility(Looks()), Event())
    }
  }

  // ---- where a run stands

  lemma ClearIsUndisturbed(run: Run, i: nat)
    requires run.Undisturbed(i)
    ensures Judge(run.Look(i)).None? <==> run.Undisturbed(i + 1)
  {
    assert Judge(run.Look(i)).None? <==> run.Clear(i);
  }

  lemma {:induction false} UndisturbedSoFar(run: Run, i: nat)
    requires i <= run.Length() && run.Undisturbed(i)
    ensures run.StopFrom(0) == run.StopFrom(i)
  {
    hide run.Length, run.Look;
    if i > 0 {
      ClearBefore(run, i, i - 1);
      UndisturbedSoFar(run, i - 1);
    }
  }

  lemma ClearBefore(run: Run, n: nat, i: nat)
    requires run.Undisturbed(n) && i < n
    ensures run.Undisturbed(i) && Judge(run.Look(i)).None?
  {
    ClearIsUndisturbed(run, i);
  }

  /** The run is stopped at look `i`. */
  lemma StoppedAt(run: Run, i: nat)
    requires i < run.Length() && run.Undisturbed(i) && Judge(run.Look(i)).Some?
    ensures run.Looks() == i + 1 && run.Outcome() == Ending(Judge(run.Look(i)), "", run.Witness(i))
    ensures run.Emitted()
            == EmissionOf(run.process.sha256, run.LogFacility(i + 1),
                          run.EventAfter(i + 1, Judge(run.Look(i)), run.Witness(i)))
  {
    hide run.Length, run.Look, run.Witness, run.Undisturbed, Judge, EmissionOf, run.EventAfter, run.LogFacility;
    UndisturbedSoFar(run, i);
  }

  /** The run gets to its end. */
  lemma FinishedAt(run: Run)
    requires run.Undisturbed(run.Length())
    ensures run.Looks() == run.Length() && run.Outcome() == run.Verdict()
    ensures run.Emitted()
            == EmissionOf(run.process.sha256, run.LogFacility(run.Length()),
                          run.EventAfter(run.Length(), run.Verdict().reason, run.Verdict().subject))
  {
    hide run.Length, run.Look, run.Verdict, run.Undisturbed, Judge, EmissionOf, run.EventAfter, run.LogFacility;
    UndisturbedSoFar(run, run.Length());
  }

  lemma Unready(run: Run)
    requires !run.Ready()
    ensures run.Verdict() == Ending(Some(Prepare(run.arguments, run.configuration).kind), "", None)
    ensures run.Length() <= 3 && forall i :: run.Witness(i) == None
  {
    hide Prepare, ValidArguments;
  }

  lemma InvalidArguments(run: Run)
    requires !ValidArguments(run.arguments)
    ensures run.Length() == 1 && Prepare(run.arguments, run.configuration) == Failure(MalformedInput)
  {
    hide ValidArguments;
  }

  lemma NoConfiguration(run: Run)
    requires ValidArguments(run.arguments) && run.configuration.Failure?
    ensures run.Length() == 2 && Prepare(run.arguments, run.configuration) == Failure(run.configuration.kind)
  {
    hide ValidArguments;
  }

  lemma WithConfiguration(run: Run)
    requires ValidArguments(run.arguments) && run.configuration.Success?
    ensures |run.arguments| == 9 && run.Length() >= 3 && (!run.Ready() ==> run.Length() == 3)
    ensures var c := run.configuration.value;
            Prepare(run.arguments, run.configuration)
            == if WithinBound(|run.arguments[6]|, c.limits.maxOfferedKeyChars) then
                 Base64.DecodeOffered(Octets(run.arguments[6]), c.limits.maxCertificateBytes)
               else Failure(ResourceLimit)
  {
    hide Base64.DecodeOffered, run.Successes, Line;
  }

  lemma ReadyLength(run: Run)
    requires run.Ready()
    ensures ValidArguments(run.arguments) && run.configuration.Success? && run.Length() >= 5 + 2 * run.Policies()
  {
    hide Base64.DecodeOffered, run.Successes, Line;
  }

  /** A run that is not ready ends at its last look. */
  lemma FinishedUnready(run: Run)
    requires !run.Ready() && run.Undisturbed(run.Length())
    ensures run.Looks() == run.Length()
    ensures run.Outcome() == Ending(Some(Prepare(run.arguments, run.configuration).kind), "", None)
    ensures run.Emitted()
            == EmissionOf(run.process.sha256, run.LogFacility(run.Length()),
                          run.EventAfter(run.Length(), Some(Prepare(run.arguments, run.configuration).kind), None))
  {
    hide Prepare, run.Length, run.Witness, run.Outcome, run.Emitted, EmissionOf, run.EventAfter, run.LogFacility;
    Unready(run);
    FinishedAt(run);
  }

  lemma Start(run: Run)
    ensures run.Undisturbed(0) && run.Length() >= 1 && forall i :: 0 <= i < 5 ==> run.Witness(i) == None
  {
    hide run.Ready, ValidArguments, run.Successes, WithinBound, Line;
  }

  lemma ArgumentsCount(arguments: seq<string>)
    requires ValidArguments(arguments)
    ensures |arguments| == 9
  {
  }

  lemma TwoLooks(run: Run)
    requires ValidArguments(run.arguments)
    ensures run.Length() >= 2
  {
    hide run.Ready, ValidArguments, run.Successes, WithinBound, Line;
  }

  /** What is at hand at the two looks around the attempt at policy `k`. */
  lemma PolicyWitness(run: Run, k: nat)
    requires run.Ready() && k < run.Policies()
    ensures run.Witness(4 + 2 * k) == None && run.Witness(5 + 2 * k) == run.Testimony(k)
  {
    hide run.Ready, run.Testimony, run.Successes;
    assert (5 + 2 * k) % 2 == 1 && (5 + 2 * k - 5) / 2 == k;
  }

  lemma NothingTried(run: Run)
    requires run.Ready()
    ensures run.Successes(0) == [] && run.Refusals(0) == [] && run.FirstError(run.Policies()) == IssuerUntrusted
  {
    hide run.Ready;
  }

  lemma NextPolicy(run: Run, k: nat)
    requires run.Ready() && k < run.Policies()
    ensures var result, context := run.ResultOf(k), run.ContextOf(k);
            && run.Successes(k + 1) == run.Successes(k) + (if result.Success? then [(k, result.value)] else [])
            && run.Refusals(k + 1)
               == run.Refusals(k) + (if result.Failure? && context.Some? then [(k, context.value)] else [])
            && run.FirstError(k) == if result.Failure? then result.kind else run.FirstError(k + 1)
  {
    hide run.Ready, run.ResultOf, run.ContextOf;
  }

  lemma LoopWitness(run: Run)
    requires run.Ready()
    ensures run.Witness(4 + 2 * run.Policies()) == None
  {
    hide run.Ready, run.Testimony, run.Successes;
  }

  lemma UndecidedLength(run: Run)
    requires run.Ready() && |run.Successes(run.Policies())| != 1
    ensures run.Length() == 5 + 2 * run.Policies()
  {
    hide run.Successes, WithinBound, Line, ValidArguments;
    ReadyLength(run);
  }

  lemma GrantLength(run: Run, k: nat, selected: Carriers.CarrierResult)
    requires run.Ready() && run.Successes(run.Policies()) == [(k, selected)]
    ensures run.Length() == if WithinBound(|Line(selected)|, run.configuration.value.limits.maxOutputChars) then
                              7 + 2 * run.Policies()
                            else 6 + 2 * run.Policies()
    ensures k < run.Policies() && run.Testimony(k) == Some(Subject(run.configuration.value.issuers[k], selected.core))
    ensures forall i :: i > 4 + 2 * run.Policies() ==> run.Witness(i) == run.Testimony(k)
  {
    hide WithinBound, Line, ValidArguments;
    ReadyLength(run);
    assert (k, selected) in run.Successes(run.Policies());
  }

  // ---- the process

  /** The process: how many answers its clocks and its cancellation flag have given, its output stream, its
      logger. */
  class Command {
    const process: Process
    var monotonicCalls: nat
    var cancelledCalls: nat
    var wallCalls: nat
    var output: string
    var log: seq<Emission>

    constructor (process: Process)
      ensures this.process == process
      ensures monotonicCalls == 0 && cancelledCalls == 0 && wallCalls == 0 && output == "" && log == []
    {
      this.process := process;
      monotonicCalls, cancelledCalls, wallCalls, output, log := 0, 0, 0, "", [];
    }

    method MonotonicNanoseconds() returns (now: nat)
      modifies this`monotonicCalls
      ensures now == process.monotonic(old(monotonicCalls)) && monotonicCalls == old(monotonicCalls) + 1
    {
      now := process.monotonic(monotonicCalls);
      monotonicCalls := monotonicCalls + 1;
    }

    /** The run is about to take look `i`. */
    ghost predicate Before(run: Run, i: nat)
      reads this
    {
      run.process == process && monotonicCalls == 1 + i && cancelledCalls == i && run.Undisturbed(i)
    }

    /** `interrupted`. */
    method Interrupted(ghost run: Run, ghost i: nat, started: nat, budget: nat) returns (reason: Option<Kind>)
      requires Before(run, i) && started == process.monotonic(0) && budget == run.Budget(i)
      modifies this`monotonicCalls, this`cancelledCalls
      ensures reason == Judge(run.Look(i)) && monotonicCalls == i + 2
      ensures cancelledCalls == if InTime(run.Look(i)) then i + 1 else i
      ensures reason.None? ==> Before(run, i + 1)
    {
      hide run.Undisturbed;
      ClearIsUndisturbed(run, i);
      var now := MonotonicNanoseconds();
      if now < started {
        return Some(InternalError);
      }
      if now - started >= budget {
        return Some(DeadlineExceeded);
      }
      var flag := process.cancelled(cancelledCalls);
      cancelledCalls := cancelledCalls + 1;
      reason := if flag then Some(OperationCancelled) else None;
    }

    method Duration(started: nat) returns (milliseconds: nat)
      modifies this`monotonicCalls
      ensures milliseconds == Milliseconds(started, process.monotonic(old(monotonicCalls)))
      ensures monotonicCalls == old(monotonicCalls) + 1
    {
      var ended := MonotonicNanoseconds();
      milliseconds := Milliseconds(started, ended);
    }

    /** `emit`: the logger is called when the event serializes. */
    method Emit(facility: Facility, e: Audit.Event)
      modifies this`log
      ensures log == old(log) + EmissionOf(process.sha256, facility, e)
    {
      hide Audit.Serialize;
      var serialized := Audit.SerializeEvent(process.sha256, e);
      if serialized.Success? {
        log := log + [Emission(facility, serialized.value)];
      }
    }

    /** `deny_verify`: one event, no output. */
    method Deny(user: string, reason: Kind, facility: Facility, started: nat, subject: Option<Subject>)
      returns (exit: int)
      modifies this`monotonicCalls, this`log
      ensures exit == 0 && monotonicCalls == old(monotonicCalls) + 1
      ensures var duration := Milliseconds(started, process.monotonic(old(monotonicCalls)));
              var e := EventOf(process.sha256, Some(reason), duration, user, subject);
              log == old(log) + EmissionOf(process.sha256, facility, e)
    {
      hide Authenticated, EmissionOf;
      var milliseconds := Duration(started);
      var e := Plainly(if reason == InternalError then Audit.Faulty else Audit.Deny, Some(reason), milliseconds, user);
      if subject.Some? {
        e := Authenticated(process.sha256, e, subject.value);
      }
      Emit(facility, e);
      exit := 0;
    }

    /** The run has ended: its output and its event are out, after its looks and the two other clock readings. */
    twostate predicate Ended(run: Run)
      reads this
    {
      && output == old(output) + run.Outcome().written && log == old(log) + run.Emitted()
      && monotonicCalls == run.Looks() + 2
    }

    /** `run_verify`: exit status 0, and on every trace the output and the event of the run. */
    method RunVerify(arguments: seq<string>, configuration: Result<Configuration>) returns (exit: int)
      requires monotonicCalls == 0 && cancelledCalls == 0 && wallCalls == 0
      modifies this
      ensures exit == 0 && Ended(Run(process, arguments, configuration))
    {
      ghost var run := Run(process, arguments, configuration);
      hide ValidArguments, Prepare, run.Undisturbed, run.Length, run.Look, run.Witness, run.Verdict, run.Outcome,
           run.Emitted, Judge, EmissionOf, EventOf;
      Start(run);
      var started := MonotonicNanoseconds();
      var stop := Interrupted(run, 0, started, MAXIMUM_VERIFICATION);
      if stop.Some? {
        StoppedAt(run, 0);
        exit := Deny("", stop.value, Authpriv, started, None);
        return;
      }
      if !ValidArguments(arguments) {
        InvalidArguments(run);
        FinishedUnready(run);
        exit := Deny("", MalformedInput, Authpriv, started, None);
        return;
      }
      ArgumentsCount(arguments);
      var user := arguments[4];
      TwoLooks(run);
      stop := Interrupted(run, 1, started, MAXIMUM_VERIFICATION);
      if stop.Some? {
        StoppedAt(run, 1);
        exit := Deny(user, stop.value, Authpriv, started, None);
        return;
      }
      if configuration.Failure? {
        NoConfiguration(run);
        FinishedUnready(run);
        exit := Deny(user, configuration.kind, Authpriv, started, None);
        return;
      }
      exit := VerifyRequest(run, arguments, configuration.value, started);
    }

    /** From the configured budget to the decoded key, lines 307 to 322. */
    method VerifyRequest(ghost run: Run, arguments: seq<string>, c: Configuration, started: nat) returns (exit: int)
      requires run == Run(process, arguments, Success(c)) && ValidArguments(arguments)
      requires Before(run, 2) && wallCalls == 0 && started == process.monotonic(0)
      modifies this
      ensures exit == 0 && Ended(run)
    {
      hide ValidArguments, Prepare, run.Undisturbed, run.Length, run.Look, run.Witness, run.Verdict, run.Outcome,
           run.Emitted, Judge, EmissionOf, EventOf, Base64.DecodeOffered, WithinBound;
      ArgumentsCount(arguments);
      WithConfiguration(run);
      Start(run);
      var user := arguments[4];
      var budget := c.deadline;
      var stop := Interrupted(run, 2, started, budget);
      if stop.Some? {
        StoppedAt(run, 2);
        exit := Deny(user, stop.value, c.facility, started, None);
        return;
      }
      if !WithinBound(|arguments[6]|, c.limits.maxOfferedKeyChars) {
        FinishedUnready(run);
        exit := Deny(user, ResourceLimit, c.facility, started, None);
        return;
      }
      var blob := Base64.DecodeOfferedKey(Octets(arguments[6]), c.limits.maxCertificateBytes);
      if blob.Failure? {
        FinishedUnready(run);
        exit := Deny(user, blob.kind, c.facility, started, None);
        return;
      }
      exit := VerifyCertificate(run, arguments, c, blob.value, started, budget);
    }

    /** The decoded certificate against all policies, lines 323 to 361. */
    method VerifyCertificate(ghost run: Run, arguments: seq<string>, c: Configuration, blob: Bytes, started: nat,
                             budget: nat) returns (exit: int)
      requires run == Run(process, arguments, Success(c)) && Prepare(arguments, Success(c)) == Success(blob)
      requires Before(run, 3) && wallCalls == 0 && started == process.monotonic(0) && budget == c.deadline
      modifies this
      ensures exit == 0 && Ended(run)
    {
      hide ValidArguments, Prepare, run.Undisturbed, run.Length, run.Look, run.Witness, run.Verdict, run.Outcome,
           run.Emitted, Judge, EmissionOf, EventOf, run.Successes, run.Refusals, run.FirstError;
      ReadyLength(run);
      Start(run);
      var user := arguments[4];
      var stop := Interrupted(run, 3, started, budget);
      if stop.Some? {
        StoppedAt(run, 3);
        exit := Deny(user, stop.value, c.facility, started, None);
        return;
      }
      var reason, subject, successes, refusals, firstError :=
        TryPolicies(run, c, blob, Octets(arguments[8]), user, started, budget);
      if reason.Some? {
        StoppedAt(run, monotonicCalls - 2);
        exit := Deny(user, reason.value, c.facility, started, subject);
        return;
      }
      exit := Conclude(run, arguments, c, successes, refusals, firstError, started, budget);
    }

    /** The loop over the trusted issuers: one look before every attempt and one after it. */
    method TryPolicies(ghost run: Run, c: Configuration, blob: Bytes, keyType: Bytes, user: string, started: nat,
                       budget: nat)
      returns (stop: Option<Kind>, subject: Option<Subject>, successes: seq<(nat, Carriers.CarrierResult)>,
               refusals: seq<(nat, Carriers.CoreResult)>, firstError: Kind)
      requires run.Ready() && run.configuration == Success(c) && Prepare(run.arguments, Success(c)) == Success(blob)
      requires keyType == Octets(run.arguments[8]) && user == run.arguments[4]
      requires Before(run, 4) && wallCalls == 0 && started == process.monotonic(0) && budget == c.deadline
      modifies this`monotonicCalls, this`cancelledCalls, this`wallCalls
      ensures stop.Some? ==>
                && 6 <= monotonicCalls < 6 + 2 * |c.issuers| && run.Undisturbed(monotonicCalls - 2)
                && stop == Judge(run.Look(monotonicCalls - 2)) && subject == run.Witness(monotonicCalls - 2)
      ensures stop.None? ==>
                && Before(run, 4 + 2 * |c.issuers|) && wallCalls == |c.issuers|
                && successes == run.Successes(|c.issuers|) && refusals == run.Refusals(|c.issuers|)
                && firstError == run.FirstError(0)
    {
      hide Prepare, run.Undisturbed, run.Look, run.Witness, Judge, run.Successes, run.Refusals, run.FirstError;
      NothingTried(run);
      successes, refusals, firstError, subject := [], [], IssuerUntrusted, None;
      var haveError := false;
      var index := 0;
      while index < |c.issuers|
        invariant 0 <= index <= |c.issuers| && Before(run, 4 + 2 * index) && wallCalls == index && subject == None
        invariant successes == run.Successes(index) && refusals == run.Refusals(index)
        invariant haveError ==> firstError == run.FirstError(0)
        invariant !haveError ==> firstError == IssuerUntrusted && run.FirstError(0) == run.FirstError(index)
      {
        PolicyWitness(run, index);
        NextPolicy(run, index);
        stop := Interrupted(run, 4 + 2 * index, started, budget);
        if stop.Some? {
          return;
        }
        var policy := c.issuers[index];
        var now := process.wall(wallCalls);
        wallCalls := wallCalls + 1;
        var input := Carriers.CarrierInput(blob, keyType, user, now);
        var result := process.verifier.attempt(c, policy, input);
        var context := process.verifier.context(c, policy, input);
        stop := Interrupted(run, 5 + 2 * index, started, budget);
        if stop.Some? {
          subject := if result.Success? then Some(Subject(policy, result.value.core))
                     else if context.Some? then Some(Subject(policy, context.value)) else None;
          return;
        }
        if result.Success? {
          successes := successes + [(index, result.value)];
        } else {
          if !haveError {
            firstError, haveError := result.kind, true;
          }
          if context.Some? {
            refusals := refusals + [(index, context.value)];
          }
        }
        index := index + 1;
      }
      stop := None;
    }

    /** Selection, lines 362 to 377. */
    method Conclude(ghost run: Run, arguments: seq<string>, c: Configuration,
                    successes: seq<(nat, Carriers.CarrierResult)>, refusals: seq<(nat, Carriers.CoreResult)>,
                    firstError: Kind, started: nat, budget: nat) returns (exit: int)
      requires run == Run(process, arguments, Success(c)) && run.Ready()
      requires Before(run, 4 + 2 * |c.issuers|) && started == process.monotonic(0) && budget == c.deadline
      requires successes == run.Successes(|c.issuers|) && refusals == run.Refusals(|c.issuers|)
      requires firstError == run.FirstError(0)
      modifies this
      ensures exit == 0 && Ended(run)
    {
      hide ValidArguments, Prepare, run.Undisturbed, run.Length, run.Look, run.Witness, run.Outcome,
           run.Emitted, Judge, EmissionOf, EventOf, run.Successes, run.Refusals, run.FirstError, run.Granting;
      ReadyLength(run);
      var user := arguments[4];
      LoopWitness(run);
      var stop := Interrupted(run, 4 + 2 * |c.issuers|, started, budget);
      if stop.Some? {
        StoppedAt(run, 4 + 2 * |c.issuers|);
        exit := Deny(user, stop.value, c.facility, started, None);
        return;
      }
      if |successes| != 1 {
        UndecidedLength(run);
        FinishedAt(run);
        var reason := if |successes| > 1 then IssuerUntrusted else firstError;
        if successes == [] && |refusals| == 1 {
          var selected := refusals[0];
          exit := Deny(user, reason, c.facility, started, Some(Subject(c.issuers[selected.0], selected.1)));
        } else {
          exit := Deny(user, reason, c.facility, started, None);
        }
        return;
      }
      exit := Grant(run, arguments, c, successes[0].0, successes[0].1, started, budget);
    }

    /** The line of the one policy that succeeded, lines 378 to 395. */
    method Grant(ghost run: Run, arguments: seq<string>, c: Configuration, k: nat, selected: Carriers.CarrierResult,
                 started: nat, budget: nat) returns (exit: int)
      requires run == Run(process, arguments, Success(c)) && run.Ready()
      requires Before(run, 5 + 2 * |c.issuers|) && started == process.monotonic(0) && budget == c.deadline
      requires run.Successes(|c.issuers|) == [(k, selected)] && k < |c.issuers|
      modifies this
      ensures exit == 0 && Ended(run)
    {
      hide ValidArguments, Prepare, run.Undisturbed, run.Length, run.Look, run.Witness, run.Outcome,
           run.Emitted, Judge, EmissionOf, EventOf, run.Successes, run.Refusals, run.FirstError, WithinBound, Line;
      ReadyLength(run);
      GrantLength(run, k, selected);
      var user := arguments[4];
      var subject := Some(Subject(c.issuers[k], selected.core));
      var line := Line(selected);
      var stop := Interrupted(run, 5 + 2 * |c.issuers|, started, budget);
      if stop.Some? {
        StoppedAt(run, 5 + 2 * |c.issuers|);
        exit := Deny(user, stop.value, c.facility, started, subject);
        return;
      }
      if !WithinBound(|line|, c.limits.maxOutputChars) {
        FinishedAt(run);
        exit := Deny(user, ResourceLimit, c.facility, started, subject);
        return;
      }
      stop := Interrupted(run, 6 + 2 * |c.issuers|, started, budget);
      if stop.Some? {
        StoppedAt(run, 6 + 2 * |c.issuers|);
        exit := Deny(user, stop.value, c.facility, started, subject);
        return;
      }
      FinishedAt(run);
      exit := Print(run, c, user, Subject(c.issuers[k], selected.core), line, started);
    }

    /** The write and the event that goes with what was written, lines 396 to 410. */
    method Print(ghost run: Run, c: Configuration, user: string, subject: Subject, line: string, started: nat)
      returns (exit: int)
      requires line != "" && WithinBound(|line|, c.limits.maxOutputChars)
      modifies this`monotonicCalls, this`output, this`log
      ensures exit == 0 && monotonicCalls == old(monotonicCalls) + 1
      ensures var count := if process.accepts < |line| then process.accepts else |line|;
              var reason := if count == |line| then None else Some(InternalError);
              var duration := Milliseconds(started, process.monotonic(old(monotonicCalls)));
              && output == old(output) + line[..count]
              && log == old(log) + EmissionOf(process.sha256, c.facility,
                                              EventOf(process.sha256, reason, duration, user, Some(subject)))
    {
      hide Authenticated, EmissionOf, WithinBound;
      var count := if process.accepts < |line| then process.accepts else |line|;
      output := output + line[..count];
      if count != |line| {
        exit := Deny(user, InternalError, c.facility, started, Some(subject));
      } else {
        var milliseconds := Duration(started);
        var e := Plainly(Audit.Allow, None, milliseconds, user);
        Emit(c.facility, Authenticated(process.sha256, e, subject));
        exit := 0;
      }
    }
  }

  // ---- when the clock or the flag stops a run

  lemma ClearLook(run: Run, i: nat)
    ensures Judge(run.Look(i)).None? <==> run.Clear(i)
  {
  }

  lemma DisturbedMeansStopped(run: Run)
    ensures run.StopFrom(0) == run.Length() <==> run.Undisturbed(run.Length())
    ensures run.Undisturbed(run.StopFrom(0))
  {
    hide run.Length, run.Look, run.Clear, Judge;
    forall i | 0 <= i < run.StopFrom(0) ensures run.Clear(i) {
      ClearLook(run, i);
    }
    if run.Undisturbed(run.Length()) {
      UndisturbedSoFar(run, run.Length());
    }
  }

  /** A run is stopped exactly when one of its looks is not clear; the first of them gives the reason, and nothing
      is written. The flag is asked strictly under the deadline only. */
  lemma StopIsExact(run: Run)
    ensures run.StopFrom(0) < run.Length() <==> !run.Undisturbed(run.Length())
    ensures var i := run.StopFrom(0);
            i < run.Length() ==>
              && run.Undisturbed(i) && !run.Clear(i) && run.Looks() == i + 1 && run.Outcome().written == ""
              && var started, now := run.process.monotonic(0), run.process.monotonic(1 + i);
                 run.Event().reason
                 == if now < started then Some(InternalError)
                    else if now - started >= run.Budget(i) then Some(DeadlineExceeded)
                    else Some(OperationCancelled)
  {
    hide run.Length, run.Undisturbed, run.Verdict, run.Witness, run.User, Milliseconds, EventOf;
    DisturbedMeansStopped(run);
    var i := run.StopFrom(0);
    ClearLook(run, i);
    EventReason(run);
  }

  lemma EventReason(run: Run)
    ensures run.Event().reason == run.Outcome().reason
    ensures run.Event().outcome == Audit.Allow <==> run.Outcome().reason.None?
  {
    hide run.Outcome, run.Looks, run.User, Milliseconds, EventOf;
    var e := run.Event();
    EventKeeps(run.process.sha256, run.Outcome().reason,
               Milliseconds(run.process.monotonic(0), run.process.monotonic(1 + run.Looks())), run.User(run.Looks()),
               run.Outcome().subject);
  }

  /** Under a sound configuration no budget exceeds ten seconds, and none exceeds an earlier one. */
  lemma BudgetShrinks(run: Run, i: nat, j: nat)
    requires run.configuration.Success? ==> Sound(run.configuration.value)
    requires i <= j
    ensures run.Budget(j) <= run.Budget(i) <= MAXIMUM_VERIFICATION
  {
    hide Sound;
    if run.configuration.Success? {
      SoundParts(run.configuration.value);
    }
  }

  // ---- what an undisturbed run decides

  lemma {:induction false} OnlySuccess(run: Run, k: nat, n: nat)
    requires run.Ready() && run.OnlyOne(k) && n <= run.Policies()
    ensures run.Successes(n) == if k < n then [(k, run.ResultOf(k).value)] else []
  {
    hide run.Ready, run.ResultOf;
    if n > 0 {
      OnlySuccess(run, k, n - 1);
    }
  }

  lemma {:induction false} SuccessesAreAll(run: Run, n: nat, j: nat)
    requires run.Ready() && n <= run.Policies() && j < n && run.ResultOf(j).Success?
    ensures (j, run.ResultOf(j).value) in run.Successes(n)
  {
    hide run.Ready, run.ResultOf;
    if j < n - 1 {
      SuccessesAreAll(run, n - 1, j);
    }
  }

  /** One recorded success is the only one among all policies. */
  lemma OneSuccess(run: Run, k: nat)
    requires run.Ready()
    ensures run.OnlyOne(k) <==>
              && k < run.Policies() && run.ResultOf(k).Success?
              && run.Successes(run.Policies()) == [(k, run.ResultOf(k).value)]
  {
    hide run.Ready, run.ResultOf, run.Successes;
    if run.OnlyOne(k) {
      OnlySuccess(run, k, run.Policies());
    } else if k < run.Policies() && run.ResultOf(k).Success? {
      var j :| 0 <= j < run.Policies() && j != k && run.ResultOf(j).Success?;
      SuccessesAreAll(run, run.Policies(), j);
    }
  }

  lemma NoSuccess(run: Run)
    requires run.Ready()
    ensures run.Successes(run.Policies()) == [] <==> forall j :: 0 <= j < run.Policies() ==> run.ResultOf(j).Failure?
  {
    hide run.Ready, run.ResultOf, run.Successes;
    var s := run.Successes(run.Policies());
    if s != [] {
      assert s[0] in s;
    }
    forall j | 0 <= j < run.Policies() && run.ResultOf(j).Success? ensures s != [] {
      SuccessesAreAll(run, run.Policies(), j);
    }
  }

  /** When every policy refuses, the first one gives the reason. */
  lemma EveryPolicyRefuses(run: Run)
    requires run.Ready() && forall j :: 0 <= j < run.Policies() ==> run.ResultOf(j).Failure?
    ensures run.Verdict() == Ending(Some(if run.Policies() == 0 then IssuerUntrusted else run.ResultOf(0).kind), "",
                                    run.Suspect())
  {
    hide run.Ready, run.ResultOf, run.Successes, run.Granting, run.Suspect;
    NoSuccess(run);
  }

  /** When exactly one policy accepts, its line is granted, or held back for its size or by the stream. */
  lemma OnePolicyAccepts(run: Run, k: nat)
    requires run.Ready() && run.OnlyOne(k)
    ensures run.Verdict() == run.Granting(Subject(run.configuration.value.issuers[k], run.ResultOf(k).value.core),
                                          Line(run.ResultOf(k).value))
  {
    hide run.Ready, run.ResultOf, run.Successes, run.Granting, run.Suspect, run.FirstError, Line;
    OneSuccess(run, k);
  }

  /** Policies that agree on a carrier are not trusted with it. */
  lemma SeveralPoliciesAccept(run: Run, j: nat, k: nat)
    requires run.Ready() && j < k < run.Policies() && run.ResultOf(j).Success? && run.ResultOf(k).Success?
    ensures run.Verdict() == Ending(Some(IssuerUntrusted), "", None)
  {
    hide run.Ready, run.ResultOf, run.Successes, run.Granting, run.Refusals, run.FirstError;
    SuccessesAreAll(run, run.Policies(), j);
    SuccessesAreAll(run, run.Policies(), k);
  }

  lemma {:induction false} OnlyRefusal(run: Run, k: nat, n: nat)
    requires run.Ready() && k < run.Policies() && n <= run.Policies()
    requires forall j :: 0 <= j < run.Policies() ==> run.ResultOf(j).Failure? && (run.ContextOf(j).Some? <==> j == k)
    ensures run.Refusals(n) == if k < n then [(k, run.ContextOf(k).value)] else []
  {
    hide run.Ready, run.ResultOf, run.ContextOf;
    if n > 0 {
      OnlyRefusal(run, k, n - 1);
    }
  }

  lemma {:induction false} RefusalsAreAll(run: Run, n: nat, j: nat)
    requires run.Ready() && n <= run.Policies() && j < n && run.ResultOf(j).Failure? && run.ContextOf(j).Some?
    ensures (j, run.ContextOf(j).value) in run.Refusals(n)
  {
    hide run.Ready, run.ResultOf, run.ContextOf;
    if j < n - 1 {
      RefusalsAreAll(run, n - 1, j);
    }
  }

  /** Policy `k` found the credential authentic and no other did. */
  ghost predicate OnlyWitness(run: Run, k: nat)
    requires run.Ready()
  {
    k < run.Policies() && forall j :: 0 <= j < run.Policies() ==> (run.ContextOf(j).Some? <==> j == k)
  }

  /** A run that every policy refuses reports on a credential exactly when one policy alone found it authentic. */
  lemma SuspectIsExact(run: Run)
    requires run.Ready() && forall j :: 0 <= j < run.Policies() ==> run.ResultOf(j).Failure?
    ensures forall k: nat :: OnlyWitness(run, k) ==>
              run.Suspect() == Some(Subject(run.configuration.value.issuers[k], run.ContextOf(k).value))
    ensures run.Suspect().Some? ==> exists k: nat :: OnlyWitness(run, k)
  {
    hide run.Ready, run.ResultOf, run.ContextOf, run.Successes, run.Refusals;
    NoSuccess(run);
    forall k: nat | OnlyWitness(run, k)
      ensures run.Suspect() == Some(Subject(run.configuration.value.issuers[k], run.ContextOf(k).value))
    {
      OnlyRefusal(run, k, run.Policies());
    }
    if run.Suspect().Some? {
      var refusals := run.Refusals(run.Policies());
      var k := refusals[0].0;
      assert refusals[0] in refusals;
      forall j | 0 <= j < run.Policies() ensures run.ContextOf(j).Some? <==> j == k {
        if run.ContextOf(j).Some? {
          RefusalsAreAll(run, run.Policies(), j);
        }
      }
      assert OnlyWitness(run, k);
    }
  }

  // ---- what a run grants

  lemma GrantsLength(run: Run, k: nat)
    requires run.Ready() && run.Grants(k)
    ensures run.Length() == 7 + 2 * run.Policies()
    ensures run.Verdict() == var result, accepts := run.ResultOf(k).value, run.process.accepts;
                             var subject := Some(Subject(run.configuration.value.issuers[k], result.core));
                             if accepts < |Line(result)| then
                               Ending(Some(InternalError), Line(result)[..accepts], subject)
                             else Ending(None, Line(result), subject)
  {
    hide run.Ready, run.ResultOf, run.Successes, run.Verdict, run.Length, WithinBound, Line;
    OneSuccess(run, k);
    GrantLength(run, k, run.ResultOf(k).value);
    OnePolicyAccepts(run, k);
  }

  lemma WrittenGrants(run: Run)
    requires run.Verdict().reason.None? || run.Verdict().written != ""
    ensures run.Ready() && exists k: nat :: run.Grants(k)
  {
    hide Prepare, run.ResultOf, run.Successes, run.FirstError, run.Suspect, WithinBound, Line;
    var s := run.Successes(run.Policies());
    assert s[0] in s;
    OneSuccess(run, s[0].0);
    assert run.Grants(s[0].0);
  }

  /** The run allows if and only if nothing disturbs its 7 looks and 2 a policy, exactly one policy's attempt at its
      own wall time succeeds, its line is within the bound, and the stream takes all of it. */
  lemma AllowsExactly(run: Run)
    ensures run.Event().outcome == Audit.Allow <==>
              && run.Ready() && run.Undisturbed(7 + 2 * run.Policies())
              && exists k: nat :: run.Grants(k) && |Line(run.ResultOf(k).value)| <= run.process.accepts
  {
    hide run.Ready, run.Grants, run.Undisturbed, run.Verdict, run.Length, run.Event, run.ResultOf, Line;
    EventReason(run);
    DisturbedMeansStopped(run);
    if run.Event().outcome == Audit.Allow {
      WrittenGrants(run);
      var k: nat :| run.Grants(k);
      GrantsLength(run, k);
    } else if run.Ready() {
      forall k: nat | run.Undisturbed(7 + 2 * run.Policies()) && run.Grants(k)
        ensures |Line(run.ResultOf(k).value)| > run.process.accepts
      {
        GrantsLength(run, k);
      }
    }
  }

  /** Whatever is printed is what the stream takes of the line of the only policy that succeeds, within the bound,
      after a clear look at the clock and the flag before and behind every step; it is the whole line exactly when
      the event allows. */
  lemma PrintedMeansUndisturbed(run: Run)
    requires run.Outcome().written != ""
    ensures run.Ready() && run.Undisturbed(7 + 2 * run.Policies()) && run.Looks() == 7 + 2 * run.Policies()
    ensures exists k: nat ::
              && run.Grants(k)
              && var line, accepts := Line(run.ResultOf(k).value), run.process.accepts;
                 && run.Outcome().written == (if accepts < |line| then line[..accepts] else line)
                 && (run.Event().outcome == Audit.Allow <==> run.Outcome().written == line)
  {
    hide run.Ready, run.Grants, run.Undisturbed, run.Verdict, run.Length, run.Event, run.ResultOf, Line;
    EventReason(run);
    DisturbedMeansStopped(run);
    WrittenGrants(run);
    var k: nat :| run.Grants(k);
    GrantsLength(run, k);
  }

  /** Every grant of the direct verifier is inside the window of the policy that gives it. */
  lemma GrantedInsideWindow(w: World, run: Run)
    requires run.process.verifier == Direct(w) && run.configuration.Success? && Sound(run.configuration.value)
    requires run.Event().outcome == Audit.Allow && forall k :: Int64(run.process.wall(k))
    ensures run.Ready()
    ensures var c := run.configuration.value;
            exists k: nat ::
              && run.Grants(k)
              && var input := run.Input(k);
                 var dates := TimeWindow.DatesOf(w, RequestOf(c, c.issuers[k], input.blob, input.keyType, input.user));
                 dates.Some? && TimeWindow.Open(dates.value, c.skew, run.process.wall(k))
  {
    hide Attempt, Context, Sound, TimeWindow.DatesOf, TimeWindow.Open, WithinBound, Line, run.Undisturbed, Prepare;
    AllowsExactly(run);
    var k: nat :| run.Grants(k);
    var input := run.Input(k);
    ConfiguredWindow(w, run.configuration.value, k, input.blob, input.keyType, input.user, input.now, input.now);
  }

  // ---- what a run depends on

  /** Two runs that differ in their monotonic clock and their cancellations at most. */
  ghost predicate SameRequest(a: Run, b: Run) {
    && a.arguments == b.arguments && a.configuration == b.configuration
    && a.process.verifier == b.process.verifier && a.process.wall == b.process.wall
    && a.process.accepts == b.process.accepts
  }

  lemma SameAttempt(a: Run, b: Run, k: nat)
    requires SameRequest(a, b) && a.Ready() && k < a.Policies()
    ensures a.ResultOf(k) == b.ResultOf(k) && a.ContextOf(k) == b.ContextOf(k)
  {
    hide Prepare;
  }

  lemma {:induction false} SameLists(a: Run, b: Run, n: nat)
    requires SameRequest(a, b) && a.Ready() && n <= a.Policies()
    ensures a.Successes(n) == b.Successes(n) && a.Refusals(n) == b.Refusals(n)
  {
    hide Prepare, a.ResultOf, a.ContextOf;
    if n > 0 {
      SameLists(a, b, n - 1);
      SameAttempt(a, b, n - 1);
    }
  }

  lemma {:induction false} SameError(a: Run, b: Run, k: nat)
    requires SameRequest(a, b) && a.Ready() && k <= a.Policies()
    ensures a.FirstError(k) == b.FirstError(k)
    decreases a.Policies() - k
  {
    hide Prepare, a.ResultOf;
    if k < a.Policies() {
      SameAttempt(a, b, k);
      SameError(a, b, k + 1);
    }
  }

  lemma SameVerdict(a: Run, b: Run)
    requires SameRequest(a, b)
    ensures a.Verdict() == b.Verdict() && a.Length() == b.Length()
  {
    hide Prepare, ValidArguments, a.ResultOf, a.Successes, a.Refusals, a.FirstError, a.Granting, Line, WithinBound;
    if a.Ready() {
      SameGranting(a, b);
      SameLists(a, b, a.Policies());
      SameError(a, b, 0);
    }
  }

  lemma SameGranting(a: Run, b: Run)
    requires SameRequest(a, b) && a.configuration.Success?
    ensures forall subject, line :: a.Granting(subject, line) == b.Granting(subject, line)
  {
    hide WithinBound;
  }

  /** Clock and cancellation can only hold a decision back: a run that nothing disturbs ends as the wall times and
      the policies have it, and any other run of the same request writes nothing, or the same. */
  lemma DisturbanceOnlyDenies(a: Run, b: Run)
    requires SameRequest(a, b) && b.Undisturbed(b.Length())
    ensures a.Undisturbed(a.Length()) ==> a.Outcome() == b.Outcome() && a.Looks() == b.Looks()
    ensures !a.Undisturbed(a.Length()) ==> a.Outcome().written == "" && a.Event().outcome != Audit.Allow
  {
    hide a.Verdict, a.Length, a.Undisturbed, a.Look, a.Witness, a.Event;
    SameVerdict(a, b);
    DisturbedMeansStopped(a);
    DisturbedMeansStopped(b);
    EventReason(a);
  }

  // ---- what a run reports

  /** Policy `k` vouches for the credential. */
  ghost predicate Vouched(run: Run, k: nat, subject: Subject)
    requires run.Ready()
  {
    && k < run.Policies() && subject.policy == run.configuration.value.issuers[k]
    && run.ContextOf(k) == Some(subject.core)
  }

  lemma TestimonyIsVouched(run: Run, k: nat)
    requires run.Ready() && k < run.Policies() && NamesCredentials(run.process.verifier) && run.Testimony(k).Some?
    ensures Vouched(run, k, run.Testimony(k).value) && Named(run.Testimony(k).value.core)
  {
    hide Named, Prepare;
  }

  /** Every credential in an audit event, however the run ends, is one that the policy named beside it found
      authentic. */
  lemma SubjectIsVouched(run: Run)
    requires NamesCredentials(run.process.verifier) && run.Outcome().subject.Some?
    ensures run.Ready()
    ensures var subject := run.Outcome().subject.value;
            Named(subject.core) && exists k: nat :: Vouched(run, k, subject)
  {
    hide Named, Prepare, NamesCredentials, run.Testimony, run.Successes, run.Refusals, run.Length, run.Look, Judge,
         run.FirstError, Line, WithinBound, Vouched, run.Verdict, run.Witness;
    var i := run.StopFrom(0);
    if i < run.Length() {
      WitnessIsVouched(run, i);
    } else {
      VerdictIsVouched(run);
    }
  }

  lemma WitnessIsVouched(run: Run, i: nat)
    requires NamesCredentials(run.process.verifier) && run.Witness(i).Some?
    ensures run.Ready() && Named(run.Witness(i).value.core)
    ensures exists k: nat :: Vouched(run, k, run.Witness(i).value)
  {
    hide Named, Prepare, NamesCredentials, run.Testimony, run.Successes, Vouched;
    var s := run.Successes(run.Policies());
    var k := if i < 4 + 2 * run.Policies() then (i - 5) / 2 else s[0].0;
    if i >= 4 + 2 * run.Policies() {
      assert s[0] in s;
    }
    TestimonyIsVouched(run, k);
  }

  lemma VerdictIsVouched(run: Run)
    requires NamesCredentials(run.process.verifier) && run.Verdict().subject.Some?
    ensures run.Ready() && Named(run.Verdict().subject.value.core)
    ensures exists k: nat :: Vouched(run, k, run.Verdict().subject.value)
  {
    hide Named, Prepare, NamesCredentials, run.ResultOf, run.ContextOf, run.Successes, run.Refusals, run.FirstError,
         Line, WithinBound, Vouched;
    var s, r := run.Successes(run.Policies()), run.Refusals(run.Policies());
    if |s| == 1 {
      assert s[0] in s;
      TestimonyIsVouched(run, s[0].0);
    } else {
      assert r[0] in r;
      TestimonyIsVouched(run, r[0].0);
    }
  }

  /** The event of every run serializes, so that the logger is called exactly once. */
  lemma OneEvent(run: Run)
    requires NamesCredentials(run.process.verifier)
    requires run.configuration.Success? ==> Sound(run.configuration.value)
    ensures Audit.Serialize(run.process.sha256, run.Event()).Success?
    ensures run.Emitted()
            == [Emission(run.LogFacility(run.Looks()), Audit.Serialize(run.process.sha256, run.Event()).value)]
  {
    hide Named, NamesCredentials, Sound, SoundIssuer, run.Outcome, run.Looks, run.User, EventOf, Audit.Serialize,
         Prepare, run.ContextOf;
    var outcome := run.Outcome();
    var skew := if run.configuration.Success? then run.configuration.value.skew else 0;
    if outcome.subject.Some? {
      SubjectIsVouched(run);
      SoundParts(run.configuration.value);
    }
    EventSerializes(run.process.sha256, outcome.reason,
                    Milliseconds(run.process.monotonic(0), run.process.monotonic(1 + run.Looks())),
                    run.User(run.Looks()), outcome.subject, skew);
  }

  /** What loading the configuration comes to: a file that cannot be read or parsed, or the validation of its tree. */
  function Loaded(e: Environment, root: Result<Json>): Result<Configuration>
    requires Walks(e)
  {
    var tree :- root;
    Validate(e, tree)
  }

  /** The command with a configuration as it is loaded and any verifier that fills in the audit context, as the direct
      one does: on these very traces it prints what the run has it print, and logs exactly one event, the run's. */
  method VerifyCommand(process: Process, e: Environment, root: Result<Json>, arguments: seq<string>)
    returns (exit: int, command: Command)
    requires Walks(e) && NamesCredentials(process.verifier)
    ensures exit == 0 && fresh(command) && command.process == process
    ensures var run := Run(process, arguments, Loaded(e, root));
            command.output == run.Outcome().written && command.log == run.Emitted() && |command.log| == 1
  {
    hide Validate, Sound, NamesCredentials, Audit.Serialize, Walks;
    var configuration: Result<Configuration>;
    if root.Failure? {
      configuration := Failure(root.kind);
    } else {
      configuration := ParseAndValidate(e, root.value);
      ValidatedIsSound(e, root.value);
    }
    command := new Command(process);
    exit := command.RunVerify(arguments, configuration);
    OneEvent(Run(process, arguments, configuration));
  }
}
