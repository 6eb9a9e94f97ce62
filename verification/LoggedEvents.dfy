/** What the log line of a run says: the event of `src/command.cpp`, read back from the text that the logger gets. */
module LoggedEvents {
  import opened AuditReading
  import opened Bytes
  import opened Errors
  import opened GqEvidence
  import opened IssuerAcceptance
  import opened Pipeline
  import opened Policies
  import Audit
  import Carriers
  import Configurations
  import Preimages

  /** An acquisition that leads to credentials with the binding. */
  predicate GoesWith(acquisition: string, binding: string) {
    || (acquisition in {"oidc-native-auth-code-v1", "oidc-confidential-web-auth-code-v1"} && binding == "oidc-nonce-v1")
    || (acquisition == "challenge-bound-workload-v1" && binding in {"audience-v1", "credbind-claim-v1"})
  }

  /** The only configured acquisition that goes with the binding. */
  ghost predicate OnlyAcquisition(acquisitions: set<string>, binding: string, a: string) {
    a in acquisitions && GoesWith(a, binding) && forall x :: x in acquisitions && GoesWith(x, binding) ==> x == a
  }

  lemma AcquisitionExactly(acquisitions: set<string>, binding: string)
    ensures var a := AcquisitionProfile(acquisitions, binding);
            && (a != "" ==> OnlyAcquisition(acquisitions, binding, a))
            && (a == "" ==> forall x :: !OnlyAcquisition(acquisitions, binding, x))
  {
    AcquisitionsDiffer();
    if binding == NONCE_BINDING {
      assert GoesWith(Configurations.NATIVE_ACQUISITION, binding) && GoesWith(Configurations.WEB_ACQUISITION, binding);
    }
  }

  lemma AcquisitionsDiffer()
    ensures Configurations.NATIVE_ACQUISITION != Configurations.WEB_ACQUISITION
    ensures Configurations.WORKLOAD_ACQUISITION != "" && NONCE_BINDING !in {AUDIENCE_BINDING, CLAIM_BINDING}
  {
  }

  /** Whole milliseconds, at most what 32 bits hold; none when the clock has gone back. */
  predicate IsDuration(n: nat, started: nat, ended: nat) {
    if ended < started then n == 0
    else if ended - started < 4_294_967_296_000_000 then n * 1_000_000 <= ended - started < (n + 1) * 1_000_000
    else n == 4_294_967_295
  }

  lemma DurationExactly(started: nat, ended: nat)
    ensures IsDuration(Milliseconds(started, ended), started, ended)
  {
  }

  /** The digest of the subject that the policy's audit claim names, when that is text. */
  ghost predicate IsIdentity(H: Sha256, auditClaim: string, core: Carriers.CoreResult, identity: string) {
    && (forall v: string | auditClaim != "" && v != "" && TextMember(core.claims, auditClaim, v) ::
          identity == Audit.LowerHex(H(Preimages.Encode(
                        Preimages.AuditIdentity(Octets(core.issuer), Octets(auditClaim), Octets(v))))))
    && (identity != "" ==> auditClaim != "" && exists v: string :: v != "" && TextMember(core.claims, auditClaim, v))
  }

  lemma IdentityExactly(H: Sha256, auditClaim: string, core: Carriers.CoreResult)
    ensures IsIdentity(H, auditClaim, core, Identity(H, auditClaim, core))
  {
    hide Preimages.Encode, Audit.LowerHex, TextMember, StringMember;
    forall v: string
      ensures StringMember(core.claims, auditClaim) == Some(v) <==> TextMember(core.claims, auditClaim, v)
    {
      StringMemberExactly(core.claims, auditClaim, v);
    }
  }

  /** The event of a run that ended for this reason, for this user, with this credential at hand. */
  ghost predicate Tells(H: Sha256, e: Audit.Event, reason: Option<Kind>, user: string, subject: Option<Subject>) {
    && e.reason == reason && e.user == user
    && (e.outcome.Allow? <==> reason.None?) && (e.outcome.Faulty? <==> reason == Some(InternalError))
    && match subject
       case None =>
         && e.policy == "" && e.identity == "" && e.acquisition == "" && e.binding == "" && e.evidence == ""
         && e.algorithm == ""
       case Some(s) =>
         && e.policy == s.policy.policyId && e.binding == s.core.binding && e.evidence == s.core.evidence
         && e.algorithm == (if s.core.algorithm.Es256? then "ES256" else "Ed25519")
         && (e.acquisition != "" ==> OnlyAcquisition(s.policy.acquisitions, s.core.binding, e.acquisition))
         && (e.acquisition == "" ==> forall x :: !OnlyAcquisition(s.policy.acquisitions, s.core.binding, x))
         && IsIdentity(H, s.policy.auditClaim, s.core, e.identity)
  }

  lemma EventTells(H: Sha256, reason: Option<Kind>, duration: nat, user: string, subject: Option<Subject>)
    ensures Tells(H, EventOf(H, reason, duration, user, subject), reason, user, subject)
    ensures var e := EventOf(H, reason, duration, user, subject); e.duration == duration && e.user == user
  {
    hide AcquisitionProfile, OnlyAcquisition, Identity, IsIdentity;
    if subject.Some? {
      AcquisitionExactly(subject.value.policy.acquisitions, subject.value.core.binding);
      IdentityExactly(H, subject.value.policy.auditClaim, subject.value.core);
    }
  }

  /** The user is in the log once the arguments have been counted. */
  ghost predicate IsUser(run: Run, user: string) {
    if run.Looks() >= 2 && |run.arguments| == 9 then user == run.arguments[4] else user == ""
  }

  /** The logger gets one line, which reads back as an event that tells how the run ended: its reason, the time from
      the clock's first answer to its last, the user and the credential. An event that allows is informative, an
      internal error is an error, and any other denial a notice. */
  lemma LoggedIsRead(run: Run)
    requires NamesCredentials(run.process.verifier)
    requires run.configuration.Success? ==> Configurations.Sound(run.configuration.value)
    ensures |run.Emitted()| == 1
    ensures var line, e, outcome := run.Emitted()[0].event, run.Event(), run.Outcome();
            && Tells(run.process.sha256, e, outcome.reason, e.user, outcome.subject) && IsUser(run, e.user)
            && IsDuration(e.duration, run.process.monotonic(0), run.process.monotonic(1 + run.Looks()))
            && ReadObject(line.payload)
               == Some(HeadEntries(run.process.sha256, e) + TailEntries(e))
            && line.severity == (if outcome.reason.None? then Audit.Info
                                 else if outcome.reason == Some(InternalError) then Audit.Severe else Audit.Notice)
  {
    hide NamesCredentials, Configurations.Sound, run.Outcome, run.Looks, run.Emitted, EventOf, Tells, ReadObject,
         HeadEntries, TailEntries, Milliseconds, Audit.Serialize;
    var started, ended := run.process.monotonic(0), run.process.monotonic(1 + run.Looks());
    OneEvent(run);
    DurationExactly(started, ended);
    EventTells(run.process.sha256, run.Outcome().reason, Milliseconds(started, ended), run.User(run.Looks()),
               run.Outcome().subject);
    EventRead(run.process.sha256, run.Event());
    SeverityTold(run.process.sha256, run.Event());
    EventReason(run);
  }

  lemma SeverityTold(H: Sha256, e: Audit.Event)
    requires e.duration < UINT32_LIMIT && Audit.Serialize(H, e).Success?
    ensures Audit.Serialize(H, e).value.severity
            == if e.outcome.Allow? then Audit.Info
               else if e.reason == Some(InternalError) then Audit.Severe else Audit.Notice
  {
    hide Audit.Text, Audit.WellFormed, Audit.SafeUser;
  }
}
