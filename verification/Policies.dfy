/** The typed policies the configuration turns into, and the trusted building blocks they meet:
    `src/config.hpp`, `src/issuer_verifier.hpp`, `src/direct_verifier.hpp`. */
module Policies {
  import opened Bytes
  import opened CertificateFormat
  import opened Errors
  import opened GqEvidence
  import opened JsonTrees

  datatype Operation = StringEquals | StringOneOf | StringArrayContains

  datatype Predicate = Predicate(claim: string, operation: Operation, value: string, values: seq<string>)

  type Claims = map<string, Json>

  datatype IssuerPolicy = IssuerPolicy(
    issuer: string, audiences: set<string>, authorizedParties: set<string>, issuerAlgorithms: set<string>,
    evidenceProfiles: set<string>, bindingProfiles: set<string>, requireNonReconstructible: bool,
    maximumAge: int, skew: int, requiredClaims: seq<Predicate>, admittedClaims: set<string>)

  datatype CorePolicy = CorePolicy(callerAlgorithms: set<string>, issuerPolicy: IssuerPolicy,
                                   maxTokenBytes: nat, maxEvidenceBytes: nat)

  datatype CarrierPolicy = CarrierPolicy(principalClaim: string, maximumLifetime: int, skew: int)

  datatype AccountRule = AccountRule(issuer: string, all: seq<Predicate>, extensions: set<string>)

  type Accounts = map<string, seq<AccountRule>>

  type Keys = map<string, RsaPublicKey>

  /** Text that JSON quotes as it stands. */
  predicate Plain(s: string) {
    forall i :: 0 <= i < |s| ==> s[i] >= ' ' && s[i] != '"' && s[i] != '\\'
  }

  type word = s: string | Plain(s) && |s| <= 34 witness ""

  const STANDARD_EVIDENCE: word := "standard-jws-v1"
  const GQ_EVIDENCE: word := "gq-rs256-v1"
  const NONCE_BINDING: word := "oidc-nonce-v1"
  const AUDIENCE_BINDING: word := "audience-v1"
  const CLAIM_BINDING: word := "credbind-claim-v1"

  const INT64_MAXIMUM := 0x7FFF_FFFF_FFFF_FFFF
  const INT64_MINIMUM := -0x8000_0000_0000_0000

  predicate Int64(n: int) {
    INT64_MINIMUM <= n <= INT64_MAXIMUM
  }

  // ---- strings and octets

  function Octets(s: string): (b: Bytes)
    ensures |b| == |s|
  {
    seq(|s|, i requires 0 <= i < |s| => s[i] as int % 256)
  }

  function Chars(b: Bytes): (s: string)
    ensures |s| == |b|
  {
    seq(|b|, i requires 0 <= i < |b| => b[i] as char)
  }

  // ---- JSON values

  function StringOf(j: Json): Option<string> {
    if j.Value? && j.scalar.Text? then Some(j.scalar.text) else None
  }

  function StringMember(fields: map<string, Json>, name: string): Option<string> {
    if name in fields then StringOf(fields[name]) else None
  }

  predicate AllStrings(elements: seq<Json>) {
    forall e :: e in elements ==> StringOf(e).Some?
  }

  function StringsOf(elements: seq<Json>): (s: seq<string>)
    requires AllStrings(elements)
    ensures |s| == |elements|
    ensures forall i :: 0 <= i < |s| ==> StringOf(elements[i]) == Some(s[i])
  {
    seq(|elements|, i requires 0 <= i < |elements| => StringOf(elements[i]).value)
  }

  predicate Unrepeated(s: seq<string>) {
    forall i, j :: 0 <= i < j < |s| ==> s[i] != s[j]
  }

  lemma StringsOfPrefix(elements: seq<Json>, k: nat)
    requires k <= |elements| && AllStrings(elements)
    ensures AllStrings(elements[..k]) && StringsOf(elements[..k]) == StringsOf(elements)[..k]
  {
  }

  // ---- what the model does not look into

  /** What the JSON tokenizer makes of octets: the events of a document, or some events and an error. */
  datatype Tokens = Document(root: Node) | Broken(events: seq<Event>)

  /** The caller input context: its key, algorithm and profiles. */
  datatype Cic = Cic(algorithm: Algorithm, publicKey: Bytes, binding: string, evidence: string)

  /** SHA-256, the tokenizer, `parse_cic`, and the signature checks of OpenSSL: arbitrary functions. */
  datatype World = World(
    sha256: Sha256,
    json: Bytes -> Tokens,
    cic: (Bytes, CorePolicy) -> Result<Cic>,
    rs256: (Bytes, Bytes, RsaPublicKey) -> Result<()>,
    callerSignature: (Cic, Bytes, Bytes) -> Result<()>,
    carrierSignature: (Certificate, Algorithm) -> Result<()>)
}
