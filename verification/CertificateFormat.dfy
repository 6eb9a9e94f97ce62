/** The OpenSSH user certificates admitted by `src/openssh_certificate.cpp`, written as an
    encoder: the fields of section 5 of RFC 4251 and the well-formed values between them. */
module CertificateFormat {
  import opened Bytes

  datatype Algorithm = Es256 | Ed25519

  datatype Limits = Limits(maxCertificateBytes: nat, maxTokenBytes: nat, maxPrincipals: nat,
                           maxExtensions: nat, maxNameBytes: nat)

  datatype Certificate = Certificate(
    algorithm: Algorithm, certifiedKey: Bytes, serial: nat, keyId: Bytes, principals: seq<Bytes>,
    validAfter: nat, validBefore: nat, permissions: seq<Bytes>, token: Bytes,
    signatureKey: Bytes, signatureAlgorithm: Bytes, signature: Bytes, signedBytes: Bytes)

  const ECDSA_CERTIFICATE: Bytes := Ascii("ecdsa-sha2-nistp256-cert-v01@openssh.com")
  const ED25519_CERTIFICATE: Bytes := Ascii("ssh-ed25519-cert-v01@openssh.com")
  const ECDSA_KEY: Bytes := Ascii("ecdsa-sha2-nistp256")
  const ED25519_KEY: Bytes := Ascii("ssh-ed25519")
  const CURVE: Bytes := Ascii("nistp256")
  const CARRIER: Bytes := Ascii("credbind-ssh-v1@credbind.dev")
  const PERMIT_X11: Bytes := Ascii("permit-X11-forwarding")
  const PERMIT_AGENT: Bytes := Ascii("permit-agent-forwarding")
  const PERMIT_PORT: Bytes := Ascii("permit-port-forwarding")
  const PERMIT_PTY: Bytes := Ascii("permit-pty")
  const PERMIT_RC: Bytes := Ascii("permit-user-rc")

  function TypeName(a: Algorithm): Bytes {
    if a.Es256? then ECDSA_CERTIFICATE else ED25519_CERTIFICATE
  }

  function KeyName(a: Algorithm): Bytes {
    if a.Es256? then ECDSA_KEY else ED25519_KEY
  }

  predicate AllowedPermission(name: Bytes) {
    name == PERMIT_X11 || name == PERMIT_AGENT || name == PERMIT_PORT || name == PERMIT_PTY || name == PERMIT_RC
  }

  predicate ValidLimits(limits: Limits) {
    && 0 < limits.maxCertificateBytes <= 49152 && 0 < limits.maxTokenBytes <= 32768
    && 0 < limits.maxPrincipals && 0 < limits.maxExtensions && 0 < limits.maxNameBytes
  }

  // ---- values

  /** An uncompressed P-256 point, or an Ed25519 key; 65 and 32 octets. */
  predicate ValidKey(key: Bytes, a: Algorithm) {
    if a.Es256? then |key| == 65 && key[0] == 4 else |key| == 32
  }

  predicate AsciiNonempty(s: Bytes) {
    s != [] && forall i :: 0 <= i < |s| ==> 0x21 <= s[i] <= 0x7e
  }

  /** A canonical positive mpint: no sign bit, and a leading zero only in front of one. */
  predicate PositiveMpint(s: Bytes) {
    s != [] && s[0] < 128 && (s[0] == 0 ==> |s| > 1 && s[1] >= 128)
  }

  /** The order of `std::string`: lexicographic on unsigned octets. */
  predicate Less(a: Bytes, b: Bytes) {
    b != [] && (a == [] || a[0] < b[0] || (a[0] == b[0] && Less(a[1..], b[1..])))
  }

  /** Each name is greater than the one before it, the first greater than `previous`. */
  predicate Increasing(previous: Bytes, names: seq<Bytes>)
    decreases names
  {
    names == [] || (Less(previous, names[0]) && Increasing(names[0], names[1..]))
  }

  // ---- octets, each in front of the octets that follow

  function KeyOctets(a: Algorithm, key: Bytes, rest: Bytes): Bytes {
    if a.Es256? then Frame32(CURVE) + (Frame32(key) + rest) else Frame32(key) + rest
  }

  function HeaderOctets(a: Algorithm, nonce: Bytes, key: Bytes, rest: Bytes): Bytes {
    Frame32(TypeName(a)) + (Frame32(nonce) + KeyOctets(a, key, rest))
  }

  function IdentityOctets(serial: nat, keyId: Bytes, principal: Bytes, rest: Bytes): Bytes {
    U64(serial) + (U32(1) + (Frame32(keyId) + (Frame32(Frame32(principal)) + rest)))
  }

  /** Validity, empty critical options, extensions, empty reserved field, signature key. */
  function TermsOctets(after: nat, before: nat, extensions: Bytes, signatureKey: Bytes, rest: Bytes): Bytes {
    U64(after) + (U64(before) + (Frame32([]) + (Frame32(extensions) + (Frame32([]) + (Frame32(signatureKey) + rest)))))
  }

  function PermissionOctets(permissions: seq<Bytes>): Bytes {
    if permissions == [] then []
    else Frame32(permissions[0]) + (Frame32([]) + PermissionOctets(permissions[1..]))
  }

  /** The carrier comes first and wraps the token twice. */
  function ExtensionOctets(token: Bytes, permissions: seq<Bytes>): Bytes {
    Frame32(CARRIER) + (Frame32(Frame32(token)) + PermissionOctets(permissions))
  }

  function KeyBlob(a: Algorithm, key: Bytes): Bytes {
    Frame32(KeyName(a)) + KeyOctets(a, key, [])
  }

  function EcdsaSignature(r: Bytes, s: Bytes): Bytes {
    Frame32(r) + (Frame32(s) + [])
  }

  function SignatureBlob(name: Bytes, signature: Bytes): Bytes {
    Frame32(name) + (Frame32(signature) + [])
  }

  function SignedOctets(c: Certificate, nonce: Bytes, rest: Bytes): Bytes
    requires |c.principals| == 1
  {
    HeaderOctets(c.algorithm, nonce, c.certifiedKey,
      IdentityOctets(c.serial, c.keyId, c.principals[0],
        TermsOctets(c.validAfter, c.validBefore, ExtensionOctets(c.token, c.permissions), c.signatureKey, rest)))
  }

  function EncodeCertificate(c: Certificate, nonce: Bytes): Bytes
    requires |c.principals| == 1
  {
    SignedOctets(c, nonce, Frame32(SignatureBlob(c.signatureAlgorithm, c.signature)) + [])
  }

  // ---- well-formed certificates

  ghost predicate IsKeyBlob(blob: Bytes, a: Algorithm) {
    exists key :: ValidKey(key, a) && blob == KeyBlob(a, key)
  }

  ghost predicate IsSignature(signature: Bytes, a: Algorithm) {
    if a.Es256? then
      exists r, s :: PositiveMpint(r) && |r| <= 33 && PositiveMpint(s) && |s| <= 33 && signature == EcdsaSignature(r, s)
    else
      |signature| == 64
  }

  predicate WellFormedIdentity(c: Certificate) {
    && c.serial < UINT64_LIMIT && |c.keyId| <= 1024
    && |c.principals| == 1 && |c.principals[0]| <= 256 && AsciiNonempty(c.principals[0])
  }

  predicate WellFormedTerms(c: Certificate, limits: Limits) {
    && c.validAfter < c.validBefore < UINT64_LIMIT - 1
    && 0 < |c.token| <= limits.maxTokenBytes
    && |c.permissions| < limits.maxExtensions
    && (forall i :: 0 <= i < |c.permissions| ==> AllowedPermission(c.permissions[i]))
    && Increasing(CARRIER, c.permissions)
  }

  /** What a certificate with this nonce has to satisfy under the given limits. */
  ghost predicate WellFormed(c: Certificate, nonce: Bytes, limits: Limits) {
    && ValidLimits(limits)
    && |TypeName(c.algorithm)| <= limits.maxNameBytes
    && 0 < |nonce| <= 1024
    && ValidKey(c.certifiedKey, c.algorithm)
    && WellFormedIdentity(c)
    && WellFormedTerms(c, limits)
    && IsKeyBlob(c.signatureKey, c.algorithm)
    && c.signatureAlgorithm == KeyName(c.algorithm)
    && IsSignature(c.signature, c.algorithm)
    && c.signedBytes == SignedOctets(c, nonce, [])
    && |EncodeCertificate(c, nonce)| <= limits.maxCertificateBytes
  }

  // ---- names

  lemma NameSizes()
    ensures |ECDSA_CERTIFICATE| == 40 && |ED25519_CERTIFICATE| == 32 && |ECDSA_KEY| == 19 && |ED25519_KEY| == 11
    ensures |CURVE| == 8 && |CARRIER| == 28
    ensures forall p :: AllowedPermission(p) ==> 10 <= |p| <= 23
  {
  }

  lemma CarrierBeforePermissions(p: Bytes)
    requires AllowedPermission(p)
    ensures Less(CARRIER, p) && !Less(p, CARRIER) && p != CARRIER
  {
    assert p[0] == 112 && CARRIER[0] == 99;
  }

  lemma {:induction false} LessIrreflexive(a: Bytes)
    ensures !Less(a, a)
  {
    if a != [] {
      LessIrreflexive(a[1..]);
    }
  }

  lemma {:induction false} LessTransitive(a: Bytes, b: Bytes, c: Bytes)
    requires Less(a, b) && Less(b, c)
    ensures Less(a, c)
  {
    if a != [] && a[0] == b[0] == c[0] {
      LessTransitive(a[1..], b[1..], c[1..]);
    }
  }

  /** Increasing neighbours are increasing throughout: no permission appears twice. */
  lemma {:induction false} IncreasingThroughout(previous: Bytes, names: seq<Bytes>, i: nat, j: nat)
    requires Increasing(previous, names) && i < j < |names|
    ensures Less(previous, names[j]) && Less(names[i], names[j]) && names[i] != names[j]
    decreases names
  {
    if i == 0 {
      if j == 1 {
        assert names[1..][0] == names[1];
      } else {
        IncreasingThroughout(names[0], names[1..], 0, j - 1);
      }
    } else {
      IncreasingThroughout(names[0], names[1..], i - 1, j - 1);
    }
    if Less(names[0], names[j]) {
      LessTransitive(previous, names[0], names[j]);
    }
    LessIrreflexive(names[i]);
  }

  /** Octets that follow are appended unchanged: the signed octets are a prefix. */
  lemma SignedOctetsPrefix(c: Certificate, nonce: Bytes, rest: Bytes)
    requires |c.principals| == 1
    ensures SignedOctets(c, nonce, rest) == SignedOctets(c, nonce, []) + rest
  {
    hide Frame32, U32, U64;
    var extensions := ExtensionOctets(c.token, c.permissions);
    assert TermsOctets(c.validAfter, c.validBefore, extensions, c.signatureKey, rest)
        == TermsOctets(c.validAfter, c.validBefore, extensions, c.signatureKey, []) + rest;
    var terms := TermsOctets(c.validAfter, c.validBefore, extensions, c.signatureKey, []);
    assert IdentityOctets(c.serial, c.keyId, c.principals[0], terms + rest)
        == IdentityOctets(c.serial, c.keyId, c.principals[0], terms) + rest;
    var identity := IdentityOctets(c.serial, c.keyId, c.principals[0], terms);
    assert HeaderOctets(c.algorithm, nonce, c.certifiedKey, identity + rest)
        == HeaderOctets(c.algorithm, nonce, c.certifiedKey, identity) + rest;
  }
}
