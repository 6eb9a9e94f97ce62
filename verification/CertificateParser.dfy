/** The certificate parser of `src/openssh_certificate.cpp` as functions on octets, proved to
    be the inverse of the encoder in both directions. */
module CertificateParser {
  import opened Bytes
  import opened Errors
  import opened Cursor
  import opened CertificateFormat

  // ---- stages, each returning what is left unread

  function TakeKey(s: Bytes, a: Algorithm, limits: Limits): (r: Result<(Bytes, Bytes)>)
    ensures r.Success? ==> |r.value.1| <= |s|
  {
    if a.Es256? then
      var c := TakeString(s, limits.maxNameBytes);
      var p := TakeString(c.rest, 65);
      var curve :- c.result;
      var point :- p.result;
      var _ :- Need(curve == CURVE, UnsupportedAlgorithm);
      var _ :- Need(ValidKey(point, Es256), MalformedInput);
      Success((point, p.rest))
    else
      var k := TakeString(s, 32);
      var key :- k.result;
      var _ :- Need(ValidKey(key, Ed25519), MalformedInput);
      Success((key, k.rest))
  }

  datatype Header = Header(algorithm: Algorithm, nonce: Bytes, key: Bytes)

  function TakeHeader(s: Bytes, limits: Limits): (r: Result<(Header, Bytes)>)
    ensures r.Success? ==> |r.value.1| <= |s|
  {
    var t := TakeString(s, limits.maxNameBytes);
    var name :- t.result;
    var algorithm :-
      if name == ECDSA_CERTIFICATE then Success(Es256)
      else if name == ED25519_CERTIFICATE then Success(Ed25519)
      else Failure(UnsupportedAlgorithm);
    var n := TakeString(t.rest, 1024);
    var nonce :- n.result;
    var _ :- Need(nonce != [], MalformedInput);
    var (key, rest) :- TakeKey(n.rest, algorithm, limits);
    Success((Header(algorithm, nonce, key), rest))
  }

  function TakePrincipals(s: Bytes, count: nat, limits: Limits): Result<seq<Bytes>>
    decreases |s|
  {
    if s == [] then Success([])
    else if count == limits.maxPrincipals then Failure(ResourceLimit)
    else
      var t := TakeString(s, 256);
      var principal :- t.result;
      var _ :- Need(AsciiNonempty(principal), MalformedInput);
      var more :- TakePrincipals(t.rest, count + 1, limits);
      Success([principal] + more)
  }

  datatype Identity = Identity(serial: nat, keyId: Bytes, principals: seq<Bytes>)

  function TakeIdentity(s: Bytes, limits: Limits): (r: Result<(Identity, Bytes)>)
    ensures r.Success? ==> |r.value.1| <= |s|
  {
    var n := TakeInteger(s, 8, MalformedInput);
    var c := TakeInteger(n.rest, 4, MalformedInput);
    var k := TakeString(c.rest, 1024);
    var p := TakeString(k.rest, limits.maxCertificateBytes);
    var serial :- n.result;
    var class_ :- c.result;
    var keyId :- k.result;
    var principalBlob :- p.result;
    var _ :- Need(class_ == 1, MalformedInput);
    var principals :- TakePrincipals(principalBlob, 0, limits);
    var _ :- Need(|principals| == 1, MalformedInput);
    Success((Identity(serial, keyId, principals), p.rest))
  }

  datatype Terms = Terms(after: nat, before: nat, extensions: Bytes, signatureKey: Bytes)

  function TakeTerms(s: Bytes, limits: Limits): (r: Result<(Terms, Bytes)>)
    ensures r.Success? ==> |r.value.1| <= |s|
  {
    var a := TakeInteger(s, 8, MalformedInput);
    var b := TakeInteger(a.rest, 8, MalformedInput);
    var o := TakeString(b.rest, limits.maxCertificateBytes);
    var e := TakeString(o.rest, limits.maxCertificateBytes);
    var z := TakeString(e.rest, limits.maxCertificateBytes);
    var k := TakeString(z.rest, limits.maxCertificateBytes);
    var after :- a.result;
    var before :- b.result;
    var options :- o.result;
    var extensions :- e.result;
    var reserved :- z.result;
    var signatureKey :- k.result;
    var _ :- Need(before != UINT64_LIMIT - 1 && after < before, MalformedInput);
    var _ :- Need(options == [], MalformedInput);
    var _ :- Need(reserved == [], MalformedInput);
    Success((Terms(after, before, extensions, signatureKey), k.rest))
  }

  /** The state of the extension loop. */
  datatype Extensions = Extensions(previous: Bytes, token: Bytes, permissions: seq<Bytes>, count: nat)

  /** One extension: name and data are both read, then judged together. */
  function TakeExtension(s: Bytes, x: Extensions, limits: Limits): Result<(Extensions, Bytes)> {
    var _ :- Need(x.count != limits.maxExtensions, ResourceLimit);
    var n := TakeString(s, limits.maxNameBytes);
    var d := TakeString(n.rest, limits.maxCertificateBytes);
    var name :- n.result;
    var data :- d.result;
    var next :- JudgeExtension(name, data, x, limits);
    Success((next, d.rest))
  }

  function JudgeExtension(name: Bytes, data: Bytes, x: Extensions, limits: Limits): Result<Extensions> {
    var _ :- Need(AsciiNonempty(name) && (x.previous == [] || Less(x.previous, name)), MalformedInput);
    if name == CARRIER then
      var _ :- Need(x.token == [], MalformedInput);
      var token :- ParseCarrier(data, limits);
      Success(Extensions(name, token, x.permissions, x.count + 1))
    else
      var _ :- Need(AllowedPermission(name) && data == [], MalformedInput);
      Success(Extensions(name, x.token, x.permissions + [name], x.count + 1))
  }

  function ParseCarrier(data: Bytes, limits: Limits): Result<Bytes> {
    var t := TakeString(data, limits.maxTokenBytes);
    var token :- t.result;
    var _ :- Need(token != [] && t.rest == [], MalformedInput);
    Success(token)
  }

  lemma TakeExtensionShrinks(s: Bytes, x: Extensions, limits: Limits)
    ensures var t := TakeExtension(s, x, limits); t.Success? ==> |t.value.1| < |s|
  {
    hide JudgeExtension, Power256, FromBytes;
  }

  function TakeExtensions(s: Bytes, x: Extensions, limits: Limits): Result<Extensions>
    decreases |s|
  {
    if s == [] then Success(x)
    else
      TakeExtensionShrinks(s, x, limits);
      var (next, rest) :- TakeExtension(s, x, limits);
      TakeExtensions(rest, next, limits)
  }

  const NO_EXTENSIONS := Extensions([], [], [], 0)

  function ParseKeyBlob(blob: Bytes, a: Algorithm, limits: Limits): Result<()> {
    var n := TakeString(blob, limits.maxNameBytes);
    var name :- n.result;
    var _ :- Need(name == KeyName(a), UnsupportedAlgorithm);
    if a.Es256? then
      var c := TakeString(n.rest, limits.maxNameBytes);
      var p := TakeString(c.rest, 65);
      var curve :- c.result;
      var point :- p.result;
      var _ :- Need(curve == CURVE, UnsupportedAlgorithm);
      Need(ValidKey(point, Es256) && p.rest == [], MalformedInput)
    else
      var k := TakeString(n.rest, 32);
      var key :- k.result;
      Need(ValidKey(key, Ed25519) && k.rest == [], MalformedInput)
  }

  function ParseSignature(signature: Bytes, a: Algorithm): Result<()> {
    if a.Es256? then
      var x := TakeString(signature, 33);
      var y := TakeString(x.rest, 33);
      var first :- x.result;
      var second :- y.result;
      Need(PositiveMpint(first) && PositiveMpint(second) && y.rest == [], MalformedInput)
    else
      Need(|signature| == 64, MalformedInput)
  }

  function ParseSignatureBlob(blob: Bytes, a: Algorithm, limits: Limits): Result<(Bytes, Bytes)> {
    var n := TakeString(blob, limits.maxNameBytes);
    var g := TakeString(n.rest, 256);
    var name :- n.result;
    var signature :- g.result;
    var _ :- Need(g.rest == [], MalformedInput);
    var _ :- Need(name == KeyName(a), UnsupportedAlgorithm);
    var _ :- ParseSignature(signature, a);
    Success((name, signature))
  }

  /** Everything behind the signature key: the signature blob and nothing else. */
  function ParseTail(s: Bytes, a: Algorithm, limits: Limits): Result<(Bytes, Bytes)> {
    var g := TakeString(s, 512);
    var blob :- g.result;
    var _ :- Need(g.rest == [], MalformedInput);
    ParseSignatureBlob(blob, a, limits)
  }

  datatype Signed = Signed(header: Header, identity: Identity, terms: Terms, extensions: Extensions)

  /** Everything in front of the signature. */
  function TakeSigned(blob: Bytes, limits: Limits): (r: Result<(Signed, Bytes)>)
    ensures r.Success? ==> |r.value.1| <= |blob|
  {
    var (h, s1) :- TakeHeader(blob, limits);
    var (i, s2) :- TakeIdentity(s1, limits);
    var (t, s3) :- TakeTerms(s2, limits);
    var x :- TakeExtensions(t.extensions, NO_EXTENSIONS, limits);
    var _ :- Need(x.token != [], MalformedInput);
    var _ :- ParseKeyBlob(t.signatureKey, h.algorithm, limits);
    Success((Signed(h, i, t, x), s3))
  }

  function Assemble(s: Signed, name: Bytes, signature: Bytes, signedBytes: Bytes): Certificate {
    Certificate(s.header.algorithm, s.header.key, s.identity.serial, s.identity.keyId, s.identity.principals,
                s.terms.after, s.terms.before, s.extensions.permissions, s.extensions.token,
                s.terms.signatureKey, name, signature, signedBytes)
  }

  /** The certificate and its nonce, which the source reads and drops. */
  function ParseCertificate(blob: Bytes, limits: Limits): Result<(Certificate, Bytes)> {
    var _ :- Need(ValidLimits(limits), ResourceLimit);
    var _ :- Need(|blob| <= limits.maxCertificateBytes, ResourceLimit);
    var (signed, rest) :- TakeSigned(blob, limits);
    var (name, signature) :- ParseTail(rest, signed.header.algorithm, limits);
    Success((Assemble(signed, name, signature, blob[..|blob| - |rest|]), signed.header.nonce))
  }

  // ---- decoding what was encoded

  lemma TakeKeyOf(a: Algorithm, key: Bytes, rest: Bytes, limits: Limits)
    requires ValidKey(key, a) && |TypeName(a)| <= limits.maxNameBytes
    ensures TakeKey(KeyOctets(a, key, rest), a, limits) == Success((key, rest))
  {
    hide Frame32, TakeString;
    NameSizes();
    if a.Es256? {
      TakeStringOf(CURVE, Frame32(key) + rest, limits.maxNameBytes);
      TakeStringOf(key, rest, 65);
    } else {
      TakeStringOf(key, rest, 32);
    }
  }

  lemma TakeHeaderOf(a: Algorithm, nonce: Bytes, key: Bytes, rest: Bytes, limits: Limits)
    requires ValidKey(key, a) && |TypeName(a)| <= limits.maxNameBytes && 0 < |nonce| <= 1024
    ensures TakeHeader(HeaderOctets(a, nonce, key, rest), limits) == Success((Header(a, nonce, key), rest))
  {
    hide Frame32, TakeString, TakeKey;
    NameSizes();
    TakeStringOf(TypeName(a), Frame32(nonce) + KeyOctets(a, key, rest), limits.maxNameBytes);
    TakeStringOf(nonce, KeyOctets(a, key, rest), 1024);
    TakeKeyOf(a, key, rest, limits);
  }

  lemma TakeOnePrincipal(principal: Bytes, limits: Limits)
    requires |principal| <= 256 && AsciiNonempty(principal) && limits.maxPrincipals > 0
    ensures TakePrincipals(Frame32(principal), 0, limits) == Success([principal])
  {
    hide TakeString;
    TakeStringOf(principal, [], 256);
    assert Frame32(principal) + [] == Frame32(principal);
    assert TakePrincipals([], 1, limits) == Success([]);
    assert Frame32(principal) != [] && [principal] + [] == [principal];
  }

  lemma TakeIdentityOf(serial: nat, keyId: Bytes, principal: Bytes, rest: Bytes, limits: Limits)
    requires serial < UINT64_LIMIT && |keyId| <= 1024 && |principal| <= 256 && AsciiNonempty(principal)
    requires limits.maxPrincipals > 0 && 4 + |principal| <= limits.maxCertificateBytes
    ensures TakeIdentity(IdentityOctets(serial, keyId, principal, rest), limits)
         == Success((Identity(serial, keyId, [principal]), rest))
  {
    hide Frame32, TakeString, TakeInteger, TakePrincipals, Power256;
    PowerFacts();
    var blob := Frame32(principal);
    TakeIntegerOf(serial, 8, U32(1) + (Frame32(keyId) + (Frame32(blob) + rest)), MalformedInput);
    TakeIntegerOf(1, 4, Frame32(keyId) + (Frame32(blob) + rest), MalformedInput);
    TakeStringOf(keyId, Frame32(blob) + rest, 1024);
    TakeStringOf(blob, rest, limits.maxCertificateBytes);
    TakeOnePrincipal(principal, limits);
  }

  lemma TakeTermsOf(after: nat, before: nat, extensions: Bytes, signatureKey: Bytes, rest: Bytes, limits: Limits)
    requires after < before < UINT64_LIMIT - 1
    requires |extensions| <= limits.maxCertificateBytes && |signatureKey| <= limits.maxCertificateBytes
    requires limits.maxCertificateBytes < UINT32_LIMIT
    ensures TakeTerms(TermsOctets(after, before, extensions, signatureKey, rest), limits)
         == Success((Terms(after, before, extensions, signatureKey), rest))
  {
    hide Frame32, TakeString, TakeInteger, Power256;
    PowerFacts();
    var r3 := Frame32(signatureKey) + rest;
    var r2 := Frame32([]) + r3;
    var r1 := Frame32(extensions) + r2;
    var r0 := Frame32([]) + r1;
    TakeIntegerOf(after, 8, U64(before) + r0, MalformedInput);
    TakeIntegerOf(before, 8, r0, MalformedInput);
    TakeStringOf([], r1, limits.maxCertificateBytes);
    TakeStringOf(extensions, r2, limits.maxCertificateBytes);
    TakeStringOf([], r3, limits.maxCertificateBytes);
    TakeStringOf(signatureKey, rest, limits.maxCertificateBytes);
  }

  lemma PermissionIsAscii(name: Bytes)
    requires AllowedPermission(name)
    ensures AsciiNonempty(name)
  {
    if name == PERMIT_X11 {
    } else if name == PERMIT_AGENT {
    } else if name == PERMIT_PORT {
    } else if name == PERMIT_PTY {
    } else {
    }
  }

  lemma TakePermissionOf(name: Bytes, rest: Bytes, x: Extensions, limits: Limits)
    requires AllowedPermission(name) && Less(x.previous, name)
    requires x.count < limits.maxExtensions && limits.maxNameBytes >= 23
    ensures TakeExtension(Frame32(name) + (Frame32([]) + rest), x, limits)
         == Success((Extensions(name, x.token, x.permissions + [name], x.count + 1), rest))
  {
    hide Frame32, TakeString, JudgeExtension, AllowedPermission, Less;
    PermissionName(name);
    JudgePermission(name, x, limits);
    TakeStringOf(name, Frame32([]) + rest, limits.maxNameBytes);
    TakeStringOf([], rest, limits.maxCertificateBytes);
  }

  lemma PermissionName(name: Bytes)
    requires AllowedPermission(name)
    ensures |name| <= 23
  {
    NameSizes();
  }

  lemma JudgePermission(name: Bytes, x: Extensions, limits: Limits)
    requires AllowedPermission(name) && Less(x.previous, name)
    ensures JudgeExtension(name, [], x, limits)
         == Success(Extensions(name, x.token, x.permissions + [name], x.count + 1))
  {
    CarrierBeforePermissions(name);
    PermissionIsAscii(name);
    hide AllowedPermission, Less, AsciiNonempty;
  }

  lemma {:induction false} TakePermissionsOf(names: seq<Bytes>, x: Extensions, limits: Limits)
    requires Increasing(x.previous, names)
    requires forall i :: 0 <= i < |names| ==> AllowedPermission(names[i])
    requires x.count + |names| <= limits.maxExtensions && limits.maxNameBytes >= 23
    ensures var t := TakeExtensions(PermissionOctets(names), x, limits);
            t.Success? && t.value.token == x.token && t.value.permissions == x.permissions + names
    decreases |names|
  {
    hide Frame32, TakeExtension, Less, AllowedPermission;
    if names == [] {
      assert x.permissions + names == x.permissions;
    } else {
      var name, rest := names[0], PermissionOctets(names[1..]);
      TakePermissionOf(name, rest, x, limits);
      var next := Extensions(name, x.token, x.permissions + [name], x.count + 1);
      TakePermissionsOf(names[1..], next, limits);
      assert x.permissions + [name] + names[1..] == x.permissions + names;
      NotEmptyFrame(name, Frame32([]) + rest);
    }
  }

  lemma NotEmptyFrame(x: Bytes, rest: Bytes)
    ensures Frame32(x) + rest != []
  {
  }

  lemma CarrierIsAscii()
    ensures AsciiNonempty(CARRIER)
  {
  }

  lemma TakeExtensionsOf(token: Bytes, permissions: seq<Bytes>, limits: Limits)
    requires ValidLimits(limits) && limits.maxNameBytes >= 28
    requires 0 < |token| <= limits.maxTokenBytes && |token| + 4 <= limits.maxCertificateBytes
    requires Increasing(CARRIER, permissions) && |permissions| < limits.maxExtensions
    requires forall i :: 0 <= i < |permissions| ==> AllowedPermission(permissions[i])
    ensures var t := TakeExtensions(ExtensionOctets(token, permissions), NO_EXTENSIONS, limits);
            t.Success? && t.value.token == token && t.value.permissions == permissions
  {
    hide Frame32, TakeExtension, PermissionOctets;
    var rest := PermissionOctets(permissions);
    TakeCarrierOf(token, rest, limits);
    var next := Extensions(CARRIER, token, [], 1);
    NotEmptyFrame(CARRIER, Frame32(Frame32(token)) + rest);
    TakePermissionsOf(permissions, next, limits);
    assert [] + permissions == permissions;
  }

  lemma TakeCarrierOf(token: Bytes, rest: Bytes, limits: Limits)
    requires ValidLimits(limits) && limits.maxNameBytes >= 28
    requires 0 < |token| <= limits.maxTokenBytes && |token| + 4 <= limits.maxCertificateBytes
    ensures TakeExtension(Frame32(CARRIER) + (Frame32(Frame32(token)) + rest), NO_EXTENSIONS, limits)
         == Success((Extensions(CARRIER, token, [], 1), rest))
  {
    hide Frame32, TakeString, JudgeExtension;
    NameSizes();
    JudgeCarrier(token, limits);
    TakeStringOf(CARRIER, Frame32(Frame32(token)) + rest, limits.maxNameBytes);
    TakeStringOf(Frame32(token), rest, limits.maxCertificateBytes);
  }

  lemma JudgeCarrier(token: Bytes, limits: Limits)
    requires 0 < |token| <= limits.maxTokenBytes <= 32768
    ensures JudgeExtension(CARRIER, Frame32(token), NO_EXTENSIONS, limits)
         == Success(Extensions(CARRIER, token, [], 1))
  {
    CarrierIsAscii();
    hide TakeString, AsciiNonempty, Frame32;
    TakeStringOf(token, [], limits.maxTokenBytes);
    assert Frame32(token) + [] == Frame32(token);
  }

  lemma ParseKeyBlobOf(blob: Bytes, a: Algorithm, limits: Limits)
    requires IsKeyBlob(blob, a) && |TypeName(a)| <= limits.maxNameBytes
    ensures ParseKeyBlob(blob, a, limits) == Success(())
  {
    hide Frame32, TakeString, ValidKey;
    NameSizes();
    var key :| ValidKey(key, a) && blob == KeyBlob(a, key);
    TakeStringOf(KeyName(a), KeyOctets(a, key, []), limits.maxNameBytes);
    KeySize(key, a);
    if a.Es256? {
      TakeStringOf(CURVE, Frame32(key) + [], limits.maxNameBytes);
      TakeStringOf(key, [], 65);
    } else {
      TakeStringOf(key, [], 32);
    }
  }

  lemma KeySize(key: Bytes, a: Algorithm)
    requires ValidKey(key, a)
    ensures |key| == if a.Es256? then 65 else 32
  {
  }

  lemma ParseSignatureOf(signature: Bytes, a: Algorithm)
    requires IsSignature(signature, a)
    ensures ParseSignature(signature, a) == Success(()) && |signature| <= 74
  {
    hide TakeString, PositiveMpint;
    if a.Es256? {
      var r, s :| PositiveMpint(r) && |r| <= 33 && PositiveMpint(s) && |s| <= 33 && signature == EcdsaSignature(r, s);
      TakeStringOf(r, Frame32(s) + [], 33);
      TakeStringOf(s, [], 33);
    }
  }

  lemma ParseTailOf(name: Bytes, signature: Bytes, a: Algorithm, limits: Limits)
    requires name == KeyName(a) && IsSignature(signature, a) && |TypeName(a)| <= limits.maxNameBytes
    ensures ParseTail(Frame32(SignatureBlob(name, signature)) + [], a, limits) == Success((name, signature))
  {
    hide TakeString, ParseSignature;
    NameSizes();
    ParseSignatureOf(signature, a);
    TakeStringOf(SignatureBlob(name, signature), [], 512);
    TakeStringOf(name, Frame32(signature) + [], limits.maxNameBytes);
    TakeStringOf(signature, [], 256);
  }

  // ---- encoding what was decoded

  lemma TakeKeyInverse(s: Bytes, a: Algorithm, limits: Limits)
    ensures var t := TakeKey(s, a, limits);
            t.Success? ==> ValidKey(t.value.0, a) && s == KeyOctets(a, t.value.0, t.value.1)
  {
    hide Frame32, TakeString;
    if a.Es256? {
      TakeStringInverse(s, limits.maxNameBytes);
      TakeStringInverse(TakeString(s, limits.maxNameBytes).rest, 65);
    } else {
      TakeStringInverse(s, 32);
    }
  }

  lemma TakeHeaderInverse(s: Bytes, limits: Limits)
    ensures var t := TakeHeader(s, limits);
            t.Success? ==>
              var h := t.value.0;
              && |TypeName(h.algorithm)| <= limits.maxNameBytes && 0 < |h.nonce| <= 1024
              && ValidKey(h.key, h.algorithm)
              && s == HeaderOctets(h.algorithm, h.nonce, h.key, t.value.1)
  {
    hide Frame32, TakeString, TakeKey;
    var t := TakeHeader(s, limits);
    if t.Success? {
      var name := TakeString(s, limits.maxNameBytes);
      TakeStringInverse(s, limits.maxNameBytes);
      TakeStringInverse(name.rest, 1024);
      TakeKeyInverse(TakeString(name.rest, 1024).rest, t.value.0.algorithm, limits);
    }
  }

  lemma {:induction false} TakePrincipalsInverse(s: Bytes, count: nat, limits: Limits)
    ensures var t := TakePrincipals(s, count, limits);
            t.Success? && |t.value| == 1 ==>
              s == Frame32(t.value[0]) && |t.value[0]| <= 256 && AsciiNonempty(t.value[0])
  {
    hide Frame32, TakeString, AsciiNonempty;
    var t := TakePrincipals(s, count, limits);
    if t.Success? && |t.value| == 1 {
      TakeStringInverse(s, 256);
      var first := TakeString(s, 256);
      var more := TakePrincipals(first.rest, count + 1, limits);
      assert more.value == [];
      NoPrincipals(first.rest, count + 1, limits);
      assert s == Frame32(t.value[0]) + [];
    }
  }

  lemma NoPrincipals(s: Bytes, count: nat, limits: Limits)
    requires TakePrincipals(s, count, limits) == Success([])
    ensures s == []
  {
  }

  lemma TakeIdentityInverse(s: Bytes, limits: Limits)
    ensures var t := TakeIdentity(s, limits);
            t.Success? ==>
              var i := t.value.0;
              && i.serial < UINT64_LIMIT && |i.keyId| <= 1024
              && |i.principals| == 1 && |i.principals[0]| <= 256 && AsciiNonempty(i.principals[0])
              && s == IdentityOctets(i.serial, i.keyId, i.principals[0], t.value.1)
  {
    hide Frame32, TakeString, TakeInteger, TakePrincipals, AsciiNonempty, Power256;
    PowerFacts();
    var t := TakeIdentity(s, limits);
    if t.Success? {
      var n := TakeInteger(s, 8, MalformedInput);
      var c := TakeInteger(n.rest, 4, MalformedInput);
      var k := TakeString(c.rest, 1024);
      var p := TakeString(k.rest, limits.maxCertificateBytes);
      TakeIntegerInverse(s, 8, MalformedInput);
      TakeIntegerInverse(n.rest, 4, MalformedInput);
      TakeStringInverse(c.rest, 1024);
      TakeStringInverse(k.rest, limits.maxCertificateBytes);
      TakePrincipalsInverse(p.result.value, 0, limits);
    }
  }

  lemma TakeTermsInverse(s: Bytes, limits: Limits)
    ensures var t := TakeTerms(s, limits);
            t.Success? ==>
              var terms := t.value.0;
              && terms.after < terms.before < UINT64_LIMIT - 1
              && s == TermsOctets(terms.after, terms.before, terms.extensions, terms.signatureKey, t.value.1)
  {
    hide Frame32, TakeString, TakeInteger, Power256;
    PowerFacts();
    var t := TakeTerms(s, limits);
    if t.Success? {
      var a := TakeInteger(s, 8, MalformedInput);
      var b := TakeInteger(a.rest, 8, MalformedInput);
      var o := TakeString(b.rest, limits.maxCertificateBytes);
      var e := TakeString(o.rest, limits.maxCertificateBytes);
      var z := TakeString(e.rest, limits.maxCertificateBytes);
      TakeIntegerInverse(s, 8, MalformedInput);
      TakeIntegerInverse(a.rest, 8, MalformedInput);
      TakeStringInverse(b.rest, limits.maxCertificateBytes);
      TakeStringInverse(o.rest, limits.maxCertificateBytes);
      TakeStringInverse(e.rest, limits.maxCertificateBytes);
      TakeStringInverse(z.rest, limits.maxCertificateBytes);
    }
  }

  lemma TakeExtensionInverse(s: Bytes, x: Extensions, limits: Limits)
    ensures var t := TakeExtension(s, x, limits);
            t.Success? ==>
              var y := t.value.0;
              && x.count != limits.maxExtensions && y.count == x.count + 1
              && y.previous != [] && (x.previous == [] || Less(x.previous, y.previous))
              && (if y.previous == CARRIER then
                    && x.token == [] && 0 < |y.token| <= limits.maxTokenBytes && y.permissions == x.permissions
                    && s == Frame32(CARRIER) + (Frame32(Frame32(y.token)) + t.value.1)
                  else
                    && AllowedPermission(y.previous) && y.token == x.token
                    && y.permissions == x.permissions + [y.previous]
                    && s == Frame32(y.previous) + (Frame32([]) + t.value.1))
  {
    hide Frame32, TakeString, JudgeExtension, Less, AllowedPermission;
    var t := TakeExtension(s, x, limits);
    if t.Success? {
      var n := TakeString(s, limits.maxNameBytes);
      var d := TakeString(n.rest, limits.maxCertificateBytes);
      TakeStringInverse(s, limits.maxNameBytes);
      TakeStringInverse(n.rest, limits.maxCertificateBytes);
      JudgeInverse(n.result.value, d.result.value, x, limits);
    }
  }

  lemma JudgeInverse(name: Bytes, data: Bytes, x: Extensions, limits: Limits)
    ensures var t := JudgeExtension(name, data, x, limits);
            t.Success? ==>
              var y := t.value;
              && y.count == x.count + 1
              && y.previous == name != [] && (x.previous == [] || Less(x.previous, name))
              && (if name == CARRIER then
                    && x.token == [] && 0 < |y.token| <= limits.maxTokenBytes && y.permissions == x.permissions
                    && data == Frame32(y.token)
                  else
                    && AllowedPermission(name) && y.token == x.token && y.permissions == x.permissions + [name]
                    && data == [])
  {
    hide Frame32, TakeString, Less, AllowedPermission;
    TakeStringInverse(data, limits.maxTokenBytes);
    var t := JudgeExtension(name, data, x, limits);
    if t.Success? && name == CARRIER {
      assert data == Frame32(t.value.token) + [];
    }
  }

  /** Once something at or above the carrier has been seen, only permissions follow. */
  ghost predicate PastCarrier(x: Extensions) {
    x.previous == CARRIER || AllowedPermission(x.previous)
  }

  lemma AfterCarrier(x: Extensions, name: Bytes)
    requires PastCarrier(x) && Less(x.previous, name)
    ensures name != CARRIER && x.previous != []
  {
    LessIrreflexive(CARRIER);
    if AllowedPermission(x.previous) {
      CarrierBeforePermissions(x.previous);
    }
    NameSizes();
  }

  lemma {:induction false} TakePermissionsInverse(s: Bytes, x: Extensions, limits: Limits) returns (names: seq<Bytes>)
    requires PastCarrier(x) && TakeExtensions(s, x, limits).Success? && x.count <= limits.maxExtensions
    ensures var y := TakeExtensions(s, x, limits).value;
            && y.token == x.token && y.permissions == x.permissions + names
            && s == PermissionOctets(names) && Increasing(x.previous, names)
            && (forall i :: 0 <= i < |names| ==> AllowedPermission(names[i]))
            && x.count + |names| <= limits.maxExtensions
    decreases |s|
  {
    hide Frame32, TakeExtension, Less, AllowedPermission;
    names := [];
    if s == [] {
      assert x.permissions + names == x.permissions;
    } else {
      TakeExtensionShrinks(s, x, limits);
      var t := TakeExtension(s, x, limits).value;
      TakeExtensionInverse(s, x, limits);
      PastCarrierNonempty(x);
      AfterCarrier(x, t.0.previous);
      var more := TakePermissionsInverse(t.1, t.0, limits);
      names := [t.0.previous] + more;
      assert names[1..] == more;
      assert x.permissions + [t.0.previous] + more == x.permissions + names;
    }
  }

  lemma PastCarrierNonempty(x: Extensions)
    requires PastCarrier(x)
    ensures x.previous != []
  {
    NameSizes();
  }

  /** Accepted extensions are the carrier first and then an increasing choice of the five
      permissions; a permission in front of the carrier leaves the token empty. */
  lemma TakeExtensionsInverse(s: Bytes, limits: Limits)
    requires limits.maxExtensions > 0
    ensures var t := TakeExtensions(s, NO_EXTENSIONS, limits);
            t.Success? && t.value.token != [] ==>
              && s == ExtensionOctets(t.value.token, t.value.permissions)
              && |t.value.token| <= limits.maxTokenBytes
              && Increasing(CARRIER, t.value.permissions) && |t.value.permissions| < limits.maxExtensions
              && forall i :: 0 <= i < |t.value.permissions| ==> AllowedPermission(t.value.permissions[i])
  {
    hide Frame32, TakeExtension, Less, AllowedPermission;
    var t := TakeExtensions(s, NO_EXTENSIONS, limits);
    if t.Success? && t.value.token != [] {
      var first := TakeExtension(s, NO_EXTENSIONS, limits).value;
      TakeExtensionInverse(s, NO_EXTENSIONS, limits);
      var names := TakePermissionsInverse(first.1, first.0, limits);
      assert t.value.token == first.0.token && t.value.permissions == first.0.permissions + names;
      assert first.0.previous == CARRIER;
      assert [] + names == names;
    }
  }

  lemma ParseKeyBlobInverse(blob: Bytes, a: Algorithm, limits: Limits)
    requires ParseKeyBlob(blob, a, limits).Success?
    ensures IsKeyBlob(blob, a)
  {
    hide Frame32, TakeString, ValidKey;
    var n := TakeString(blob, limits.maxNameBytes);
    TakeStringInverse(blob, limits.maxNameBytes);
    if a.Es256? {
      var c := TakeString(n.rest, limits.maxNameBytes);
      TakeStringInverse(n.rest, limits.maxNameBytes);
      TakeStringInverse(c.rest, 65);
      assert blob == KeyBlob(a, TakeString(c.rest, 65).result.value);
    } else {
      TakeStringInverse(n.rest, 32);
      assert blob == KeyBlob(a, TakeString(n.rest, 32).result.value);
    }
  }

  lemma ParseSignatureInverse(signature: Bytes, a: Algorithm)
    requires ParseSignature(signature, a).Success?
    ensures IsSignature(signature, a)
  {
    hide Frame32, TakeString, PositiveMpint;
    if a.Es256? {
      var x := TakeString(signature, 33);
      var y := TakeString(x.rest, 33);
      TakeStringInverse(signature, 33);
      TakeStringInverse(x.rest, 33);
      assert signature == EcdsaSignature(x.result.value, y.result.value);
    }
  }

  lemma ParseTailInverse(s: Bytes, a: Algorithm, limits: Limits)
    ensures var t := ParseTail(s, a, limits);
            t.Success? ==>
              && t.value.0 == KeyName(a) && IsSignature(t.value.1, a)
              && s == Frame32(SignatureBlob(t.value.0, t.value.1)) + []
  {
    hide Frame32, TakeString, ParseSignature, IsSignature;
    var t := ParseTail(s, a, limits);
    if t.Success? {
      TakeStringInverse(s, 512);
      var blob := TakeString(s, 512).result.value;
      TakeStringInverse(blob, limits.maxNameBytes);
      TakeStringInverse(TakeString(blob, limits.maxNameBytes).rest, 256);
      ParseSignatureInverse(t.value.1, a);
    }
  }

  // ---- whole certificates

  /** The fields in front of the signature, decoded from their octets. */
  lemma TakeSignedOf(c: Certificate, nonce: Bytes, rest: Bytes, limits: Limits)
    requires ValidLimits(limits) && |TypeName(c.algorithm)| <= limits.maxNameBytes
    requires 0 < |nonce| <= 1024 && ValidKey(c.certifiedKey, c.algorithm) && IsKeyBlob(c.signatureKey, c.algorithm)
    requires WellFormedIdentity(c) && WellFormedTerms(c, limits)
    requires 4 + |c.principals[0]| <= limits.maxCertificateBytes && 4 + |c.token| <= limits.maxCertificateBytes
    requires |ExtensionOctets(c.token, c.permissions)| <= limits.maxCertificateBytes
    requires |c.signatureKey| <= limits.maxCertificateBytes
    ensures var t := TakeSigned(SignedOctets(c, nonce, rest), limits);
            && t.Success? && t.value.1 == rest && t.value.0.header.nonce == nonce
            && t.value.0.header.algorithm == c.algorithm
            && Assemble(t.value.0, c.signatureAlgorithm, c.signature, c.signedBytes) == c
  {
    hide Frame32, TakeHeader, TakeIdentity, TakeTerms, TakeExtensions, ParseKeyBlob,
         HeaderOctets, IdentityOctets, TermsOctets, ExtensionOctets, IsKeyBlob, AllowedPermission,
         Increasing, AsciiNonempty, ValidKey;
    NameSizes();
    var extensions := ExtensionOctets(c.token, c.permissions);
    var terms := TermsOctets(c.validAfter, c.validBefore, extensions, c.signatureKey, rest);
    var identity := IdentityOctets(c.serial, c.keyId, c.principals[0], terms);
    TakeHeaderOf(c.algorithm, nonce, c.certifiedKey, identity, limits);
    TakeIdentityOf(c.serial, c.keyId, c.principals[0], terms, limits);
    TakeTermsOf(c.validAfter, c.validBefore, extensions, c.signatureKey, rest, limits);
    TakeExtensionsOf(c.token, c.permissions, limits);
    ParseKeyBlobOf(c.signatureKey, c.algorithm, limits);
    assert [c.principals[0]] == c.principals;
  }

  lemma ParseOfEncode(c: Certificate, nonce: Bytes, limits: Limits)
    requires WellFormed(c, nonce, limits)
    ensures ParseCertificate(EncodeCertificate(c, nonce), limits) == Success((c, nonce))
  {
    hide Frame32, TakeSigned, ParseTail, SignedOctets, ExtensionOctets, IsKeyBlob, IsSignature, ValidKey,
         WellFormedTerms, AsciiNonempty;
    var tail := Frame32(SignatureBlob(c.signatureAlgorithm, c.signature)) + [];
    Sizes(c, nonce, limits);
    SignedOctetsPrefix(c, nonce, tail);
    TakeSignedOf(c, nonce, tail, limits);
    ParseTailOf(c.signatureAlgorithm, c.signature, c.algorithm, limits);
    var blob := EncodeCertificate(c, nonce);
    assert blob[..|blob| - |tail|] == c.signedBytes;
  }

  /** Every field fits the size of the whole. */
  lemma Sizes(c: Certificate, nonce: Bytes, limits: Limits)
    requires |c.principals| == 1 && |EncodeCertificate(c, nonce)| <= limits.maxCertificateBytes
    ensures 4 + |c.principals[0]| <= limits.maxCertificateBytes
    ensures |ExtensionOctets(c.token, c.permissions)| <= limits.maxCertificateBytes
    ensures |c.signatureKey| <= limits.maxCertificateBytes
    ensures 4 + |c.token| <= limits.maxCertificateBytes
  {
    hide PermissionOctets;
  }

  lemma TakeSignedInverse(blob: Bytes, limits: Limits, name: Bytes, signature: Bytes, signedBytes: Bytes)
    requires TakeSigned(blob, limits).Success? && limits.maxExtensions > 0
    ensures var (signed, rest) := TakeSigned(blob, limits).value;
            var c := Assemble(signed, name, signature, signedBytes);
            && |TypeName(c.algorithm)| <= limits.maxNameBytes && 0 < |signed.header.nonce| <= 1024
            && ValidKey(c.certifiedKey, c.algorithm) && IsKeyBlob(c.signatureKey, c.algorithm)
            && WellFormedIdentity(c) && WellFormedTerms(c, limits)
            && blob == SignedOctets(c, signed.header.nonce, rest)
  {
    hide Frame32, TakeHeader, TakeIdentity, TakeTerms, TakeExtensions, ParseKeyBlob,
         HeaderOctets, IdentityOctets, TermsOctets, ExtensionOctets, IsKeyBlob, AllowedPermission,
         Increasing, AsciiNonempty, ValidKey;
    TakeHeaderInverse(blob, limits);
    var (h, s1) := TakeHeader(blob, limits).value;
    TakeIdentityInverse(s1, limits);
    var (i, s2) := TakeIdentity(s1, limits).value;
    TakeTermsInverse(s2, limits);
    var (terms, s3) := TakeTerms(s2, limits).value;
    TakeExtensionsInverse(terms.extensions, limits);
    ParseKeyBlobInverse(terms.signatureKey, h.algorithm, limits);
  }

  lemma EncodeOfParse(blob: Bytes, limits: Limits)
    ensures var t := ParseCertificate(blob, limits);
            t.Success? ==>
              && |t.value.0.principals| == 1
              && WellFormed(t.value.0, t.value.1, limits) && EncodeCertificate(t.value.0, t.value.1) == blob
  {
    hide Frame32, TakeSigned, ParseTail, SignedOctets, IsKeyBlob, IsSignature, ValidKey, WellFormedTerms, AsciiNonempty;
    var t := ParseCertificate(blob, limits);
    if t.Success? {
      var (c, nonce) := t.value;
      var rest := TakeSigned(blob, limits).value.1;
      TakeSignedInverse(blob, limits, c.signatureAlgorithm, c.signature, c.signedBytes);
      ParseTailInverse(rest, c.algorithm, limits);
      SignedOctetsPrefix(c, nonce, rest);
      assert blob[..|blob| - |rest|] == SignedOctets(c, nonce, []);
    }
  }

  /** The codec inverts both ways: parsing accepts exactly the encodings of well-formed
      certificates and returns the certificate that was encoded. */
  lemma ParseIsInverseOfEncode(blob: Bytes, limits: Limits, c: Certificate)
    ensures (exists nonce :: ParseCertificate(blob, limits) == Success((c, nonce)))
       <==> (exists nonce :: WellFormed(c, nonce, limits) && EncodeCertificate(c, nonce) == blob)
  {
    hide ParseCertificate, WellFormedTerms, SignedOctets;
    EncodeOfParse(blob, limits);
    forall nonce | WellFormed(c, nonce, limits) && EncodeCertificate(c, nonce) == blob
      ensures ParseCertificate(blob, limits) == Success((c, nonce))
    {
      ParseOfEncode(c, nonce, limits);
    }
  }

  /** What is signed, followed by the framed signature, is the whole blob. */
  lemma SignedBytesAreThePrefix(blob: Bytes, limits: Limits)
    ensures var t := ParseCertificate(blob, limits);
            t.Success? ==>
              blob == t.value.0.signedBytes
                    + Frame32(SignatureBlob(t.value.0.signatureAlgorithm, t.value.0.signature))
  {
    EncodeOfParse(blob, limits);
    var t := ParseCertificate(blob, limits);
    if t.Success? {
      var c := t.value.0;
      var tail := Frame32(SignatureBlob(c.signatureAlgorithm, c.signature));
      SignedOctetsPrefix(c, t.value.1, tail + []);
      assert tail + [] == tail;
    }
  }
}
