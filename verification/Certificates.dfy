/** `parse_certificate` and its helpers in the form of the source: readers advanced in place.
    Several reads go on after an earlier one has failed; the error reported is always that of
    the first failing read. */
module Certificates {
  import opened Bytes
  import opened Errors
  import opened Cursor
  import opened CertificateFormat
  import opened CertificateParser

  method ReadKey(reader: Reader, a: Algorithm, limits: Limits) returns (r: Result<Bytes>)
    requires reader.Valid()
    modifies reader
    ensures reader.Valid()
    ensures match TakeKey(old(reader.Rest()), a, limits)
            case Success(t) => r == Success(t.0) && reader.Rest() == t.1
            case Failure(kind) => r == Failure(kind)
  {
    hide TakeString;
    if a.Es256? {
      var curve := reader.String(limits.maxNameBytes);
      var point := reader.String(65);
      if curve.Failure? || point.Failure? {
        return Failure(if curve.Failure? then curve.kind else point.kind);
      }
      if curve.value != CURVE || !ValidKey(point.value, Es256) {
        return Failure(if curve.value != CURVE then UnsupportedAlgorithm else MalformedInput);
      }
      r := point;
    } else {
      var key := reader.String(32);
      if key.Failure? {
        return key;
      }
      if |key.value| != 32 {
        return Failure(MalformedInput);
      }
      r := key;
    }
  }

  method ReadHeader(reader: Reader, limits: Limits) returns (r: Result<Header>)
    requires reader.Valid()
    modifies reader
    ensures reader.Valid()
    ensures match TakeHeader(old(reader.Rest()), limits)
            case Success(t) => r == Success(t.0) && reader.Rest() == t.1
            case Failure(kind) => r == Failure(kind)
  {
    hide TakeString, TakeKey;
    var name := reader.String(limits.maxNameBytes);
    if name.Failure? {
      return Failure(name.kind);
    }
    var algorithm;
    if name.value == ECDSA_CERTIFICATE {
      algorithm := Es256;
    } else if name.value == ED25519_CERTIFICATE {
      algorithm := Ed25519;
    } else {
      return Failure(UnsupportedAlgorithm);
    }
    var nonce := reader.String(1024);
    if nonce.Failure? || nonce.value == [] {
      return Failure(if nonce.Failure? then nonce.kind else MalformedInput);
    }
    var key := ReadKey(reader, algorithm, limits);
    if key.Failure? {
      return Failure(key.kind);
    }
    r := Success(Header(algorithm, nonce.value, key.value));
  }

  /** The principal loop, lines 272 to 286. */
  method ReadPrincipals(blob: Bytes, limits: Limits) returns (r: Result<seq<Bytes>>)
    ensures r == TakePrincipals(blob, 0, limits)
  {
    hide TakeString, AsciiNonempty, PrependAll, TakePrincipals;
    var reader := new Reader(blob);
    var principals: seq<Bytes> := [];
    var empty := reader.Empty();
    PrependNone(TakePrincipals(blob, 0, limits));
    while !empty
      invariant reader.Valid() && (empty <==> reader.Rest() == [])
      invariant TakePrincipals(blob, 0, limits)
             == PrependAll(principals, TakePrincipals(reader.Rest(), |principals|, limits))
      decreases |reader.Rest()|
    {
      ghost var before := reader.Rest();
      PrincipalStep(principals, before, limits);
      if |principals| == limits.maxPrincipals {
        return Failure(ResourceLimit);
      }
      var principal := reader.String(256);
      if principal.Failure? {
        return Failure(principal.kind);
      }
      if !AsciiNonempty(principal.value) {
        return Failure(MalformedInput);
      }
      StringShrinks(before, 256);
      PrependOne(principals, principal.value, TakePrincipals(reader.Rest(), |principals| + 1, limits));
      principals := principals + [principal.value];
      empty := reader.Empty();
    }
    PrincipalsEnd(principals, limits);
    r := Success(principals);
  }

  /** One more principal, or the failure of the whole field. */
  lemma PrincipalStep(principals: seq<Bytes>, s: Bytes, limits: Limits)
    requires s != []
    ensures var t, whole := TakeString(s, 256), PrependAll(principals, TakePrincipals(s, |principals|, limits));
            if |principals| == limits.maxPrincipals then whole == Failure(ResourceLimit)
            else if t.result.Failure? then whole == Failure(t.result.kind)
            else if !AsciiNonempty(t.result.value) then whole == Failure(MalformedInput)
            else whole == PrependAll(principals,
                                     PrependAll([t.result.value], TakePrincipals(t.rest, |principals| + 1, limits)))
  {
    hide TakeString, AsciiNonempty;
  }

  lemma PrincipalsEnd(principals: seq<Bytes>, limits: Limits)
    ensures PrependAll(principals, TakePrincipals([], |principals|, limits)) == Success(principals)
  {
    assert principals + [] == principals;
  }

  lemma StringShrinks(s: Bytes, maximum: nat)
    ensures var t := TakeString(s, maximum); t.result.Success? ==> |t.rest| < |s|
  {
    TakeStringInverse(s, maximum);
  }

  function PrependAll(x: seq<Bytes>, y: Result<seq<Bytes>>): Result<seq<Bytes>> {
    match y case Success(z) => Success(x + z) case Failure(kind) => Failure(kind)
  }

  lemma PrependNone(y: Result<seq<Bytes>>)
    ensures PrependAll([], y) == y
  {
    if y.Success? {
      assert [] + y.value == y.value;
    }
  }

  lemma PrependOne(x: seq<Bytes>, p: Bytes, y: Result<seq<Bytes>>)
    ensures PrependAll(x, PrependAll([p], y)) == PrependAll(x + [p], y)
  {
    if y.Success? {
      assert x + ([p] + y.value) == (x + [p]) + y.value;
    }
  }

  /** Lines 258 to 289: four reads, then the checks. */
  method ReadIdentity(reader: Reader, limits: Limits) returns (r: Result<Identity>)
    requires reader.Valid()
    modifies reader
    ensures reader.Valid()
    ensures match TakeIdentity(old(reader.Rest()), limits)
            case Success(t) => r == Success(t.0) && reader.Rest() == t.1
            case Failure(kind) => r == Failure(kind)
  {
    hide TakeString, TakeInteger, TakePrincipals;
    var serial := reader.Integer(8, MalformedInput);
    var certificateClass := reader.Integer(4, MalformedInput);
    var keyId := reader.String(1024);
    var principalBlob := reader.String(limits.maxCertificateBytes);
    if serial.Failure? { return Failure(serial.kind); }
    if certificateClass.Failure? { return Failure(certificateClass.kind); }
    if keyId.Failure? { return Failure(keyId.kind); }
    if principalBlob.Failure? { return Failure(principalBlob.kind); }
    if certificateClass.value != 1 {
      return Failure(MalformedInput);
    }
    var principals := ReadPrincipals(principalBlob.value, limits);
    if principals.Failure? {
      return Failure(principals.kind);
    }
    if |principals.value| != 1 {
      return Failure(MalformedInput);
    }
    r := Success(Identity(serial.value, keyId.value, principals.value));
  }

  /** Lines 291 to 315: six reads, then the checks. */
  method ReadTerms(reader: Reader, limits: Limits) returns (r: Result<Terms>)
    requires reader.Valid()
    modifies reader
    ensures reader.Valid()
    ensures match TakeTerms(old(reader.Rest()), limits)
            case Success(t) => r == Success(t.0) && reader.Rest() == t.1
            case Failure(kind) => r == Failure(kind)
  {
    hide TakeString, TakeInteger;
    var after := reader.Integer(8, MalformedInput);
    var before := reader.Integer(8, MalformedInput);
    var options := reader.String(limits.maxCertificateBytes);
    var extensions := reader.String(limits.maxCertificateBytes);
    var reserved := reader.String(limits.maxCertificateBytes);
    var signatureKey := reader.String(limits.maxCertificateBytes);
    if after.Failure? { return Failure(after.kind); }
    if before.Failure? { return Failure(before.kind); }
    if options.Failure? { return Failure(options.kind); }
    if extensions.Failure? { return Failure(extensions.kind); }
    if reserved.Failure? { return Failure(reserved.kind); }
    if signatureKey.Failure? { return Failure(signatureKey.kind); }
    if before.value == UINT64_LIMIT - 1 || after.value >= before.value {
      return Failure(MalformedInput);
    }
    if options.value != [] {
      return Failure(MalformedInput);
    }
    if reserved.value != [] {
      return Failure(MalformedInput);
    }
    r := Success(Terms(after.value, before.value, extensions.value, signatureKey.value));
  }

  /** The extension loop, lines 317 to 358. The loop invariant is what makes the test for a
      second carrier dead code: names increase, and nothing above the carrier equals it. */
  method ReadExtensions(blob: Bytes, limits: Limits) returns (r: Result<Extensions>)
    ensures r == TakeExtensions(blob, NO_EXTENSIONS, limits)
  {
    hide TakeString, Less, AllowedPermission, AsciiNonempty;
    var reader := new Reader(blob);
    var x := NO_EXTENSIONS;
    var empty := reader.Empty();
    while !empty
      invariant reader.Valid() && (empty <==> reader.Rest() == [])
      invariant TakeExtensions(blob, NO_EXTENSIONS, limits) == TakeExtensions(reader.Rest(), x, limits)
      invariant x.token != [] ==> PastCarrier(x)
      decreases |reader.Rest()|
    {
      TakeExtensionShrinks(reader.Rest(), x, limits);
      if x.count == limits.maxExtensions {
        return Failure(ResourceLimit);
      }
      var name := reader.String(limits.maxNameBytes);
      var data := reader.String(limits.maxCertificateBytes);
      if name.Failure? || data.Failure? {
        return Failure(if name.Failure? then name.kind else data.kind);
      }
      var next := AdmitExtension(name.value, data.value, x, limits);
      if next.Failure? {
        return Failure(next.kind);
      }
      x := next.value;
      empty := reader.Empty();
    }
    r := Success(x);
  }

  /** The body of the loop behind the two reads. */
  method AdmitExtension(name: Bytes, data: Bytes, x: Extensions, limits: Limits) returns (r: Result<Extensions>)
    requires x.token != [] ==> PastCarrier(x)
    ensures r == JudgeExtension(name, data, x, limits)
    ensures r.Success? && r.value.token != [] ==> PastCarrier(r.value)
  {
    hide TakeString, Less, AllowedPermission, AsciiNonempty;
    if !AsciiNonempty(name) || (x.previous != [] && !Less(x.previous, name)) {
      return Failure(MalformedInput);
    }
    if name == CARRIER {
      if x.token != [] {
        AfterCarrierAbsent(x, name);
        assert false;
      }
      var token := ReadCarrier(data, limits);
      if token.Failure? {
        return Failure(token.kind);
      }
      r := Success(Extensions(name, token.value, x.permissions, x.count + 1));
    } else {
      if !AllowedPermission(name) || data != [] {
        return Failure(MalformedInput);
      }
      r := Success(Extensions(name, x.token, x.permissions + [name], x.count + 1));
    }
  }

  lemma AfterCarrierAbsent(x: Extensions, name: Bytes)
    requires PastCarrier(x) && (x.previous == [] || Less(x.previous, name))
    ensures name != CARRIER
  {
    hide Less, AllowedPermission;
    PastCarrierNonempty(x);
    AfterCarrier(x, name);
  }

  method ReadCarrier(data: Bytes, limits: Limits) returns (r: Result<Bytes>)
    ensures r == ParseCarrier(data, limits)
  {
    hide TakeString;
    var reader := new Reader(data);
    var token := reader.String(limits.maxTokenBytes);
    if token.Failure? {
      return token;
    }
    var empty := reader.Empty();
    if token.value == [] || !empty {
      return Failure(MalformedInput);
    }
    r := token;
  }

  /** `parse_public_key_blob`. */
  method ReadKeyBlob(blob: Bytes, a: Algorithm, limits: Limits) returns (r: Result<()>)
    ensures r == ParseKeyBlob(blob, a, limits)
  {
    hide TakeString;
    var reader := new Reader(blob);
    var name := reader.String(limits.maxNameBytes);
    if name.Failure? {
      return Failure(name.kind);
    }
    if name.value != KeyName(a) {
      return Failure(UnsupportedAlgorithm);
    }
    if a.Es256? {
      var curve := reader.String(limits.maxNameBytes);
      var point := reader.String(65);
      if curve.Failure? || point.Failure? {
        return Failure(if curve.Failure? then curve.kind else point.kind);
      }
      if curve.value != CURVE {
        return Failure(UnsupportedAlgorithm);
      }
      var empty := reader.Empty();
      r := if !ValidKey(point.value, Es256) || !empty then Failure(MalformedInput) else Success(());
    } else {
      var key := reader.String(32);
      if key.Failure? {
        return Failure(key.kind);
      }
      var empty := reader.Empty();
      r := if |key.value| != 32 || !empty then Failure(MalformedInput) else Success(());
    }
  }

  /** `parse_signature_blob`. */
  method ReadSignatureBlob(blob: Bytes, a: Algorithm, limits: Limits) returns (r: Result<(Bytes, Bytes)>)
    ensures r == ParseSignatureBlob(blob, a, limits)
  {
    hide TakeString, PositiveMpint;
    var reader := new Reader(blob);
    var name := reader.String(limits.maxNameBytes);
    var signature := reader.String(256);
    if name.Failure? || signature.Failure? {
      return Failure(if name.Failure? then name.kind else signature.kind);
    }
    var empty := reader.Empty();
    if !empty {
      return Failure(MalformedInput);
    }
    if name.value != KeyName(a) {
      return Failure(UnsupportedAlgorithm);
    }
    if a.Es256? {
      var scalars := new Reader(signature.value);
      var first := scalars.String(33);
      var second := scalars.String(33);
      if first.Failure? || second.Failure? {
        return Failure(if first.Failure? then first.kind else second.kind);
      }
      empty := scalars.Empty();
      if !PositiveMpint(first.value) || !PositiveMpint(second.value) || !empty {
        return Failure(MalformedInput);
      }
    } else if |signature.value| != 64 {
      return Failure(MalformedInput);
    }
    r := Success((name.value, signature.value));
  }

  /** `parse_certificate`. Success means that the blob is the encoding of exactly the returned
      certificate, with some nonce; failure means that it encodes no well-formed one. */
  method Parse(blob: Bytes, limits: Limits) returns (r: Result<Certificate>)
    ensures match ParseCertificate(blob, limits)
            case Success(t) => r == Success(t.0)
            case Failure(kind) => r == Failure(kind)
    ensures forall c :: r == Success(c) <==>
      exists nonce :: WellFormed(c, nonce, limits) && EncodeCertificate(c, nonce) == blob
  {
    r := ReadCertificate(blob, limits);
    hide ParseCertificate, WellFormedTerms, SignedOctets;
    forall c
      ensures r == Success(c) <==> exists nonce :: WellFormed(c, nonce, limits) && EncodeCertificate(c, nonce) == blob
    {
      ParseIsInverseOfEncode(blob, limits, c);
    }
  }

  method ReadCertificate(blob: Bytes, limits: Limits) returns (r: Result<Certificate>)
    ensures match ParseCertificate(blob, limits)
            case Success(t) => r == Success(t.0)
            case Failure(kind) => r == Failure(kind)
  {
    hide TakeHeader, TakeIdentity, TakeTerms, TakeExtensions, ParseKeyBlob, ParseSignatureBlob, TakeString;
    if !ValidLimits(limits) {
      return Failure(ResourceLimit);
    }
    if |blob| > limits.maxCertificateBytes {
      return Failure(ResourceLimit);
    }
    var reader := new Reader(blob);
    var header := ReadHeader(reader, limits);
    if header.Failure? { return Failure(header.kind); }
    var identity := ReadIdentity(reader, limits);
    if identity.Failure? { return Failure(identity.kind); }
    var terms := ReadTerms(reader, limits);
    if terms.Failure? { return Failure(terms.kind); }
    var extensions := ReadExtensions(terms.value.extensions, limits);
    if extensions.Failure? { return Failure(extensions.kind); }
    if extensions.value.token == [] {
      return Failure(MalformedInput);
    }
    var algorithm := header.value.algorithm;
    var signatureKey := ReadKeyBlob(terms.value.signatureKey, algorithm, limits);
    if signatureKey.Failure? { return Failure(signatureKey.kind); }
    var signedLength := reader.offset;
    assert |reader.Rest()| == |blob| - signedLength;
    var signatureBlob := reader.String(512);
    if signatureBlob.Failure? { return Failure(signatureBlob.kind); }
    var empty := reader.Empty();
    if !empty {
      return Failure(MalformedInput);
    }
    var signature := ReadSignatureBlob(signatureBlob.value, algorithm, limits);
    if signature.Failure? { return Failure(signature.kind); }
    r := Success(Certificate(algorithm, header.value.key, identity.value.serial, identity.value.keyId,
                             identity.value.principals, terms.value.after, terms.value.before,
                             extensions.value.permissions, extensions.value.token, terms.value.signatureKey,
                             signature.value.0, signature.value.1, blob[..signedLength]));
  }
}
