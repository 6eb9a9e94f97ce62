/** What an issuer's token is accepted for: the checks of `src/issuer_verifier.cpp` as conditions on the octets and
    documents that were received. */
module IssuerAcceptance {
  import opened Bytes
  import opened Errors
  import opened JsonTrees
  import opened Policies
  import Base64
  import Cursor
  import Gq
  import GqEvidence
  import GqTheorems
  import Issuers
  import Preimages
  import TreeBuilder

  // ---- documents

  /** The text is the unpadded encoding of the octets. */
  predicate Spells(text: Bytes, octets: Bytes, maximum: nat) {
    octets != [] && |octets| <= maximum && text == Base64.Encode(octets, Base64.UrlSafe)
  }

  /** The octets are the text of an object with these members, within the bounds of the issuer's parser. */
  ghost predicate IsObject(w: World, octets: Bytes, fields: map<string, Json>) {
    && |octets| <= 32768
    && exists root: Node ::
         && w.json(octets) == Document(root) && root.Record? && NamesFit(root, 256) && Depth(root) <= 32
         && MemberCount(root) <= 4096 && ValueCount(root) <= 4096 && Tree(root) == Object(fields)
  }

  lemma ObjectExactly(w: World, octets: Bytes, fields: map<string, Json>)
    ensures Issuers.ParseObject(w, octets) == Success(fields) <==> IsObject(w, octets, fields)
  {
    hide TreeBuilder.Parse, Events, NamesFit, Depth, MemberCount, ValueCount, Tree, TreeBuilder.Run;
    if w.json(octets).Document? {
      var root := w.json(octets).root;
      TreeBuilder.ParseAcceptsExactly(root, TreeBuilder.ISSUER_LIMITS);
      RecordsAreObjects(root);
    }
  }

  lemma RecordsAreObjects(n: Node)
    ensures n.Record? <==> Tree(n).Object?
  {
  }

  // ---- members

  predicate TextMember(fields: map<string, Json>, name: string, text: string) {
    name in fields && fields[name] == Value(Text(text))
  }

  lemma StringMemberExactly(fields: map<string, Json>, name: string, text: string)
    ensures StringMember(fields, name) == Some(text) <==> TextMember(fields, name, text)
  {
  }

  /** The array of these texts, none of them twice. */
  predicate IsTextSet(j: Json, texts: seq<string>) {
    && j.Array? && |j.elements| == |texts|
    && (forall i :: 0 <= i < |texts| ==> j.elements[i] == Value(Text(texts[i])))
    && forall i, k :: 0 <= i < k < |texts| ==> texts[i] != texts[k]
  }

  /** A text among the allowed ones, or a set of texts with an allowed one in it. */
  ghost predicate Addresses(aud: Json, allowed: set<string>) {
    || (exists a :: a in allowed && aud == Value(Text(a)))
    || exists texts: seq<string>, i: nat :: IsTextSet(aud, texts) && i < |texts| && texts[i] in allowed
  }

  lemma TextsOf(elements: seq<Json>)
    requires AllStrings(elements)
    ensures forall i :: 0 <= i < |elements| ==> elements[i] == Value(Text(StringsOf(elements)[i]))
  {
    forall i | 0 <= i < |elements| ensures elements[i] == Value(Text(StringsOf(elements)[i])) {
      assert elements[i] in elements;
    }
  }

  lemma TextSetExactly(j: Json, texts: seq<string>)
    ensures IsTextSet(j, texts) <==>
              j.Array? && AllStrings(j.elements) && StringsOf(j.elements) == texts && Unrepeated(texts)
  {
    if IsTextSet(j, texts) {
      forall e | e in j.elements ensures StringOf(e).Some? {
        var i :| 0 <= i < |j.elements| && j.elements[i] == e;
        assert e == Value(Text(texts[i]));
      }
      assert forall i :: 0 <= i < |texts| ==> StringOf(j.elements[i]) == Some(texts[i]);
      assert StringsOf(j.elements) == texts;
    }
    if j.Array? && AllStrings(j.elements) && StringsOf(j.elements) == texts {
      TextsOf(j.elements);
    }
  }

  lemma AudienceExactly(aud: Json, allowed: set<string>)
    ensures Issuers.AudienceAllowed(aud, allowed) <==> Addresses(aud, allowed)
  {
    hide IsTextSet, Unrepeated;
    if StringOf(aud).Some? {
      assert aud == Value(Text(StringOf(aud).value));
      forall texts: seq<string> | IsTextSet(aud, texts) ensures false {
        TextSetExactly(aud, texts);
      }
    } else if aud.Array? && AllStrings(aud.elements) {
      var texts := StringsOf(aud.elements);
      TextSetExactly(aud, texts);
      if Issuers.AudienceAllowed(aud, allowed) {
        var e :| e in aud.elements && StringOf(e).value in allowed;
        var i: nat :| i < |aud.elements| && aud.elements[i] == e;
        assert IsTextSet(aud, texts) && texts[i] in allowed;
      }
      forall other: seq<string>, i: nat | IsTextSet(aud, other) && i < |other| && other[i] in allowed
        ensures Issuers.AudienceAllowed(aud, allowed)
      {
        TextSetExactly(aud, other);
        assert aud.elements[i] in aud.elements;
      }
    } else {
      forall texts: seq<string> | IsTextSet(aud, texts) ensures false {
        TextSetExactly(aud, texts);
      }
    }
  }

  /** The claim of a required predicate, operation by operation. */
  ghost predicate Meets(claims: Claims, p: Predicate) {
    && p.claim != "" && p.claim in claims
    && match p.operation
       case StringEquals => claims[p.claim] == Value(Text(p.value))
       case StringOneOf => exists v :: v in p.values && claims[p.claim] == Value(Text(v))
       case StringArrayContains => claims[p.claim].Array? && Value(Text(p.value)) in claims[p.claim].elements
  }

  lemma MeetsExactly(claims: Claims, p: Predicate)
    ensures Issuers.PredicateMatches(claims, p) <==> Meets(claims, p)
  {
    if p.claim in claims && p.operation == StringArrayContains && claims[p.claim].Array? {
      forall e | e in claims[p.claim].elements ensures StringOf(e) == Some(p.value) <==> e == Value(Text(p.value)) {
      }
    }
    if p.claim in claims && p.operation == StringOneOf && StringOf(claims[p.claim]).Some? {
      assert claims[p.claim] == Value(Text(StringOf(claims[p.claim]).value));
    }
  }

  // ---- whom the token is for

  /** The token is bound to the commitment as its profile says. */
  ghost predicate Bound(binding: string, commitment: string, audiences: set<string>, claims: Claims) {
    && "aud" in claims
    && (binding == "oidc-nonce-v1" ==> TextMember(claims, "nonce", commitment) && Addresses(claims["aud"], audiences))
    && (binding == "credbind-claim-v1" ==>
          TextMember(claims, "https://credbind.dev/commitment", commitment) && Addresses(claims["aud"], audiences))
    && (binding == "audience-v1" ==>
          claims["aud"] == Value(Text(commitment)) || claims["aud"] == Array([Value(Text(commitment))]))
  }

  /** Issued by the issuer, bound to the commitment, for a party and with claims that the policy asks for. */
  ghost predicate Identified(binding: string, commitment: string, policy: IssuerPolicy, claims: Claims) {
    && TextMember(claims, "iss", policy.issuer)
    && Bound(binding, commitment, policy.audiences, claims)
    && (policy.authorizedParties != {} ==> exists p :: p in policy.authorizedParties && TextMember(claims, "azp", p))
    && forall p :: p in policy.requiredClaims ==> Meets(claims, p)
  }

  lemma OnlyAudienceExactly(aud: Json, commitment: string)
    ensures Issuers.ExactAudience(aud, commitment) <==>
              aud == Value(Text(commitment)) || aud == Array([Value(Text(commitment))])
  {
    if aud.Array? && |aud.elements| == 1 {
      assert aud.elements == [aud.elements[0]];
    }
  }

  lemma BoundExactly(binding: string, commitment: string, policy: IssuerPolicy, claims: Claims)
    requires binding in {"oidc-nonce-v1", "audience-v1", "credbind-claim-v1"}
    ensures Issuers.CheckBinding(binding, commitment, policy, claims).Success? <==>
              Bound(binding, commitment, policy.audiences, claims)
    ensures Issuers.CheckBinding(binding, commitment, policy, claims).Failure? ==>
              Issuers.CheckBinding(binding, commitment, policy, claims).kind
              == if binding == "audience-v1" || !TextMember(claims, BindingClaim(binding), commitment) then
                   BindingInvalid
                 else IssuerClaimsInvalid
  {
    hide Issuers.AudienceAllowed, Issuers.ExactAudience, Addresses;
    StringMemberExactly(claims, "nonce", commitment);
    StringMemberExactly(claims, "https://credbind.dev/commitment", commitment);
    if "aud" in claims {
      AudienceExactly(claims["aud"], policy.audiences);
      OnlyAudienceExactly(claims["aud"], commitment);
    }
  }

  /** The claim that carries the commitment. */
  function BindingClaim(binding: string): string {
    if binding == "oidc-nonce-v1" then "nonce" else "https://credbind.dev/commitment"
  }

  lemma IdentifiedExactly(binding: string, commitment: string, policy: IssuerPolicy, claims: Claims)
    requires binding in {"oidc-nonce-v1", "audience-v1", "credbind-claim-v1"}
    ensures Issuers.CheckIdentity(binding, commitment, policy, claims).Success? <==>
              Identified(binding, commitment, policy, claims)
    ensures var r := Issuers.CheckIdentity(binding, commitment, policy, claims);
            r.Failure? ==>
              r.kind == if && TextMember(claims, "iss", policy.issuer)
                           && !Bound(binding, commitment, policy.audiences, claims)
                           && (binding == "audience-v1" || !TextMember(claims, BindingClaim(binding), commitment)) then
                          BindingInvalid
                        else IssuerClaimsInvalid
  {
    hide Issuers.CheckBinding, Bound, Issuers.PredicateMatches, Meets;
    StringMemberExactly(claims, "iss", policy.issuer);
    BoundExactly(binding, commitment, policy, claims);
    if StringMember(claims, "azp").Some? {
      StringMemberExactly(claims, "azp", StringMember(claims, "azp").value);
    }
    forall p | p in policy.authorizedParties && TextMember(claims, "azp", p)
      ensures StringMember(claims, "azp") == Some(p)
    {
      StringMemberExactly(claims, "azp", p);
    }
    forall p | p in policy.requiredClaims ensures Issuers.PredicateMatches(claims, p) <==> Meets(claims, p) {
      MeetsExactly(claims, p);
    }
  }

  // ---- which evidence authenticates it

  /** The policy is in order and permits the two profiles. */
  ghost predicate Permits(policy: IssuerPolicy, evidenceProfile: string, binding: string) {
    && |policy.issuer| >= 9 && policy.issuer[..8] == "https://" && policy.audiences != {}
    && policy.issuerAlgorithms != {} && policy.skew >= 0 && policy.maximumAge >= 0
    && evidenceProfile in policy.evidenceProfiles && evidenceProfile in {"standard-jws-v1", "gq-rs256-v1"}
    && (policy.requireNonReconstructible ==> evidenceProfile == "gq-rs256-v1")
    && binding in policy.bindingProfiles && binding in {"oidc-nonce-v1", "audience-v1", "credbind-claim-v1"}
    && forall p :: p in policy.requiredClaims ==>
         && p.claim != "" && (p.operation != StringOneOf ==> p.values == [])
         && (p.operation == StringOneOf ==>
               && p.value == "" && p.values != [] && "" !in p.values
               && forall i, k :: 0 <= i < k < |p.values| ==> p.values[i] != p.values[k])
  }

  lemma PermitsExactly(policy: IssuerPolicy, evidenceProfile: string, binding: string)
    ensures Issuers.ValidatePolicy(evidenceProfile, binding, policy).Success? <==>
              Permits(policy, evidenceProfile, binding)
  {
  }

  /** The encoded header names RS256 and this key, and carries no key reference and no critical parameter. */
  ghost predicate Names(w: World, encoded: Bytes, kid: string) {
    exists octets: Bytes, fields: map<string, Json> ::
      && Spells(encoded, octets, 32768) && IsObject(w, octets, fields)
      && "jku" !in fields && "x5u" !in fields && "jwk" !in fields && "x5c" !in fields && "crit" !in fields
      && TextMember(fields, "alg", "RS256") && TextMember(fields, "kid", kid) && kid != ""
  }

  lemma NamesExactly(w: World, input: Issuers.Input, policy: IssuerPolicy, encoded: Bytes, kid: string)
    ensures Issuers.CheckHeader(w, input, policy, encoded) == Success(Issuers.Header("RS256", kid)) <==>
              Names(w, encoded, kid) && "RS256" in policy.issuerAlgorithms
    ensures Issuers.CheckHeader(w, input, policy, encoded).Success? ==>
              Issuers.CheckHeader(w, input, policy, encoded).value.algorithm == "RS256"
  {
    hide Base64.DecodeBounded, Issuers.ParseObject, IsObject, Base64.Encode;
    var decoded := Base64.DecodeBounded(encoded, 32768);
    if decoded.Success? {
      Base64.DecodeBoundedIsCanonical(encoded, 32768, decoded.value);
      var parsed := Issuers.ParseObject(w, decoded.value);
      if parsed.Success? {
        ObjectExactly(w, decoded.value, parsed.value);
        StringMemberExactly(parsed.value, "alg", "RS256");
        StringMemberExactly(parsed.value, "kid", kid);
      }
    }
    forall octets: Bytes, fields: map<string, Json> | Spells(encoded, octets, 32768) && IsObject(w, octets, fields)
      ensures decoded == Success(octets) && Issuers.ParseObject(w, octets) == Success(fields)
    {
      Base64.DecodeBoundedIsCanonical(encoded, 32768, octets);
      ObjectExactly(w, octets, fields);
    }
  }

  /** Header and signature text, each behind its 64-bit length; the signature is that of header and payload. */
  ghost predicate StandardProof(w: World, evidence: Bytes, payload: Bytes, header: Bytes,
                                key: GqEvidence.RsaPublicKey)
  {
    && 0 < |header| <= 32768
    && exists text: Bytes, signature: Bytes ::
         && evidence == Frame64(header) + Frame64(text) && Spells(text, signature, 1024)
         && w.rs256(header + [46] + payload, signature, key).Success?
  }

  /** The octets of a proof of knowledge of the issuer's signature, bound to the commitment. */
  ghost predicate KnowledgeProof(w: World, evidence: Bytes, s: GqEvidence.Statement, header: Bytes,
                                 key: GqEvidence.RsaPublicKey)
  {
    exists p: GqEvidence.Proof ::
      evidence == GqEvidence.EncodeProof(p) && p.header == header && GqTheorems.Proves(w.sha256, s, key, p)
  }

  lemma FramesRead(header: Bytes, text: Bytes)
    requires 0 < |header| <= 32768 && 0 < |text| <= 32768
    ensures var evidence := Frame64(header) + Frame64(text);
            && Cursor.TakeValue(evidence, 32768, MalformedInput) == Cursor.Taken(Success(header), Frame64(text))
            && Cursor.TakeValue(Frame64(text), 32768, MalformedInput) == Cursor.Taken(Success(text), [])
  {
    hide Frame64, Cursor.TakeValue;
    Cursor.TakeValueOf(header, Frame64(text), 32768, MalformedInput);
    Cursor.TakeValueOf(text, [], 32768, MalformedInput);
    assert Frame64(text) + [] == Frame64(text);
  }

  lemma SpelledSize(text: Bytes, octets: Bytes)
    requires Spells(text, octets, 1024)
    ensures 0 < |text| <= 32768
  {
    hide Base64.Encode;
    Base64.EncodeLength(octets, Base64.UrlSafe);
  }

  lemma StandardIsRead(evidence: Bytes, header: Bytes, signature: Bytes)
    ensures Issuers.ParseStandard(evidence) == Success((header, signature)) <==>
              && 0 < |header| <= 32768
              && exists text: Bytes :: evidence == Frame64(header) + Frame64(text) && Spells(text, signature, 1024)
  {
    hide Frame64, Cursor.TakeValue, Base64.DecodeBounded, Spells;
    if Issuers.ParseStandard(evidence) == Success((header, signature)) {
      Cursor.TakeValueInverse(evidence, 32768, MalformedInput);
      var first := Cursor.TakeValue(evidence, 32768, MalformedInput);
      Cursor.TakeValueInverse(first.rest, 32768, MalformedInput);
      var text := Cursor.TakeValue(first.rest, 32768, MalformedInput).result.value;
      assert Frame64(text) + [] == Frame64(text);
      SpellsExactly(text, signature);
      assert evidence == Frame64(header) + Frame64(text);
    }
    forall text: Bytes
      | 0 < |header| <= 32768 && evidence == Frame64(header) + Frame64(text) && Spells(text, signature, 1024)
      ensures Issuers.ParseStandard(evidence) == Success((header, signature))
    {
      SpelledSize(text, signature);
      FramesRead(header, text);
      SpellsExactly(text, signature);
    }
  }

  lemma SpellsExactly(text: Bytes, octets: Bytes)
    ensures Base64.DecodeBounded(text, 1024) == Success(octets) <==> Spells(text, octets, 1024)
  {
    hide Base64.DecodeBounded, Base64.Encode;
    Base64.DecodeBoundedIsCanonical(text, 1024, octets);
  }

  lemma StandardExactly(w: World, evidence: Bytes, payload: Bytes, header: Bytes, key: GqEvidence.RsaPublicKey)
    ensures StandardProof(w, evidence, payload, header, key) <==>
              var read := Issuers.ParseStandard(evidence);
              && read.Success? && read.value.0 == header
              && w.rs256(header + Ascii(".") + payload, read.value.1, key).Success?
  {
    hide Issuers.ParseStandard, Spells, Frame64;
    assert Ascii(".") == [46];
    var read := Issuers.ParseStandard(evidence);
    if read.Success? {
      StandardIsRead(evidence, read.value.0, read.value.1);
    }
    forall text: Bytes, signature: Bytes |
        0 < |header| <= 32768 && evidence == Frame64(header) + Frame64(text) && Spells(text, signature, 1024)
      ensures read == Success((header, signature))
    {
      StandardIsRead(evidence, header, signature);
    }
  }

  /** The issuer finds the header of any accepted proof where the proof has it. */
  lemma KnowledgeExactly(w: World, evidence: Bytes, s: GqEvidence.Statement, header: Bytes,
                         key: GqEvidence.RsaPublicKey)
    requires |evidence| <= 16384
    ensures KnowledgeProof(w, evidence, s, header, key) <==>
              Issuers.GqHeader(evidence) == Success(header) && Issuers.VerifyGq(w, s, evidence, key).Success?
  {
    hide GqTheorems.Proves, Gq.ProofAccepted, GqEvidence.EncodeProof, Cursor.TakeValue, Issuers.VerifyGq;
    Issuers.VerifyGqAccepts(w, s, evidence, key);
    forall p: GqEvidence.Proof
      ensures Gq.ProofAccepted(w.sha256, s, key, p) <==> GqTheorems.Proves(w.sha256, s, key, p)
    {
      GqTheorems.AcceptedExactly(w.sha256, s, key, p);
    }
    forall p: GqEvidence.Proof | Gq.ProofAccepted(w.sha256, s, key, p)
      ensures Cursor.TakeValue(GqEvidence.EncodeProof(p), 32768, MalformedInput).result == Success(p.header)
    {
      AcceptedIsWellFormed(w.sha256, s, key, p);
      GqEvidence.IssuerReadsTheBoundHeader(key, p);
    }
  }

  lemma AcceptedIsWellFormed(H: GqEvidence.Sha256, s: GqEvidence.Statement, key: GqEvidence.RsaPublicKey,
                             p: GqEvidence.Proof)
    requires Gq.ProofAccepted(H, s, key, p)
    ensures GqEvidence.Eligible(key) && GqEvidence.WellFormed(p, key.Modulus())
  {
    hide GqEvidence.Eligible, GqEvidence.WellFormed, Gq.RoundAccepted, GqEvidence.RsaPublicKey.Modulus;
  }

  /** The payload is these claims, and the evidence of its profile holds for the key that the header names. */
  ghost predicate Authentic(w: World, input: Issuers.Input, policy: IssuerPolicy, keys: Keys, claims: Claims,
                            kid: string)
  {
    var payload := Octets(input.payload);
    && |input.evidence| <= 16384 && Permits(policy, input.evidenceProfile, input.binding)
    && "RS256" in policy.issuerAlgorithms && kid in keys
    && (exists octets: Bytes :: Spells(payload, octets, 32768) && IsObject(w, octets, claims))
    && exists header: Bytes :: Names(w, header, kid) && ProofHolds(w, input, policy, header, keys[kid])
  }

  ghost predicate ProofHolds(w: World, input: Issuers.Input, policy: IssuerPolicy, header: Bytes,
                             key: GqEvidence.RsaPublicKey)
  {
    var payload := Octets(input.payload);
    var statement := GqEvidence.Statement(payload, Octets(input.commitment), Octets(policy.issuer));
    if input.evidenceProfile == "standard-jws-v1" then StandardProof(w, input.evidence, payload, header, key)
    else KnowledgeProof(w, input.evidence, statement, header, key)
  }

  lemma ProofExactly(w: World, input: Issuers.Input, policy: IssuerPolicy, header: Bytes, key: GqEvidence.RsaPublicKey)
    requires |input.evidence| <= 16384
    ensures ProofHolds(w, input, policy, header, key) <==>
              var read := Issuers.ReadEvidence(input);
              && read.Success? && read.value.0 == header
              && Issuers.CheckEvidence(w, input, policy, header, read.value.1, key).Success?
  {
    hide StandardProof, KnowledgeProof, Issuers.ParseStandard, Issuers.GqHeader, Issuers.VerifyGq;
    var payload := Octets(input.payload);
    StandardExactly(w, input.evidence, payload, header, key);
    KnowledgeExactly(w, input.evidence, GqEvidence.Statement(payload, Octets(input.commitment), Octets(policy.issuer)),
                     header, key);
  }

  lemma PayloadExactly(w: World, text: Bytes, claims: Claims)
    ensures (exists octets: Bytes :: Spells(text, octets, 32768) && IsObject(w, octets, claims)) <==>
              var decoded := Base64.DecodeBounded(text, 32768);
              decoded.Success? && Issuers.ParseObject(w, decoded.value) == Success(claims)
  {
    hide Base64.DecodeBounded, Base64.Encode, IsObject, Issuers.ParseObject;
    var decoded := Base64.DecodeBounded(text, 32768);
    if decoded.Success? {
      Base64.DecodeBoundedIsCanonical(text, 32768, decoded.value);
      ObjectExactly(w, decoded.value, claims);
    }
    forall octets: Bytes | Spells(text, octets, 32768) && IsObject(w, octets, claims)
      ensures decoded == Success(octets) && Issuers.ParseObject(w, octets) == Success(claims)
    {
      Base64.DecodeBoundedIsCanonical(text, 32768, octets);
      ObjectExactly(w, octets, claims);
    }
  }

  lemma AuthenticExactly(w: World, input: Issuers.Input, policy: IssuerPolicy, keys: Keys, claims: Claims, kid: string)
    ensures Issuers.Authenticate(w, input, policy, keys) == Success((claims, kid)) <==>
              Authentic(w, input, policy, keys, claims, kid)
  {
    hide Base64.DecodeBounded, Issuers.ParseObject, Issuers.ValidatePolicy, Issuers.ReadEvidence, Issuers.CheckHeader,
         Issuers.CheckEvidence, Permits, Spells, IsObject, Names, ProofHolds;
    PermitsExactly(policy, input.evidenceProfile, input.binding);
    PayloadExactly(w, Octets(input.payload), claims);
    var read := Issuers.ReadEvidence(input);
    if read.Success? {
      NamesExactly(w, input, policy, read.value.0, kid);
    }
    if |input.evidence| <= 16384 && kid in keys {
      forall header: Bytes
        ensures ProofHolds(w, input, policy, header, keys[kid]) <==>
                  && read.Success? && read.value.0 == header
                  && Issuers.CheckEvidence(w, input, policy, header, read.value.1, keys[kid]).Success?
      {
        ProofExactly(w, input, policy, header, keys[kid]);
      }
    }
    forall header: Bytes | Names(w, header, kid) ensures kid != "" {
      NamedIsNotEmpty(w, header, kid);
    }
  }

  lemma NamedIsNotEmpty(w: World, header: Bytes, kid: string)
    requires Names(w, header, kid)
    ensures kid != ""
  {
    hide Spells, IsObject;
  }

  // ---- when it is valid

  /** The number that was written, when a double holds it exactly. */
  predicate Whole(j: Json, n: int) {
    && -9007199254740991 <= n <= 9007199254740991
    && (j == Value(Signed(n)) || (n >= 0 && j == Value(Unsigned(n))) || j == Value(Float(n as real)))
  }

  predicate NumberMember(claims: Claims, name: string, n: int) {
    name in claims && Whole(claims[name], n)
  }

  lemma NumberExactly(claims: Claims, name: string, n: int)
    ensures Issuers.IntegerClaim(claims, name) == Some(n) <==> NumberMember(claims, name, n)
  {
    if name in claims && claims[name].Value? && claims[name].scalar.Float? {
      var x := claims[name].scalar.number;
      if x == n as real {
        assert x.Floor == n;
      }
    }
  }

  /** At this time, with the policy's skew, a credential with these dates is valid, and valid until then. */
  ghost predicate Dated(now: int, policy: IssuerPolicy, claims: Claims, issued: int, expires: int, until: int) {
    && Int64(now + policy.skew) && Int64(now - policy.skew)
    && issued <= now + policy.skew && now - policy.skew < expires
    && ("nbf" in claims ==> exists begins: int :: NumberMember(claims, "nbf", begins) && begins <= now + policy.skew)
    && (policy.maximumAge == 0 ==> until == expires)
    && (policy.maximumAge > 0 ==>
          && Int64(issued + policy.maximumAge) && now - policy.skew < issued + policy.maximumAge
          && until == if issued + policy.maximumAge < expires then issued + policy.maximumAge else expires)
  }

  ghost predicate ValidAt(now: int, policy: IssuerPolicy, claims: Claims, until: int) {
    exists issued: int, expires: int ::
      && NumberMember(claims, "iat", issued) && NumberMember(claims, "exp", expires)
      && Dated(now, policy, claims, issued, expires, until)
  }

  lemma AddExactly(now: int, right: int, kind: Kind)
    requires Int64(now) && Int64(right)
    ensures Issuers.CheckedAdd(now, right, kind) == if Int64(now + right) then Success(now + right) else Failure(kind)
  {
  }

  lemma BeginsExactly(claims: Claims, latest: int)
    ensures ("nbf" in claims ==> exists begins: int :: NumberMember(claims, "nbf", begins) && begins <= latest) <==>
              var nbf := Issuers.IntegerClaim(claims, "nbf");
              ("nbf" in claims ==> nbf.Some?) && (nbf.Some? ==> nbf.value <= latest)
  {
    hide Issuers.IntegerClaim, NumberMember;
    var nbf := Issuers.IntegerClaim(claims, "nbf");
    if nbf.Some? {
      NumberExactly(claims, "nbf", nbf.value);
      NumberIsThere(claims, "nbf", nbf.value);
    }
    forall begins: int | NumberMember(claims, "nbf", begins) ensures nbf == Some(begins) {
      NumberExactly(claims, "nbf", begins);
    }
  }

  lemma NumberIsThere(claims: Claims, name: string, n: int)
    requires NumberMember(claims, name, n)
    ensures name in claims
  {
  }

  lemma DatedExactly(now: int, policy: IssuerPolicy, claims: Claims, issued: int, expires: int, until: int)
    requires Int64(now) && 0 <= policy.skew <= INT64_MAXIMUM && 0 <= policy.maximumAge <= INT64_MAXIMUM
    requires NumberMember(claims, "iat", issued) && NumberMember(claims, "exp", expires)
    ensures Issuers.CheckDates(now, policy, claims) == Success(until) <==>
              Dated(now, policy, claims, issued, expires, until)
  {
    hide Issuers.IntegerClaim, Issuers.CheckedAdd, NumberMember;
    NumberExactly(claims, "iat", issued);
    NumberExactly(claims, "exp", expires);
    NumberInRange(claims, "iat", issued);
    AddExactly(now, policy.skew, IssuerClaimsInvalid);
    AddExactly(now, -policy.skew, IssuerClaimsInvalid);
    AddExactly(issued, policy.maximumAge, IssuerClaimsInvalid);
    BeginsExactly(claims, now + policy.skew);
  }

  lemma ValidExactly(now: int, policy: IssuerPolicy, claims: Claims, until: int)
    requires Int64(now) && 0 <= policy.skew <= INT64_MAXIMUM && 0 <= policy.maximumAge <= INT64_MAXIMUM
    ensures Issuers.CheckDates(now, policy, claims) == Success(until) <==> ValidAt(now, policy, claims, until)
  {
    hide Issuers.IntegerClaim, NumberMember, Dated, Issuers.CheckDates;
    var iat, exp := Issuers.IntegerClaim(claims, "iat"), Issuers.IntegerClaim(claims, "exp");
    if iat.Some? && exp.Some? {
      NumberExactly(claims, "iat", iat.value);
      NumberExactly(claims, "exp", exp.value);
      DatedExactly(now, policy, claims, iat.value, exp.value, until);
    } else {
      DatesNeeded(now, policy, claims);
    }
    forall issued: int, expires: int | NumberMember(claims, "iat", issued) && NumberMember(claims, "exp", expires)
      ensures iat == Some(issued) && exp == Some(expires)
    {
      NumberExactly(claims, "iat", issued);
      NumberExactly(claims, "exp", expires);
    }
  }

  lemma DatesNeeded(now: int, policy: IssuerPolicy, claims: Claims)
    requires Issuers.IntegerClaim(claims, "iat").None? || Issuers.IntegerClaim(claims, "exp").None?
    ensures Issuers.CheckDates(now, policy, claims).Failure?
  {
    hide Issuers.IntegerClaim;
  }

  lemma NumberInRange(claims: Claims, name: string, n: int)
    requires NumberMember(claims, name, n)
    ensures Int64(n)
  {
  }

  // ---- the whole token

  /** What an accepted token gives. */
  ghost predicate Yields(w: World, input: Issuers.Input, policy: IssuerPolicy, claims: Claims,
                         r: Issuers.VerificationResult)
  {
    && r.issuer == policy.issuer && r.binding == input.binding
    && (forall n :: n in r.claims <==> n in claims && n in policy.admittedClaims)
    && (forall n :: n in r.claims ==> r.claims[n] == claims[n])
    && r.digest
       == w.sha256(Preimages.Encode(
            Preimages.Evidence(Octets(input.evidenceProfile), Octets(input.payload), input.evidence)))
  }

  lemma AuthenticIsPermitted(w: World, input: Issuers.Input, policy: IssuerPolicy, keys: Keys, claims: Claims,
                             kid: string)
    requires Authentic(w, input, policy, keys, claims, kid)
    ensures Permits(policy, input.evidenceProfile, input.binding)
  {
    hide Permits, Spells, IsObject, Names, ProofHolds;
  }

  lemma ResultExactly(w: World, input: Issuers.Input, policy: IssuerPolicy, keys: Keys, claims: Claims, kid: string,
                      r: Issuers.VerificationResult)
    requires Int64(input.now) && policy.skew <= INT64_MAXIMUM && policy.maximumAge <= INT64_MAXIMUM
    requires Issuers.Authenticate(w, input, policy, keys) == Success((claims, kid))
    ensures Issuers.Verify(w, input, policy, keys) == Success(r) <==>
              && r.keyId == kid && Identified(input.binding, input.commitment, policy, claims)
              && ValidAt(input.now, policy, claims, r.validUntil) && Yields(w, input, policy, claims, r)
  {
    hide Issuers.Authenticate, Authentic, Issuers.CheckIdentity, Identified, Issuers.CheckDates, ValidAt,
         Preimages.Encode;
    AuthenticExactly(w, input, policy, keys, claims, kid);
    AuthenticIsPermitted(w, input, policy, keys, claims, kid);
    IdentifiedExactly(input.binding, input.commitment, policy, claims);
    ValidExactly(input.now, policy, claims, r.validUntil);
    if Yields(w, input, policy, claims, r) {
      assert r.claims == Issuers.Admitted(claims, policy.admittedClaims);
    }
  }

  /** A token is accepted with a result if and only if its evidence authenticates the claims, they identify what the
      policy asks for, bound to the commitment, the time is right, and the result is what they say. */
  lemma VerifyExactly(w: World, input: Issuers.Input, policy: IssuerPolicy, keys: Keys, r: Issuers.VerificationResult)
    requires Int64(input.now) && policy.skew <= INT64_MAXIMUM && policy.maximumAge <= INT64_MAXIMUM
    ensures Issuers.Verify(w, input, policy, keys) == Success(r) <==>
              exists claims: Claims ::
                && Authentic(w, input, policy, keys, claims, r.keyId)
                && Identified(input.binding, input.commitment, policy, claims)
                && ValidAt(input.now, policy, claims, r.validUntil)
                && Yields(w, input, policy, claims, r)
  {
    hide Issuers.Authenticate, Authentic, Issuers.CheckIdentity, Identified, Issuers.CheckDates, ValidAt,
         Preimages.Encode;
    var a := Issuers.Authenticate(w, input, policy, keys);
    if a.Success? {
      AuthenticExactly(w, input, policy, keys, a.value.0, a.value.1);
      ResultExactly(w, input, policy, keys, a.value.0, a.value.1, r);
    }
    forall claims: Claims | Authentic(w, input, policy, keys, claims, r.keyId)
      ensures a == Success((claims, r.keyId))
    {
      AuthenticExactly(w, input, policy, keys, claims, r.keyId);
    }
  }
}
