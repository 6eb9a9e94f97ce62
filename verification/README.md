# Model of the CredBind SSH verifier

The repository is an offline verifier behind the `AuthorizedKeysCommand` of OpenSSH: it takes an
OpenSSH certificate that carries a token, and prints one `cert-authority` line when exactly one
trusted issuer vouches for the caller. This project models its seven cores in Dafny and proves what
they promise. `dafny verify dfyconfig.toml` checks everything.

| files | what they model |
|---|---|
| `Errors`, `Bytes`, `Decimals`, `Cursor`, `NumberTheory` | error kinds, octets and integers, the bounds-checked readers, modular arithmetic |
| `Preimages`, `GqEvidence`, `Gq`, `GqTheorems` | what is hashed, the Guillou-Quisquater evidence, its verifier, soundness and completeness |
| `CertificateFormat`, `CertificateParser`, `Certificates` | the certificate encoder, the parser as a function, the parser as the source writes it |
| `JsonTrees`, `TreeBuilder`, `Writings`, `CoreEnvelope` | documents, events and trees; the tree-building handlers; documents that write one tree; the envelope handler |
| `Base64`, `Base64Letters`, `Utf8`, `Durations` | the codecs, what the letters spell, and the bounded arithmetic |
| `Policies`, `Issuers`, `Carriers`, `TimeWindow` | typed policies, issuer claims, tokens and carriers, the times a carrier is accepted |
| `IssuerAcceptance`, `CarrierAcceptance` | what tokens and carriers are accepted for, as conditions on the octets received |
| `Configurations`, `ClaimFiltering` | the configuration schema, admitted claims |
| `PolicyMeaning`, `ConfigurationMeaning`, `InitializerMeaning` | what the members of a configuration, a whole configuration and the initializer's options mean |
| `OrderedTrees`, `Printing`, `Initializer`, `InitializerBounds` | ordered trees, what the JSON library prints and what is read back, the canonical initializer, what its caller can check beforehand |
| `Publication`, `PublicationCalls` | atomic publication with failing calls and other processes at work; its system calls in order |
| `Audit`, `Pipeline` | audit events and their bound; one `verify` command over every clock trace |
| `AuthorizedKeys`, `PrintedLines` | a reader of authorized keys lines, and what it makes of the output |
| `AuditReading`, `LoggedEvents` | a reader of log lines, and what it makes of the events |

Conventions. A `std::string` is a `string` with one character an octet, or an octet sequence where
the source does arithmetic on it. OpenSSL integers are natural numbers, SHA-256 is any function to 32
octets, signature checks are any functions. Machine integers are unbounded with their limits written
out. Loops and objects of the source are methods and classes proved against functions; the theorems
are about those functions.

How the main functions are pinned. Each acceptance decision has a predicate beside it that speaks of what was
received and of the result only, and a lemma that the function succeeds with a result exactly when the predicate
holds: `GqTheorems.AcceptedExactly`, `IssuerAcceptance.VerifyExactly`, `CarrierAcceptance.CarrierExactly`,
`ConfigurationMeaning.ValidateExactly`, `InitializerMeaning.InitialExactly`. What is printed and logged is read back by
readers of the two formats: `PrintedLines.PrintedIsRead`, `LoggedEvents.LoggedIsRead`. `PrintedLines.AllowsAccepted`
puts the run on top of them.

What the proofs brought out:

- `publish` keeps its promise exactly when the target is not one of the names it would give its
  own temporary file (`.credbind-config-init.<pid>.<sequence>`, the next 64); otherwise the target
  itself is created empty. `Publication.SafeIffNotTemporary` is the equivalence.
- An error from `publish` does not mean that nothing was published. `Publication.ResultIsExact`
  says when it does not, `Publication.ErrorOverPublishedTarget` gives a run for every job.
- Two responses to one commitment reveal the RS256 signature when one of them is a unit and answers a
  challenge other than 0. A unit response to challenge 0 is not enough: `GqTheorems.EligibleKeyWithoutSignatures`
  gives keys the verifier admits for which a quarter of the messages have no signature at all.
- `config init` admits a cache directory that is not UTF-8 and then ends in its internal error, because
  the JSON library throws when it prints it: `InitializerBounds.WrittenExactly` says that this is the only
  such option, `InitializerBounds.BrokenOptions` is an input.
- A policy file that parses need not initialize: the settings add 14 members and 14 values to it.
  `InitializerBounds.RoomForSettings` says exactly when they still fit the parser's bounds,
  `InitializerBounds.CrowdedPolicyHasNoRoom` gives policies for which they do not. What is emitted is indented,
  and is refused when it is loaded exactly when that makes it longer than 1 MiB.
- A `verify` run is a function of its request, its traces and its policies. Clock and cancellation can hold
  a grant back and do nothing else (`Pipeline.DisturbanceOnlyDenies`).
- The three tree builders differ in one thing: `ObjectSax` reports a depth overflow with its default
  kind, the other two as a resource limit. `TreeBuilder.BuildersAgree` says exactly when that shows,
  `TreeBuilder.DepthKindsDiffer` is a document for which it does.
- Three checks never fire: the message against the modulus (`src/crypto.cpp:344`), the second carrier
  extension (`src/openssh_certificate.cpp:337`), the mismatch exits of `verify_token`
  (`src/direct_verifier.cpp:885-899`). The second audit attempt (`src/syslog_logger.cpp:330`) never
  changes a result.

## Model

| member | source | states |
|---|---|---|
| Cursor.Reader.Integer | src/openssh_certificate.cpp:40-65 | a big-endian integer, or a failure that consumes nothing; the offset never passes the end, whatever failed before |
| Cursor.Reader.String | src/openssh_certificate.cpp:66-86 | an SSH string; a length whose octets are missing or too many has been consumed when the read fails |
| Cursor.Reader.Value | src/crypto.cpp:160-173 | a non-empty value behind a 64-bit length, within the bound and the input |
| Cursor.TakeStringInverse | src/openssh_certificate.cpp:66-86 | whatever a string read returns and leaves is the input again, framed |
| Cursor.TakeValueInverse | src/crypto.cpp:160-173 | whatever a value read returns and leaves is the input again, framed |
| Preimages.EncodeInjective | src/crypto.cpp:348-373 | equal hash inputs have the same label and equal fields, lists included: no collision across or inside the six domains short of one of SHA-256 |
| Preimages.Buffer.AppendU32 | src/crypto.cpp:108-113 | appends exactly the four big-endian octets and touches nothing before them |
| Preimages.Buffer.AppendU64 | src/crypto.cpp:115-119 | appends exactly the eight big-endian octets |
| Preimages.Buffer.AppendValue | src/crypto.cpp:121-130 | appends the length frame and the value |
| Preimages.CommitmentInput | src/direct_verifier.cpp:614-620 | the appended octets are the encoding of the caller-input preimage |
| Preimages.EvidenceDigestInput | src/issuer_verifier.cpp:584-593 | the appended octets are the encoding of the evidence preimage |
| Preimages.PrincipalInput | src/direct_verifier.cpp:752-758 | the appended octets are the encoding of the principal preimage |
| Preimages.AuditIdentityInput | src/syslog_logger.cpp:366-374 | the appended octets are the encoding of the audit-identity preimage |
| GqEvidence.MessageBelowModulus | src/crypto.cpp:201-221 | for every eligible key the message of section 9.2 of RFC 8017 has the size of the modulus and is below it, so the check at line 344 never fires |
| GqEvidence.ParseProofIsCanonical | src/crypto.cpp:302-336 | the parser accepts exactly the encodings of well-formed proofs: one octet string a proof, and the proof it was made from comes back |
| GqEvidence.IssuerReadsTheBoundHeader | src/issuer_verifier.cpp:357-366 | the issuer layer, reading the evidence on its own, finds the header the proof binds |
| Gq.DeriveChallenge | src/crypto.cpp:223-250 | the loop returns c exactly when some retry below 2^32 draws a digest whose number, without its low 239 bits, is c and at most 65536, and every earlier draw is above; it fails with `evidence_invalid` exactly when every draw is above |
| Gq.ChallengeIsFirst | src/crypto.cpp:223-250 | the challenge is the first of the numbers drawn that is at most 65536, whatever the three octets and the shift of the source make of a digest; there is one at most |
| Gq.ReadProof | src/crypto.cpp:302-336 | the cursor loop computes the specified parse, with its two reads before either is judged |
| Gq.ExponentOctets | src/crypto.cpp:359-367 | the shift loop writes the minimal big-endian octets of the exponent |
| Gq.TranscriptOctets | src/crypto.cpp:348-373 | the appended octets are the encoding of the transcript preimage with its nine parameters and all commitments |
| Gq.EncodeMessage | src/crypto.cpp:201-221 | zero, one, filler, zero, digest info and digest, or a failure for a modulus that is too small |
| Gq.Verify | src/crypto.cpp:284-401 | succeeds exactly when the evidence is the encoding of a well-formed proof whose eight equations hold for the challenges of its own transcript, which `GqTheorems.AcceptedExactly` spells out; the error kind otherwise |
| Gq.AcceptedMeansParsed | src/crypto.cpp:284-401 | the declarative acceptance and the parse-then-check acceptance are the same |
| GqTheorems.AcceptedExactly | src/crypto.cpp:284-401 | a proof is accepted if and only if the key is eligible and every round's equation holds at the first number in range that the hash of parameters and commitments draws for it, for the padded digest of header and payload |
| GqTheorems.TwoResponsesGiveRoot | src/crypto.cpp:383-399 | special soundness: two accepted responses to different challenges, closer than a prime exponent, give a computable root of the message when the response to the larger challenge is a unit |
| GqTheorems.UnitResponseGivesRoot | src/crypto.cpp:383-399 | the same from a unit response to either challenge, as long as that challenge is not 0 |
| GqTheorems.PositiveChallengeSuffices | src/crypto.cpp:383-399 | a unit response to a positive challenge makes the other response a unit, so either may be the invertible one |
| GqTheorems.ZeroChallengeIsNotEnough | src/crypto.cpp:383-399 | the exception is real: for every exponent e and 2 <= k <= e, modulo 2^k and for every message with the residue 2 modulo 4, responses 1 to challenge 0 and 2 to challenge k hold, and the message has no root |
| GqTheorems.EligibleKeyWithoutSignatures | src/crypto.cpp:71-76 | for keys the verifier admits, every statement, header and hash whose digest ends in an octet with the residue 2 modulo 4: both rounds hold in range, one response is a unit, and no signature exists |
| GqTheorems.ForkedProofsRevealSignature | src/crypto.cpp:238-245 | two accepted proofs that share a commitment but not its challenge reveal the RS256 signature, because challenges are at most 65536 |
| GqTheorems.ForkedProofsHaveSignature | src/crypto.cpp:238-245 | the same from any unit response whose challenge is not 0 |
| GqTheorems.HonestRoundHolds | src/crypto.cpp:383-399 | a response computed from the signature satisfies the round equation |
| GqTheorems.HonestProofAccepted | src/crypto.cpp:284-401 | completeness: for every eligible key, unit signature and eight unit nonces the honest evidence is accepted as soon as it fits 16384 octets |
| Base64.DecodeBoundedIsCanonical | src/base64url.cpp:44-104 | accepted exactly when the text is the unpadded encoding of a non-empty octet string within the bound, which is the result; the overflow-safe size test is the true one |
| Base64.DecodeOfferedIsCanonical | src/command.cpp:171-211 | accepted exactly when the text is the padded encoding of a non-empty octet string within the bound; the early length test agrees with the late one |
| Base64.DecodeEncodeUrl | src/base64url.cpp:44-104 | decoding what was encoded gives it back |
| Base64.EncodeDecodeUrl | src/base64url.cpp:44-104 | encoding what was decoded gives the accepted text back |
| Base64.DecodeTable | src/base64url.cpp:14-29 | the table filled in place maps each of the 64 letters to its sextet and every other octet to 255 |
| Base64.Decode | src/base64url.cpp:44-104 | the decoding loop computes the specified decoding, error kinds included |
| Base64.DecodeOfferedKey | src/command.cpp:171-211 | the padded loop computes the specified decoding, and stops at the first group past the bound |
| Base64.EncodeText | src/direct_verifier.cpp:301-363 | the loop and its tail write the encoding of sections 4 and 5 of RFC 4648, without and with padding |
| Base64Letters.LettersAreTheAlphabet | src/direct_verifier.cpp:301-363 | the sextets' letters are those of tables 1 and 2 of RFC 4648 |
| Base64Letters.EncodingIsTheNumber | src/direct_verifier.cpp:301-363 | a text spells, in base 64, the number its octets spell in base 256, with zero bits up to whole sextets and then the padding |
| CertificateParser.ParseIsInverseOfEncode | src/openssh_certificate.cpp:204-391 | the codec inverts both ways: accepted blobs are exactly the encodings of well-formed certificates, and the certificate comes back |
| CertificateParser.ParseOfEncode | src/openssh_certificate.cpp:204-391 | every in-limits well-formed certificate parses to itself and its nonce |
| CertificateParser.EncodeOfParse | src/openssh_certificate.cpp:204-391 | encoding what was parsed, with its nonce, gives the whole blob, and what was parsed is well-formed |
| CertificateParser.SignedBytesAreThePrefix | src/openssh_certificate.cpp:364-389 | the signed octets followed by the framed signature are the whole blob |
| CertificateParser.TakeExtensionsInverse | src/openssh_certificate.cpp:317-358 | accepted extensions are the carrier first and then a strictly increasing selection of the five permissions |
| CertificateFormat.IncreasingThroughout | src/openssh_certificate.cpp:331-334 | neighbour comparison orders the whole list |
| CertificateFormat.CarrierBeforePermissions | src/openssh_certificate.cpp:336-354 | the carrier's name is below that of every permission, so a second carrier cannot follow one |
| Certificates.ReadPrincipals | src/openssh_certificate.cpp:272-286 | the loop computes the list of principals, or the first failure |
| Certificates.ReadIdentity | src/openssh_certificate.cpp:258-289 | all four reads happen before any of them is judged |
| Certificates.ReadTerms | src/openssh_certificate.cpp:291-315 | all six reads happen before any of them is judged |
| Certificates.ReadExtensions | src/openssh_certificate.cpp:317-358 | the loop computes the token and the permissions |
| Certificates.AdmitExtension | src/openssh_certificate.cpp:331-354 | one extension is judged as specified; its branch for a second carrier is dead |
| Certificates.ReadKeyBlob | src/openssh_certificate.cpp:116-151 | the signature key is one of the certificate's own algorithm and nothing else |
| Certificates.ReadSignatureBlob | src/openssh_certificate.cpp:168-202 | the signature blob holds one signature of the right kind |
| Certificates.Parse | src/openssh_certificate.cpp:204-391 | the whole parser computes the specified parse, error kinds included |
| TreeBuilder.ParseAcceptsExactly | src/config.cpp:56-191 | the builder accepts the events of exactly the bounded objects that repeat no name, and returns the tree of the document |
| TreeBuilder.ParseIsBuild | src/direct_verifier.cpp:80-220 | the stack machine over events equals the recursive builder over documents, error kinds included |
| TreeBuilder.StepKeepsValid | src/config.cpp:66-175 | every callback keeps the stack of contexts well-formed |
| TreeBuilder.BuildersAgree | src/issuer_verifier.cpp:49-206 | on every event stream, builders that differ in the kind of a depth overflow only have different results exactly when an accepted prefix is followed by a container where one may stand, within the value bound, and the depth is used up; each then reports its own kind |
| TreeBuilder.DepthKindsDiffer | src/issuer_verifier.cpp:67-123 | a document 33 containers deep is a resource limit for the configuration's builder and malformed for the issuer's |
| TreeBuilder.BoundsAreNested | src/direct_verifier.cpp:49-51 | what the tighter builders accept the wider ones accept with the same tree |
| Writings.SameTreeSameSize | src/config.cpp:66-175 | documents that write the same tree, in whatever member order, have the same depth, members, values and name bounds |
| Writings.WrittenParse | src/config.cpp:193-205 | a document without repeated names that writes an object is parsed to that object when it is within the bounds, and is a resource limit otherwise |
| Writings.WritingsParseAlike | src/config.cpp:193-205 | two texts of one tree parse alike |
| TreeBuilder.Builder.Handle | src/config.cpp:58-175 | every callback takes the fields to the successor state of the automaton, or records its failure |
| TreeBuilder.ParseEvents | src/config.cpp:193-205 | driving the handler over a stream gives the result of the automaton |
| CoreEnvelope.ParseAcceptsExactlyEnvelopes | src/strict_json.cpp:27-240 | the events of a document are accepted with these four strings exactly when it is an envelope holding them, in any member order, and the limits admit depth 3, 5 members, 7 values and 17-octet names (section 7.2.1 of RFC 7515) |
| CoreEnvelope.OneReading | src/strict_json.cpp:27-218 | an envelope is read as one set of strings only |
| CoreEnvelope.ParseFits | src/strict_json.cpp:222-240 | a parse succeeds exactly for three fitting root members with room for five members and seven values |
| CoreEnvelope.SignaturesFit | src/strict_json.cpp:139-162 | the signatures array is accepted exactly with one complete entry, and changes only what belongs to it |
| CoreEnvelope.Handler.Handle | src/strict_json.cpp:31-162 | every callback takes the fields and flags to the successor state of the automaton |
| CoreEnvelope.ParseEvents | src/strict_json.cpp:222-240 | driving the handler over a stream gives the result of the automaton |
| Publication.SafeIffNotTemporary | src/config.cpp:1186-1290 | from any directory, under any interference, answers and crash, no call of this process makes the target refer to anything but the complete synced contents, displaces an entry without force, or touches another entry, if and only if the target is none of the next 64 temporary names |
| Publication.RunIsSafe | src/config.cpp:1222-1289 | the invariant and the safety of every step along any run |
| Publication.CallIsSafe | src/config.cpp:1209-1288 | one call keeps the invariant and is safe |
| Publication.ClashIsUnsafe | src/config.cpp:1225-1231 | a target that is a temporary name is bound to an empty unsynced file in some run |
| Publication.SuccessMeansPublished | src/config.cpp:1283-1289 | success means that the target went live with the complete synced contents |
| Publication.GoingLiveIsComplete | src/config.cpp:1265-1282 | the call after which a run counts as live leaves the target complete |
| Publication.ResultIsExact | src/config.cpp:1265-1289 | the result is success exactly when the target went live and no later call was refused; an error over a live target is exactly a late refusal |
| Publication.ErrorOverPublishedTarget | src/config.cpp:1274-1288 | a family of runs that fail although the target holds the contents, with and without force |
| PublicationCalls.SuccessIsCommitted | src/config.cpp:1258-1289 | a run succeeds if and only if its last calls are the sync and the close of the file, the rename or the link and the removal of the temporary entry, and the sync of the directory, every one acknowledged |
| PublicationCalls.FailureIsCleaned | src/config.cpp:1239-1289 | a run that fails has created nothing, or ends in a clean-up, or has published and lost the sync of the directory |
| PublicationCalls.RemovalRemoves | src/config.cpp:1239-1282 | an acknowledged removal or rename leaves no temporary entry, unless the target already was a link to the file |
| PublicationCalls.InspectionIsExact | src/config.cpp:1209-1221 | the inspection lets a target pass exactly when it is not there, or is a regular file and may be replaced |
| PublicationCalls.UndisturbedPublishes | src/config.cpp:1186-1290 | undisturbed, with every call done at once, every job is published wherever the target passes and a name and an inode are free, and nothing else in the directory changes |
| Publication.RearrangedIsRespectful | src/config.cpp:1222-1289 | the moves of other processes that the theorems range over are exactly those that leave this process's temporary entry and file alone and do not link the file before it is synced |
| Publication.TargetIsLastComponent | src/config.cpp:1192-1200 | the accepted entry name has no slash and is what stands behind the last one |
| Publication.Process.CreateTemporary | src/config.cpp:1222-1237 | up to 64 exclusive creations, stopping at the first error but an existing name |
| Publication.Process.WriteAll | src/config.cpp:1246-1257 | short writes continue, interrupted ones repeat, anything else cleans up |
| Publication.Process.SynchronizeAndExpose | src/config.cpp:1258-1264 | the file is synced and closed before anything is exposed |
| Publication.Process.ExposeAndSynchronize | src/config.cpp:1265-1289 | rename, or link and unlink, then the directory, each with its own way out |
| Publication.Process.Publish | src/config.cpp:1186-1290 | the whole function ends in the state and with the result of the specified machine |
| Utf8.ValidNameIsName | src/config.cpp:230-255 | accepted exactly: one or more scalar values without C0, DEL and C1, encoded as in section 3 of RFC 3629, in at most 256 octets |
| Utf8.EncodedIsRead | src/syslog_logger.cpp:76-110 | every printable scalar value is read back from its encoding |
| Utf8.ReadIsEncoded | src/syslog_logger.cpp:76-110 | every character that is accepted is the shortest encoding of a printable scalar value |
| Utf8.OneText | src/config.cpp:230-255 | a name spells one text only |
| Utf8.WithoutControls | src/config.cpp:230-255 | the loop decides the specified predicate; with the bound 256 it is also the audit's loop |
| Utf8.ValidRequestedUser | src/direct_verifier.cpp:262-299 | the loop that counts continuation octets decides the same predicate |
| Durations.DurationIsExact | src/config.cpp:257-296 | accepted exactly when the text spells terms whose sum fits 64 bits, which is the result: nothing wraps |
| Durations.WholeSecondsIsExact | src/config.cpp:298-368 | accepted exactly when the terms sum to an admitted whole number of seconds, which is the result |
| Durations.CarryIsExact | src/config.cpp:334-360 | the two-word accumulator holds the exact sum as long as the seconds fit, and fails exactly otherwise |
| Durations.SecondsReadBack | src/config.cpp:257-368 | whenever the first parser gives a multiple of 10^9 the second gives its quotient |
| Durations.CanonicalUnsignedIsExact | src/config.cpp:650-674 | accepted exactly when the text is the shortest numeral of a number within the bound |
| Durations.CanonicalDurationIsExact | src/config.cpp:676-697 | accepted exactly when the text is one canonical numeral and one unit that fit 64 bits together |
| Durations.SkewReadsBack | src/config.cpp:1091-1107 | every skew the initializer admits is read back as the same seconds |
| Durations.ReadNumber | src/config.cpp:269-278 | the digit loop gives the value of the run of digits, and stops exactly when it passes 64 bits |
| Durations.ReadNanoseconds | src/config.cpp:257-296 | the loop computes the specified parse, error kinds included |
| Durations.ReadWholeSeconds | src/config.cpp:298-368 | the loop computes the specified parse, error kinds included |
| Durations.ReadCanonicalUnsigned | src/config.cpp:650-674 | the loop computes the specified parse; its last comparison never fires |
| Durations.ReadCanonicalDuration | src/config.cpp:676-697 | the unit test at the end and the two parses in sequence |
| Issuers.CheckAudience | src/issuer_verifier.cpp:420-441 | the loop decides: an allowed string, or distinct strings with an allowed one among them |
| Issuers.CollectAdmitted | src/issuer_verifier.cpp:680-686 | the loop collects exactly the admitted claims that are there |
| Issuers.VerifyIsConsistent | src/issuer_verifier.cpp:607-693 | a verified result names issuer and key, repeats the binding, carries the digest of the input and admitted claims only; `IssuerAcceptance.VerifyExactly` says which tokens verify |
| IssuerAcceptance.VerifyExactly | src/issuer_verifier.cpp:607-693 | verification succeeds with a result if and only if the policy permits the profiles, the payload's object is signed or proved under the key that the header names, it is bound, issued, addressed and dated as the policy asks, and the result says exactly that |
| IssuerAcceptance.IdentifiedExactly | src/issuer_verifier.cpp:487-534 | the identity checks pass if and only if `iss` is the issuer, the binding claim, or for the audience binding all of `aud`, is the commitment, `azp` is a party when there are any, and every required predicate holds, operation by operation; with the kinds otherwise |
| IssuerAcceptance.AuthenticExactly | src/issuer_verifier.cpp:607-676 | the evidence is accepted with claims and a key id if and only if the payload spells their object, the header names an RS256 key of the policy, and the signature or the proof is for this header and payload |
| IssuerAcceptance.ValidExactly | src/issuer_verifier.cpp:535-581 | the date checks pass if and only if `iat`, `nbf`, `exp`, skew and maximum age admit the time, with every sum in 64 bits, and the result is the earlier end |
| Issuers.VerifyGqAccepts | src/issuer_verifier.cpp:668-675 | the proof check it calls is the declarative acceptance of the proof verifier |
| Carriers.CheckAccountPredicate | src/direct_verifier.cpp:775-807 | the loops decide the account predicate |
| Carriers.IssuerResultIsConsistent | src/direct_verifier.cpp:883-899 | what the issuer verifier returns passes every check of `verify_token` |
| Carriers.TokenNeverMismatches | src/direct_verifier.cpp:836-927 | no token is refused with `evidence_result_mismatch`: both exits are dead |
| CarrierAcceptance.TokenExactly | src/direct_verifier.cpp:836-927 | a token verifies with a result if and only if its four strings decode within their bounds, the caller context is the header, the issuer accepts its commitment, and the caller's signature is over header and payload |
| CarrierAcceptance.CarrierExactly | src/direct_verifier.cpp:929-1037 | a carrier is accepted with a result if and only if its blob is a well-formed certificate around an accepted token, it certifies the caller's own key and algorithm and is signed, its dates hold, its only principal is the subject's, a rule of the user allows it, and the result carries that principal, the key type and the signature key in base64 |
| CarrierAcceptance.AuthorizedExactly | src/direct_verifier.cpp:809-825 | an account allows exactly when one of its rules for this issuer has all its predicates met and contains every permission of the certificate |
| CarrierAcceptance.PrincipalExactly | src/direct_verifier.cpp:736-763 | the principal is `credbind-v1-` and the digest of issuer, claim name and claim text, for a text of 1 to 32768 octets |
| TimeWindow.AcceptedTimesAreTheWindow | src/direct_verifier.cpp:929-1037 | if a request is accepted at some time, for what `CarrierAcceptance.CarrierExactly` asks, it is accepted, with the same result, at exactly the times from max(iat, nbf, valid_after) - skew up to valid_before + skew at which both sums fit 64 bits |
| TimeWindow.DatesAreTheWindow | src/issuer_verifier.cpp:535-581 | the issuer's dates and the carrier's pass together exactly inside the window |
| TimeWindow.IssuerDates | src/issuer_verifier.cpp:535-581 | the issuer's date checks in their order are one set of inequalities, and their result is the end of the credential |
| TimeWindow.CarrierDates | src/direct_verifier.cpp:978-1013 | the carrier's date and boundary checks in unsigned 64-bit arithmetic are one set of inequalities |
| TimeWindow.ExpiryIsImplied | src/direct_verifier.cpp:1000-1013 | inside the window the issuer's expiry and age checks hold already |
| TimeWindow.TokenAtTime | src/direct_verifier.cpp:836-927 | a token verifies at a time exactly when it does apart from time and its dates admit the time |
| Configurations.ValidatedIsSound | src/config.cpp:813-1077 | whatever validates is bounded, has one skew and a deadline of at most ten seconds, distinct policies, printable account names, and every claim any lookup needs admitted |
| Configurations.AdmitKeepsSound | src/config.cpp:1067-1073 | admitting a rule's claims covers the rule and uncovers none |
| Configurations.ReadStringSet | src/config.cpp:370-387 | the loop computes the set of distinct non-empty strings, or fails |
| Configurations.ReadPredicates | src/config.cpp:432-452 | the loop computes the list of predicates, or the first failure |
| Configurations.Validator.ReadIssuers | src/config.cpp:893-1034 | the issuer loop, with the policy ids seen so far, computes the specified list |
| Configurations.Validator.AdmitClaims | src/config.cpp:1067-1073 | the inner loops admit the rule's claims where its issuer is configured, and change nothing else |
| Configurations.Validator.ReadAccounts | src/config.cpp:1036-1075 | the account loop computes the specified rules and admitted claims |
| Configurations.ParseAndValidate | src/config.cpp:813-1077 | the whole function computes the specified configuration, error kinds included; `ConfigurationMeaning.ValidateExactly` says which one that is |
| ConfigurationMeaning.ValidateExactly | src/config.cpp:813-1077 | validation succeeds with a configuration if and only if the document means it: version 1, skew, deadline and limits from their members, the issuers in order under different ids, the accounts under their names with at most 256 rules, the facility, and admitted claims that are the issuer's own and those that rules for it look at, and no others |
| PolicyMeaning.IssuerExactly | src/config.cpp:893-1034 | an issuer entry is read as a policy if and only if every field is what its member says: names, the five profile sets, parties, required predicates with the discriminator last, maximum age and lifetime from the sums of their own members, flag, audit claim and keys |
| PolicyMeaning.PredicateExactly | src/config.cpp:396-430 | a predicate is read exactly as its operation is written: equals and contains with a value, one-of with a list |
| PolicyMeaning.LastsTogether | src/config.cpp:257-296 | texts of terms add up: the length of two texts written together is the sum of theirs |
| PolicyMeaning.UnitsAreExact | src/config.cpp:279-287 | a numeral with each of the six units is that many times 1, 10^3, 10^6, 10^9, 60 10^9 and 3600 10^9 nanoseconds |
| ConfigurationMeaning.SettingsExactly | src/config.cpp:813-892 | the document's own members are accepted exactly for these settings, the optional cache and the facility's name included |
| ConfigurationMeaning.RuleExactly | src/config.cpp:1036-1066 | a rule is read exactly with its issuer, which is configured, its predicates, and extensions among the five permissions |
| ClaimFiltering.FilteringPreservesMeaning | src/config.cpp:1017-1073 | for every validated configuration, account rules, principal, audit identity and required claims come out of the admitted claims as out of all of them |
| Initializer.Initialize | src/config.cpp:1085-1184 | it succeeds exactly when the options are admitted, every string of the preliminary tree is UTF-8, its text is within the parser's bounds, and what is read back validates; an internal error for the strings, otherwise the kind that loading the text gives. The result prints exactly the members of that tree, in order, and loads to the validated configuration unless it is longer than 1 MiB |
| InitializerBounds.WrittenExactly | src/config.cpp:1127-1174 | of the admitted options only the cache directory can keep the preliminary tree from being printed, and does exactly when it is not the UTF-8 encoding of some scalar values |
| InitializerBounds.BrokenOptions | src/config.cpp:1127-1174 | options with the directory `/` and the octet 0xFF are admitted and cannot be printed |
| InitializerBounds.RoomForSettings | src/config.cpp:1156-1172 | a policy file that parses leaves the preliminary text within the bounds exactly when it has room for 14 more members and 14 more values, and the text is not too long |
| InitializerBounds.CrowdedPolicyHasNoRoom | src/config.cpp:1140-1172 | policies of 8179 to 8192 values that parse and have the sections asked for, but leave no room |
| Initializer.Reparse | src/config.cpp:1172 | printing and parsing a tree gives what is read back of it within the bounds, a resource limit outside, and an internal error when a string is not UTF-8 |
| Printing.RereadIsAlike | src/config.cpp:66-175 | reading back changes no measure of a document, only the kind of an unsigned zero that was written `-0` |
| Initializer.OrderPredicate | src/config.cpp:699-707 | reordering a predicate loses and adds nothing, and puts its members in the canonical order |
| Initializer.OrderIssuer | src/config.cpp:715-754 | reordering an issuer policy loses and adds nothing, optional members included, and puts its members in the canonical order |
| Initializer.OrderAccounts | src/config.cpp:762-779 | reordering the accounts loses and adds nothing |
| Initializer.OrderDocument | src/config.cpp:781-809 | the canonical document has exactly the preliminary members, in the canonical order |
| Initializer.ValidatedHasShape | src/config.cpp:813-1077 | validation makes sure of every member the builders look up |
| Initializer.SettingsReadBack | src/config.cpp:1085-1184 | skew, deadline, limits and facility are read back as the initializer checked them |
| InitializerMeaning.OptionsExactly | src/config.cpp:1085-1135 | options are admitted with limits if and only if the mode is unambiguous, the durations and numerals are canonical and within bounds, the directory is absolute and the facility has a name |
| InitializerMeaning.InitialExactly | src/config.cpp:1085-1171 | the tree is the one that the options and the policy's sections stand for, member by member |
| InitializerMeaning.InitializedMeans | src/config.cpp:1085-1184 | the configuration that the initialized document means has the options' skew, deadline, limits and facility, and the policy's issuers and accounts |
| Audit.SerializeNeedsOneAttempt | src/syslog_logger.cpp:327-332 | every event with a 32-bit duration serializes exactly when its fields are admitted, on the first attempt and within 999 octets; the second attempt never changes the result |
| Audit.TextFits | src/syslog_logger.cpp:144-206 | the worst case of 256 escaped octets and all optional members is within 999 octets without control characters |
| Audit.ConfiguredUserIsClear | src/syslog_logger.cpp:327-332 | a configured account name is logged as it stands |
| Audit.PayloadBuffer.Append | src/syslog_logger.cpp:34-50 | a member is appended with its separator and nothing before it changes |
| Audit.WritePayload | src/syslog_logger.cpp:144-206 | the appended text is the specified event, or the specified failure |
| Audit.SerializeEvent | src/syslog_logger.cpp:327-332 | the two attempts compute the specified serialization |
| AuditReading.EventRead | src/syslog_logger.cpp:144-206 | whatever is serialized reads back, as the JSON of RFC 8259, to the event member by member: version, result, reason, duration, the user or its digest, and the members about the credential that are not empty |
| AuditReading.LineDeterminesEvent | src/syslog_logger.cpp:144-206 | two events with one text are the same event, unless the user was replaced by a digest, which then is the same |
| AuditReading.ReasonRead | src/syslog_logger.cpp:260-289 | every error kind is logged under its own name, which stands for no other |
| Pipeline.Command.Interrupted | src/command.cpp:142-151 | look i is the clock's answer i + 1 and, strictly under the deadline only, the flag's answer i; its judgement is the reason to stop |
| Pipeline.Command.TryPolicies | src/command.cpp:328-361 | every policy is tried once, in order, at its own wall time, one clear look before and one after it; successes, refusals and first error are those of the policies; a look that stops the loop comes with the credential at hand |
| Pipeline.Command.RunVerify | src/command.cpp:275-411 | on every clock and cancellation trace: exit status 0, and the output, the logged event, its facility and the number of clock readings are those of the run; `PrintedLines.PrintedIsRead` and `LoggedEvents.LoggedIsRead` read both back, the theorems below describe the run |
| Pipeline.VerifyCommand | src/command.cpp:275-411 | the same for a configuration that has been loaded and validated, on exactly the given traces, stream and verifier, for every verifier that fills in the audit context as the direct one does: exactly one event |
| Pipeline.AllowsExactly | src/command.cpp:275-411 | the event allows if and only if request and configuration are in order, none of the 7 looks and 2 a policy finds the clock behind, the deadline reached or the flag set, exactly one policy's attempt at its own wall time succeeds, its line is within the bound, and the stream takes all of it |
| Pipeline.StopIsExact | src/command.cpp:142-151 | a run is stopped exactly when one of its looks is not clear; the first of them gives the reason, and nothing is written |
| Pipeline.PrintedMeansUndisturbed | src/command.cpp:378-397 | a run that prints had clear answers of clock and flag at all its looks and prints what the stream takes of the line of the only policy that succeeds, the whole line exactly when it allows; `PrintedLines.PrintedIsRead` says what the line means |
| PrintedLines.PrintedIsRead | src/command.cpp:378-411 | with the direct verifier, the output is read as an entry of an authorized keys file exactly when the event allows; the entry is a certificate authority with the key type and the signature key of the certificate in the request, restricted to the principal of the subject that the only accepting policy authenticated |
| PrintedLines.LinesDiffer | src/command.cpp:380-381 | results with one line have one principal, one key type and one key |
| PrintedLines.PartIsNotRead | src/command.cpp:396-400 | a line ends in its only newline: no part of it that a stream may have taken is read as an entry |
| PrintedLines.AllowsAccepted | src/command.cpp:275-411 | under a validated configuration the event allows if and only if request and configuration are in order, nothing disturbs the run, and exactly one policy accepts the carrier, as `CarrierAcceptance.CarrierExactly` says it, for a line that has room |
| PrintedLines.RequestExactly | src/command.cpp:281-330 | the policies are asked exactly when the nine arguments are in place and the key is the padded base64 of a certificate within the bounds; all get that certificate with the key type and the user of the arguments |
| AuthorizedKeys.AuthorityRead | src/command.cpp:380-381 | the reader takes such a line apart into the flag, one quoted `principals` option, the key type and the key |
| Pipeline.DisturbanceOnlyDenies | src/command.cpp:275-411 | two undisturbed runs of one request end alike, whatever their clocks; a disturbed one writes nothing and does not allow |
| Pipeline.BudgetShrinks | src/command.cpp:277-306 | no look has more than ten seconds, and none more than an earlier one |
| Pipeline.EveryPolicyRefuses | src/command.cpp:356-377 | when every policy refuses, the first one gives the reason |
| Pipeline.OnePolicyAccepts | src/command.cpp:378-397 | when exactly one policy accepts, its line is granted, or held back for its size or cut by the stream |
| Pipeline.SeveralPoliciesAccept | src/command.cpp:366-377 | when two policies accept, neither is trusted |
| Pipeline.SuspectIsExact | src/command.cpp:370-375 | a run that every policy refuses reports on a credential exactly when one policy alone found it authentic |
| Pipeline.SubjectIsVouched | src/command.cpp:237-256 | every credential in an event, however the run ends, is one that the policy named beside it found authentic |
| Pipeline.OneEvent | src/command.cpp:153-159 | the event of every run serializes, so the logger is called exactly once |
| LoggedEvents.LoggedIsRead | src/command.cpp:153-273 | the logger gets one line, which reads back as the reason the run ended for, whole milliseconds between the first and the last answer of the clock, the user, and the policy, profiles, algorithm and digest of the credential at hand, at the severity of the outcome |
| LoggedEvents.AcquisitionExactly | src/command.cpp:217-235 | the acquisition profile is the only configured one that goes with the binding, and none when there is not exactly one |
| Pipeline.GrantedInsideWindow | src/direct_verifier.cpp:929-1037 | every grant of the direct verifier is inside the window of the policy that gives it |
| Pipeline.DirectNamesCredentials | src/direct_verifier.cpp:958-961 | the audit context is filled whenever the credential is authentic, and its profiles are ones the audit knows |
| Pipeline.Command.Conclude | src/command.cpp:362-377 | anything but one success is denied, with the credential of the only policy that authenticated one |
| Pipeline.Command.Grant | src/command.cpp:378-395 | from the selected policy on, two more looks and the size check stand before the write |
| Pipeline.Command.Print | src/command.cpp:396-410 | what the stream takes of the line is output, and the event allows exactly when that is all of it |
| Pipeline.Command.Deny | src/command.cpp:258-273 | one event, with the reason, the duration and what the given credential says, and no output |
| Pipeline.OneSuccess | src/command.cpp:366-377 | one recorded success is the same as one policy that succeeds alone |
| Pipeline.ConfiguredWindow | src/config.cpp:1020-1032 | under a validated configuration the accepted times of a policy are its window, with the configured skew |
| Pipeline.SelectAcquisition | src/command.cpp:217-235 | the loop names the acquisition profile only when the binding implies a single one |
| Pipeline.EventIsWellFormed | src/command.cpp:237-256 | every event of an authenticated credential is one the audit serializer admits |

## Left out

- GqTheorems.UnitResponseGivesRoot: asks for one unit response to a challenge other than 0; `EligibleKeyWithoutSignatures` shows why any unit response will not do.
- GqTheorems.HonestProofAccepted: supposes that the hash gives every round a challenge within its 2^32 retries; the source refuses otherwise.
- PrintedLines.PrintedIsRead: the reader is written for the one line form that is printed, options with quoted values and single spaces; escaped quotes, comments and other white space of the file format are not modelled.
- AuditReading.EventRead: the reader takes texts and natural numbers only, and `\u` escapes below the surrogates; no event has anything else.
- ConfigurationMeaning.ValidateExactly: the error kind of a document that means no configuration is that of `Configurations.ParseAndValidate`; `valid_https_uri` and the key loader are parameters.
- CarrierAcceptance.CarrierExactly: supposes a time, a skew and a maximum age in 64 bits, which every validated configuration has.
- Publication.SafeIffNotTemporary: other processes may do anything to the directory between two calls, except move this process's temporary entry, write to its file, or link that file before it is synced.
- Initializer.Initialize: the printer is any that prints the trees whose strings are UTF-8, with any length, and throws on the others; the exception, which `run_catching_exceptions` turns into an internal error, is an error result here. Allocation failures are not modelled.
- Pipeline.Command.RunVerify: clocks that throw and memory exhaustion are not modelled; the loader's result is a parameter. That exactly one event is logged (`Pipeline.OneEvent`) supposes that the configuration, if there is one, has been validated.
- Configurations.ParseAndValidate: the values of a one-of predicate keep their order, where the source goes through a hash set; only membership is ever asked. The order in which an object's members are walked is a parameter.
- Carriers.TokenNeverMismatches: supposes that the functions the model does not look into do not report that kind themselves.
- Issuers.IntegerOf: a JSON number with a fraction or exponent is a real number; rounding to a double happens in the tokenizer.
- OpenSSL (SHA-256, RS256, P-256, Ed25519, DER, key construction) appears as arbitrary functions and predicates; allocation failures are not modelled.
- InitializerBounds.WrittenExactly: supposes that the strings of a parsed policy are UTF-8, which the JSON tokenizer checks.
- The JSON tokenizer is any function from octets to a document or to events and an error; the audit's own printer is modelled for its string escapes, on valid UTF-8.
- `parse_cic` is an arbitrary function of the header text and the policy: one more schema check.
- `jwks.cpp` and `jws.cpp`: key resolution is a finite map, the loader a parameter.
- `valid_https_uri`, `validate_render_path`, `valid_command_user`: branch-by-branch character checks.
- `read_file`, `load_static_file`, descriptors and their closing outside `publish`, syslog, signal handlers, `main.cpp`.
- Help texts, `version`, `config check`, `sshd-config render` and configuration events.
- The nonce of a certificate: the source reads and drops it; the model keeps it to state the codec's inverse.
- The two Base64 encoders share one method, the readers of `crypto.cpp`, `openssh_certificate.cpp` and `issuer_verifier.cpp` one class, the three tree builders one class with their limits as a parameter.
- `verify_token`, `verify_carrier` and `issuer::verify` are functions: the source chains checks over values there.
- Python scripts, packaging, fuzz drivers and the test programs.
