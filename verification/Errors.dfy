/** The error kinds of `src/parse_error.hpp` and the value-or-error type the sources build on them. */
module Errors {

  datatype Kind =
    | MalformedInput
    | ResourceLimit
    | UnsupportedVersion
    | UnsupportedProfile
    | UnsupportedAlgorithm
    | CallerKeyInvalid
    | IssuerUntrusted
    | IssuerSignatureInvalid
    | EvidenceInvalid
    | EvidenceResultMismatch
    | BindingInvalid
    | IssuerClaimsInvalid
    | CredentialNotYetValid
    | CredentialExpired
    | CallerSignatureInvalid
    | SshCertificateInvalid
    | SshKeyMismatch
    | SshIdentityNotYetValid
    | SshIdentityExpired
    | SshPrincipalInvalid
    | AccountUnauthorized
    | DeadlineExceeded
    | OperationCancelled
    | StateInvalid
    | InternalError

  datatype Option<+T> = None | Some(value: T)

  datatype Result<+T> = Success(value: T) | Failure(kind: Kind) {
    predicate IsFailure() {
      Failure?
    }

    function PropagateFailure<U>(): Result<U>
      requires Failure?
    {
      Failure(kind)
    }

    function Extract(): T
      requires Success?
    {
      value
    }
  }

  /** The source's `if (!condition) return make_unexpected(kind)`. */
  function Need(condition: bool, kind: Kind): (r: Result<()>)
  {
    if condition then Success(()) else Failure(kind)
  }
}
