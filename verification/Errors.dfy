/** Results and the reason codes of src/valiss/errors.py. */
module Errors {

  datatype Option<+T> = None | Some(value: T)

  /** The stable reason codes a failure reduces to. */
  datatype Reason =
    | Malformed | UnsupportedType | UnsupportedVersion | BadIssuerKey | BadSignature
    | WrongType | WrongIssuer | WrongSubjectRole | Expired | NotYetValid | EpochMismatch
    | Missing | NoResolver | UnknownOperator | NotAllowlisted | NotBearer | Skew
    | BadSignatureEncoding | BadRequestSignature | NonceRequired | Replay
    | OperatorMisconfigured | ExtensionInvalid | ValidatorRejected
    | NoChain | ChainMismatch | ChainUserMismatch | WrongAudience
    | ChecksumMissing | ChecksumMismatch
    | Unclassified  // raised without a reason code

  /** A value, or the reason a ValissError carries. */
  datatype Result<+T> = Ok(value: T) | Err(reason: Reason) {
    predicate IsFailure() {
      Err?
    }

    function PropagateFailure<U>(): Result<U>
      requires Err?
    {
      Err(reason)
    }

    function Extract(): T
      requires Ok?
    {
      value
    }
  }
}
