/** Outcomes of the vault's operations: `Result` plays the part of the source's
    `Result<T, VaultError>`, with one constructor per error kind the model can meet. */
module Results {

  import opened Bytes

  datatype Option<+T> = None | Some(value: T)

  datatype Error =
    | NotARvltFile
    | UnsupportedVersion(found: nat)
    | CorruptContainer
    | ChecksumMismatch
    | IntegrityViolation
    | IncorrectPassword
    | CryptoFailure
    | NotAuthorized
    | AccessNotGranted
    | AlreadyGranted
    | FieldTooLong
    | CapacityTooSmall
    | FileAlreadyExists(name: bytes)
    | FileNotFound(name: bytes)
    | FileTableFull
    | RecipientTableFull
    | InsufficientSpace(requested: nat, available: nat)
    | Remote(message: bytes)
    | IoError

  datatype Result<+T> = Ok(value: T) | Err(error: Error) {

    predicate IsFailure() {
      Err?
    }

    function PropagateFailure<U>(): Result<U>
    {
      Err(if Err? then error else CorruptContainer)
    }

    function Extract(): T
      requires Ok?
    {
      value
    }
  }
}
