/** The error type of the ledger, `LedgerError`, and `crate::Result<()>`.
    Each payload string of the source is a sub-case here, since the order of
    the checks decides which of them an operation reports. */
module Errors {

  /** Why a transaction is invalid. */
  datatype TxFault =
    | ZeroAmount     // "Amount must be greater than zero"
    | SameParties    // "Sender and receiver cannot be the same"
    | EmptyAddress   // "From and to addresses cannot be empty"
    | BadSignature   // "Invalid transaction signature"

  /** Why a block is invalid. */
  datatype BlockFault =
    | InvalidHash            // "Invalid block hash"
    | InvalidPreviousHash    // "Invalid previous hash"
    | NonEmptyGenesisLink    // "Genesis block should have empty previous hash"

  /** Which performance limit was hit. */
  datatype LimitFault =
    | QueueFull              // "Transaction queue is full"

  datatype LedgerError =
    | InvalidTransaction(txFault: TxFault)
    | BlockValidationFailed(blockFault: BlockFault)
    | InsufficientBalance
    | DuplicateTransaction
    | DuplicateBlock
    | PerformanceLimitExceeded(limit: LimitFault)
    | Internal(message: string)

  /** `crate::Result<()>`: every fallible operation of the core returns no value. */
  datatype Result = Ok | Err(error: LedgerError)

  function TxFaultText(f: TxFault): string
  {
    match f
    case ZeroAmount => "Amount must be greater than zero"
    case SameParties => "Sender and receiver cannot be the same"
    case EmptyAddress => "From and to addresses cannot be empty"
    case BadSignature => "Invalid transaction signature"
  }

  function BlockFaultText(f: BlockFault): string
  {
    match f
    case InvalidHash => "Invalid block hash"
    case InvalidPreviousHash => "Invalid previous hash"
    case NonEmptyGenesisLink => "Genesis block should have empty previous hash"
  }

  /** The `Display` text of an error. */
  function Message(e: LedgerError): string
  {
    match e
    case InvalidTransaction(f) => "Invalid transaction: " + TxFaultText(f)
    case BlockValidationFailed(f) => "Block validation failed: " + BlockFaultText(f)
    case InsufficientBalance => "Insufficient balance for transaction"
    case DuplicateTransaction => "Transaction already exists"
    case DuplicateBlock => "Block already exists"
    case PerformanceLimitExceeded(QueueFull) => "Performance limit exceeded: Transaction queue is full"
    case Internal(m) => "Internal error: " + m
  }
}
