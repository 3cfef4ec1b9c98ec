/** Identities, errors and the success-or-revert result shared by both contracts. */
module Common {

  /** An account address. The model only compares addresses for equality;
      `nat` is used so that concrete scenarios can name distinct accounts. */
  type Address = nat

  /** One constructor per revert reason of the two contracts. */
  datatype Error =
    | OnlySigners       // the caller is not a registered signer
    | InvalidThreshold  // the threshold does not fit the signer count
    | DuplicateSigner   // a registered signer is added again
    | SignerNotFound    // removal of an address that is not a signer
    | TxNotFound        // no transaction has the given index
    | AlreadyConfirmed  // the caller has already confirmed this transaction
    | AlreadyExecuted   // the transaction has already been executed
    | ThresholdNotMet   // fewer confirmations than the threshold
    | WindowNotElapsed  // the owner proved liveness less than a window ago

  /** The outcome of one contract call: the new state, or a revert. A revert
      carries no state, so a failed call can never change anything. */
  datatype Result<+T> = Ok(value: T) | Err(error: Error)
}
