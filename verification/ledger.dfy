/** The MultiSig transaction records and the updates a record goes through. */
module Ledger {
  import opened Common

  /** One proposed transfer. `confirmations` is the counter the contract
      exposes; `confirmedBy` is its per-signer confirmation map, kept as the
      set of signers mapped to true. `data` is the optional call payload,
      carried but never interpreted. */
  datatype Tx = Tx(
    to: Address,
    value: nat,
    data: seq<int>,
    executed: bool,
    confirmations: nat,
    confirmedBy: set<Address>)

  /** The counter agrees with the number of distinct confirming signers. */
  predicate WellCounted(t: Tx) {
    t.confirmations == |t.confirmedBy|
  }

  /** Both records describe the same transfer: recipient, amount and payload. */
  predicate SameProposal(t: Tx, t': Tx) {
    t'.to == t.to && t'.value == t.value && t'.data == t.data
  }

  /** A freshly submitted record: not executed and confirmed by nobody. */
  function Proposed(to: Address, value: nat, data: seq<int>): (t: Tx)
    ensures t.to == to && t.value == value && t.data == data
    ensures !t.executed && t.confirmations == 0 && t.confirmedBy == {}
    ensures WellCounted(t)
  {
    Tx(to, value, data, false, 0, {})
  }

  /** Records one more confirmation, by a signer who had not confirmed yet. */
  function Confirmed(t: Tx, who: Address): (t': Tx)
    requires who !in t.confirmedBy
    ensures SameProposal(t, t') && t'.executed == t.executed
    ensures t'.confirmedBy == t.confirmedBy + {who}
    ensures t'.confirmations == t.confirmations + 1
    ensures WellCounted(t) ==> WellCounted(t')
  {
    t.(confirmations := t.confirmations + 1, confirmedBy := t.confirmedBy + {who})
  }

  /** Marks the record executed; nothing else about it changes. */
  function Executed(t: Tx): (t': Tx)
    ensures SameProposal(t, t') && t'.executed
    ensures t'.confirmations == t.confirmations && t'.confirmedBy == t.confirmedBy
  {
    t.(executed := true)
  }

  /** How a record may change over time: its proposal is fixed, confirmations
      only accumulate, execution is never undone, and an executed record is
      frozen. */
  predicate TxEvolves(t: Tx, t': Tx) {
    && SameProposal(t, t')
    && t.confirmedBy <= t'.confirmedBy
    && t.confirmations <= t'.confirmations
    && (t.executed ==> t' == t)
  }
}
