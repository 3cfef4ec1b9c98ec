/** Sequences of calls against the MultiSig contract: the host's revert
    semantics, the invariant over every reachable state, and how the
    transaction array may change over time. */
module MultiSigRuns {
  import opened Common
  import opened Quorum
  import opened Ledger
  import opened MultiSig

  /** One external call, tagged with the address that sent it. */
  datatype Call =
    | AddSignerCall(caller: Address, signer: Address, threshold: nat)
    | RemoveSignerCall(caller: Address, signer: Address, threshold: nat)
    | SubmitCall(caller: Address, to: Address, value: nat, data: seq<int>)
    | ConfirmCall(caller: Address, id: nat)
    | ExecuteCall(caller: Address, id: nat)

  function Step(s: State, c: Call): Result<State> {
    match c
    case AddSignerCall(caller, signer, t) => AddSignerAndThreshold(s, caller, signer, t)
    case RemoveSignerCall(caller, signer, t) => RemoveSignerAndThreshold(s, caller, signer, t)
    case SubmitCall(caller, to, value, data) => SubmitTransaction(s, caller, to, value, data)
    case ConfirmCall(caller, id) => ConfirmTransaction(s, caller, id)
    case ExecuteCall(caller, id) => ExecuteTransaction(s, caller, id)
  }

  /** The state after the host processed `c`: a reverted call leaves the
      state exactly as it was. */
  function Commit(s: State, c: Call): State {
    match Step(s, c)
    case Ok(s') => s'
    case Err(_) => s
  }

  /** The state after processing `calls` in order. */
  function Run(s: State, calls: seq<Call>): State
    decreases |calls|
  {
    if calls == [] then s else Run(Commit(s, calls[0]), calls[1..])
  }

  /** How the contract storage may change between two moments: the array only
      grows, each record evolves as TxEvolves allows, and the transfer log only
      grows at its end. */
  predicate Evolves(s: State, s': State) {
    && |s.txs| <= |s'.txs|
    && (forall i :: 0 <= i < |s.txs| ==> TxEvolves(s.txs[i], s'.txs[i]))
    && s.paid <= s'.paid
  }

  /** Every call of a non-signer reverts with OnlySigners, whatever it asks
      for (even a transaction index that does not exist), and the committed
      state is the old one. */
  lemma NonSignerChangesNothing(s: State, c: Call)
    requires c.caller !in GetSigners(s)
    ensures Step(s, c) == Err(OnlySigners)
    ensures Commit(s, c) == s
  {
  }

  /** One call keeps the contract invariant. */
  lemma StepPreservesInv(s: State, c: Call)
    requires Inv(s)
    ensures Inv(Commit(s, c))
  {
  }

  /** One call changes the transaction array only as Evolves allows. */
  lemma StepEvolves(s: State, c: Call)
    ensures Evolves(s, Commit(s, c))
  {
  }

  lemma EvolvesTransitive(s1: State, s2: State, s3: State)
    requires Evolves(s1, s2) && Evolves(s2, s3)
    ensures Evolves(s1, s3)
  {
  }

  /** Any sequence of calls keeps the contract invariant. */
  lemma {:induction false} RunPreservesInv(s: State, calls: seq<Call>)
    requires Inv(s)
    ensures Inv(Run(s, calls))
    decreases |calls|
  {
    if calls != [] {
      StepPreservesInv(s, calls[0]);
      RunPreservesInv(Commit(s, calls[0]), calls[1..]);
    }
  }

  /** Across any sequence of calls, records are never removed or rewritten,
      executed records stay frozen, and no transfer is ever taken back. */
  lemma {:induction false} RunEvolves(s: State, calls: seq<Call>)
    ensures Evolves(s, Run(s, calls))
    decreases |calls|
  {
    if calls != [] {
      var s1 := Commit(s, calls[0]);
      StepEvolves(s, calls[0]);
      RunEvolves(s1, calls[1..]);
      EvolvesTransitive(s, s1, Run(s1, calls[1..]));
    }
  }

  /** Every state reachable from a deployment satisfies the invariant: the
      threshold fits the signer list, counters are exact, and each executed
      transaction was paid out exactly once. */
  lemma Reachable(signers: seq<Address>, threshold: nat, calls: seq<Call>)
    requires Deploy(signers, threshold).Ok?
    ensures Inv(Run(Deploy(signers, threshold).value, calls))
  {
    RunPreservesInv(Deploy(signers, threshold).value, calls);
  }

  /** Confirmations by `who`, one call each, in order. */
  function ConfirmCalls(who: seq<Address>, id: nat): seq<Call> {
    if who == [] then [] else [ConfirmCall(who[0], id)] + ConfirmCalls(who[1..], id)
  }

  /** One confirmation by a signer who has not confirmed an unexecuted
      transaction goes through and is counted. */
  lemma ConfirmOne(s: State, id: nat, who: Address)
    requires id < |s.txs| && !s.txs[id].executed
    requires who in GetSigners(s) && who !in s.txs[id].confirmedBy
    ensures var s1 := Commit(s, ConfirmCall(who, id));
      && GetSigners(s1) == GetSigners(s)
      && |s1.txs| == |s.txs| && !s1.txs[id].executed
      && s1.txs[id].confirmations == s.txs[id].confirmations + 1
      && s1.txs[id].confirmedBy == s.txs[id].confirmedBy + {who}
  {
    assert ConfirmTransaction(s, who, id).Ok?;
  }

  lemma ElemsCons(who: seq<Address>)
    requires who != []
    ensures (set x | x in who) == {who[0]} + (set x | x in who[1..])
  {
    assert who == [who[0]] + who[1..];
  }

  /** Quorum is reached over independent calls: when distinct signers who have
      not confirmed an unexecuted transaction confirm it one after another,
      its counter grows by exactly their number and each of them is recorded. */
  lemma {:induction false} ConfirmsAccumulate(s: State, id: nat, who: seq<Address>)
    requires id < |s.txs| && !s.txs[id].executed
    requires NoDup(who)
    requires forall x :: x in who ==> x in GetSigners(s) && x !in s.txs[id].confirmedBy
    ensures |Run(s, ConfirmCalls(who, id)).txs| == |s.txs|
    ensures Run(s, ConfirmCalls(who, id)).txs[id].confirmations == s.txs[id].confirmations + |who|
    ensures Run(s, ConfirmCalls(who, id)).txs[id].confirmedBy == s.txs[id].confirmedBy + (set x | x in who)
    ensures GetSigners(Run(s, ConfirmCalls(who, id))) == GetSigners(s)
    decreases |who|
  {
    if who != [] {
      var rest := who[1..];
      var s1 := Commit(s, ConfirmCall(who[0], id));
      ConfirmOne(s, id, who[0]);
      var calls := ConfirmCalls(who, id);
      assert calls[0] == ConfirmCall(who[0], id);
      assert calls[1..] == ConfirmCalls(rest, id);
      assert Run(s, calls) == Run(s1, ConfirmCalls(rest, id));
      NoDupTail(who);
      forall x | x in rest
        ensures x in GetSigners(s1) && x !in s1.txs[id].confirmedBy
      {
        assert x in who;
      }
      ConfirmsAccumulate(s1, id, rest);
      ElemsCons(who);
    }
  }

  /** A submitted transaction reads back at the index after the last one,
      with the given recipient, amount and payload, unexecuted and
      unconfirmed. */
  lemma SubmitThenRead(s: State, caller: Address, to: Address, value: nat, data: seq<int>)
    requires caller in GetSigners(s)
    ensures GetTransaction(SubmitTransaction(s, caller, to, value, data).value, |s.txs|)
      == Ok(Tx(to, value, data, false, 0, {}))
  {
  }

  /** A confirmation cannot be repeated: right after a signer's confirmation
      went through, the same confirmation reverts with AlreadyConfirmed. */
  lemma ConfirmTwiceRefused(s: State, caller: Address, id: nat)
    requires ConfirmTransaction(s, caller, id).Ok?
    ensures ConfirmTransaction(ConfirmTransaction(s, caller, id).value, caller, id) == Err(AlreadyConfirmed)
  {
  }

  /** No replay: once a transaction is executed, every later call that names
      it reverts, whatever the caller and however many calls come between;
      its record and its single transfer stay as they were. */
  lemma ExecutedIsFinal(s: State, id: nat, calls: seq<Call>, who: Address)
    requires Inv(s) && id < |s.txs| && s.txs[id].executed
    ensures var s' := Run(s, calls);
      && id < |s'.txs| && s'.txs[id] == s.txs[id]
      && ExecuteTransaction(s', who, id).Err?
      && (ConfirmTransaction(s', who, id).Err?)
      && |set k | 0 <= k < |s'.paid| && s'.paid[k].txId == id| == 1
  {
    RunEvolves(s, calls);
    RunPreservesInv(s, calls);
    var s' := Run(s, calls);
    PaidExactlyOnce(s', id);
  }

  /** Under the invariant an executed transaction has exactly one entry in
      the transfer log. */
  lemma PaidExactlyOnce(s: State, id: nat)
    requires Inv(s) && id < |s.txs| && s.txs[id].executed
    ensures |set k | 0 <= k < |s.paid| && s.paid[k].txId == id| == 1
  {
    var k :| 0 <= k < |s.paid| && s.paid[k].txId == id;
    var ks := set k | 0 <= k < |s.paid| && s.paid[k].txId == id;
    assert ks == {k};
  }
}
