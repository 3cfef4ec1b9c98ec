/** The cases of the MultiSig test suite, stated as lemmas about the model.
    Accounts 1 to 5 play the five test accounts; the contract is deployed with
    signers 1, 2, 3 and threshold 2, and calls come from account 1 unless
    stated otherwise. */
module MultiSigScenarios {
  import opened Common
  import opened Quorum
  import opened Ledger
  import opened MultiSig

  function Deployed(): (s: State)
    ensures GetSigners(s) == [1, 2, 3] && Threshold(s) == 2
    ensures s.txs == [] && s.paid == []
    ensures Inv(s)
  {
    assert NoDup([1, 2, 3]);
    Deploy([1, 2, 3], 2).value
  }

  /** Deployment keeps signers and threshold, and refuses a threshold above
      the signer count. */
  lemma DeploymentScenario()
    ensures Deploy([1, 2, 3], 2) == Ok(Deployed())
    ensures Deploy([1, 2, 3], 4) == Err(InvalidThreshold)
  {
  }

  /** Adding signer 4 with threshold 4 appends it; a non-signer or a
      threshold of 5 is refused and leaves signers and threshold alone. */
  lemma AddSignerScenario()
    ensures AddSignerAndThreshold(Deployed(), 1, 4, 4).Ok?
    ensures GetSigners(AddSignerAndThreshold(Deployed(), 1, 4, 4).value) == [1, 2, 3, 4]
    ensures Threshold(AddSignerAndThreshold(Deployed(), 1, 4, 4).value) == 4
    ensures AddSignerAndThreshold(Deployed(), 5, 4, 3) == Err(OnlySigners)
    ensures AddSignerAndThreshold(Deployed(), 1, 4, 5) == Err(InvalidThreshold)
  {
  }

  /** The registry step of the removal test: signer 2 leaves [1, 2, 3]. */
  lemma RemoveMiddleSigner()
    ensures RemoveSigner(Registry([1, 2, 3], 2), 2, 2) == Ok(Registry([1, 3], 2))
  {
    var l: seq<Address> := [1, 2, 3];
    assert l[1..] == [2, 3];
    assert IndexOf(l, 2) == 1;
    assert l[..1] + l[2..] == [1, 3];
  }

  /** Removing signer 2 with threshold 2 leaves [1, 3] and threshold 2. */
  lemma RemoveSignerScenario()
    ensures RemoveSignerAndThreshold(Deployed(), 1, 2, 2).Ok?
    ensures GetSigners(RemoveSignerAndThreshold(Deployed(), 1, 2, 2).value) == [1, 3]
    ensures Threshold(RemoveSignerAndThreshold(Deployed(), 1, 2, 2).value) == 2
  {
    var s := Deployed();
    assert s.registry == Registry([1, 2, 3], 2);
    RemoveMiddleSigner();
    assert RemoveSignerAndThreshold(s, 1, 2, 2) == Ok(s.(registry := Registry([1, 3], 2)));
  }

  /** Removal is refused for non-signer 5 and for threshold 3 with two
      signers left. */
  lemma RemoveSignerRefusedScenario()
    ensures RemoveSignerAndThreshold(Deployed(), 5, 2, 1) == Err(OnlySigners)
    ensures RemoveSignerAndThreshold(Deployed(), 1, 2, 3) == Err(InvalidThreshold)
  {
    var l: seq<Address> := [1, 2, 3];
    assert 5 !in l && 2 in l && 1 in l;
    assert Deployed().registry.signers == l;
  }

  /** Submission by account 1 without a payload creates record 0; account 5
      may not submit. */
  lemma SubmitScenario()
    ensures SubmitTransaction(Deployed(), 5, 4, 1, []) == Err(OnlySigners)
    ensures SubmitTransaction(Deployed(), 1, 4, 1).Ok?
    ensures GetTransaction(SubmitTransaction(Deployed(), 1, 4, 1).value, 0) == Ok(Tx(4, 1, [], false, 0, {}))
  {
  }

  /** After submitting, the state the confirmation and execution tests start from. */
  function Submitted(): (s: State)
    ensures |s.txs| == 1 && s.txs[0] == Tx(4, 1, [], false, 0, {})
    ensures GetSigners(s) == [1, 2, 3] && Threshold(s) == 2
    ensures Inv(s)
  {
    SubmitTransaction(Deployed(), 1, 4, 1).value
  }

  /** Confirmation: account 5 is refused before the missing record is
      noticed; account 1's confirmation counts once and is recorded; record 1
      does not exist; confirming twice is refused. */
  lemma ConfirmScenario()
    ensures ConfirmTransaction(Deployed(), 5, 0) == Err(OnlySigners)
    ensures ConfirmTransaction(Submitted(), 1, 0).Ok?
    ensures ConfirmTransaction(Submitted(), 1, 0).value.txs[0].confirmations == 1
    ensures IsConfirmed(ConfirmTransaction(Submitted(), 1, 0).value, 0, 1)
    ensures ConfirmTransaction(Deployed(), 1, 1) == Err(TxNotFound)
    ensures ConfirmTransaction(ConfirmTransaction(Submitted(), 1, 0).value, 1, 0) == Err(AlreadyConfirmed)
  {
  }

  /** Execution: account 5 is refused; a record with no confirmation, and one
      with a single confirmation, are below threshold 2; record 1 does not
      exist. */
  lemma ExecuteScenario()
    ensures ExecuteTransaction(Deployed(), 5, 0) == Err(OnlySigners)
    ensures ExecuteTransaction(Submitted(), 1, 0) == Err(ThresholdNotMet)
    ensures ExecuteTransaction(ConfirmTransaction(Submitted(), 1, 0).value, 1, 0) == Err(ThresholdNotMet)
    ensures ExecuteTransaction(Deployed(), 1, 1) == Err(TxNotFound)
  {
  }

  /** The two-confirmation path of the execution tests that the suite keeps
      disabled, the intended behaviour once the quorum is met: with two
      confirmations the transfer of 1 to account 4 happens, after which
      neither execution nor a further confirmation by account 3 is
      accepted. */
  lemma QuorumScenario()
    ensures var s1 := ConfirmTransaction(Submitted(), 1, 0).value;
      && ConfirmTransaction(s1, 2, 0).Ok?
      && var s2 := ConfirmTransaction(s1, 2, 0).value;
      && ExecuteTransaction(s2, 1, 0).Ok?
      && var s3 := ExecuteTransaction(s2, 1, 0).value;
      && s3.txs[0].executed
      && s3.paid == [Payment(0, 4, 1)]
      && ExecuteTransaction(s3, 1, 0) == Err(AlreadyExecuted)
      && ConfirmTransaction(s3, 3, 0) == Err(AlreadyExecuted)
  {
    var s1 := ConfirmTransaction(Submitted(), 1, 0).value;
    assert s1.txs[0].confirmedBy == {1};
    var s2 := ConfirmTransaction(s1, 2, 0).value;
    assert s2.txs[0].confirmations == 2;
    assert s2.txs[0].confirmedBy == {1, 2};
  }

  /** A confirmation outlives its signer: after accounts 1 and 2 confirm and
      account 2 is then removed, the record still has two confirmations and
      account 1 can execute it with threshold 2. */
  lemma RemovedSignerStillCounts()
    ensures var s1 := ConfirmTransaction(Submitted(), 1, 0).value;
      && ConfirmTransaction(s1, 2, 0).Ok?
      && var s2 := ConfirmTransaction(s1, 2, 0).value;
      && RemoveSignerAndThreshold(s2, 1, 2, 2).Ok?
      && var s3 := RemoveSignerAndThreshold(s2, 1, 2, 2).value;
      && GetSigners(s3) == [1, 3]
      && s3.txs[0].confirmations == 2
      && 2 in s3.txs[0].confirmedBy
      && ExecuteTransaction(s3, 1, 0).Ok?
  {
    var s1 := ConfirmTransaction(Submitted(), 1, 0).value;
    var s2 := ConfirmTransaction(s1, 2, 0).value;
    assert s2.txs[0].confirmations == 2;
    assert s2.registry == Registry([1, 2, 3], 2);
    RemoveMiddleSigner();
    assert RemoveSignerAndThreshold(s2, 1, 2, 2) == Ok(s2.(registry := Registry([1, 3], 2)));
  }
}
