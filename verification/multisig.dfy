/** The MultiSig contract: signers propose transfers, confirm them one by one
    and execute them once enough confirmations are in. */
module MultiSig {
  import opened Common
  import opened Quorum
  import opened Ledger

  /** A value transfer the contract made when it executed transaction `txId`. */
  datatype Payment = Payment(txId: nat, to: Address, value: nat)

  /** The contract storage: registry, the append-only transaction array, and
      the log of transfers performed so far. */
  datatype State = State(registry: Registry, txs: seq<Tx>, paid: seq<Payment>)

  /** Every transfer belongs to an executed transaction and pays its recipient
      its amount. */
  predicate PaidMatches(s: State) {
    forall k :: 0 <= k < |s.paid| ==>
      var p := s.paid[k];
      p.txId < |s.txs| && s.txs[p.txId].executed
      && p.to == s.txs[p.txId].to && p.value == s.txs[p.txId].value
  }

  /** No transaction was paid out twice. */
  predicate PaidOnce(s: State) {
    forall j, k :: 0 <= j < k < |s.paid| ==> s.paid[j].txId != s.paid[k].txId
  }

  /** Every executed transaction was paid out. */
  predicate ExecutedPaid(s: State) {
    forall i :: 0 <= i < |s.txs| && s.txs[i].executed ==>
      exists k :: 0 <= k < |s.paid| && s.paid[k].txId == i
  }

  /** The contract invariant: a valid registry, exact confirmation counters,
      and exactly one transfer per executed transaction. */
  predicate Inv(s: State) {
    && Valid(s.registry)
    && (forall i :: 0 <= i < |s.txs| ==> WellCounted(s.txs[i]))
    && PaidMatches(s)
    && PaidOnce(s)
    && ExecutedPaid(s)
  }

  // ----- read-only views -----

  function GetSigners(s: State): seq<Address> {
    s.registry.signers
  }

  function Threshold(s: State): nat {
    s.registry.threshold
  }

  /** Reads record `id`; an index past the end reverts. */
  function GetTransaction(s: State, id: nat): (r: Result<Tx>)
    ensures r.Ok? <==> id < |s.txs|
    ensures r.Ok? ==> r.value == s.txs[id]
    ensures r.Err? ==> r.error == TxNotFound
  {
    if id < |s.txs| then Ok(s.txs[id]) else Err(TxNotFound)
  }

  /** The confirmation map read with a default: false for any transaction
      index that does not exist. */
  function IsConfirmed(s: State, id: nat, who: Address): (b: bool)
    ensures b ==> id < |s.txs|
  {
    id < |s.txs| && who in s.txs[id].confirmedBy
  }

  // ----- transitions -----

  /** Deployment with an initial signer list and threshold; nothing proposed
      and nothing paid yet. */
  function Deploy(signers: seq<Address>, threshold: nat): (r: Result<State>)
    ensures r.Ok? <==> ValidThreshold(threshold, |signers|) && NoDup(signers)
    ensures threshold > |signers| ==> r == Err(InvalidThreshold)
    ensures r.Ok? ==> GetSigners(r.value) == signers && Threshold(r.value) == threshold
    ensures r.Ok? ==> r.value.txs == [] && r.value.paid == []
    ensures r.Ok? ==> Inv(r.value)
  {
    match Create(signers, threshold)
    case Err(e) => Err(e)
    case Ok(reg) => Ok(State(reg, [], []))
  }

  function AddSignerAndThreshold(s: State, caller: Address, signer: Address, newThreshold: nat): (r: Result<State>)
    ensures caller !in GetSigners(s) ==> r == Err(OnlySigners)
    ensures caller in GetSigners(s) ==> r == ReplaceRegistry(s, AddSigner(s.registry, signer, newThreshold))
    ensures r.Ok? ==> GetSigners(r.value) == GetSigners(s) + [signer] && Threshold(r.value) == newThreshold
    ensures r.Ok? ==> r.value.txs == s.txs && r.value.paid == s.paid
    ensures Inv(s) && r.Ok? ==> Inv(r.value)
  {
    if caller !in GetSigners(s) then Err(OnlySigners)
    else ReplaceRegistry(s, AddSigner(s.registry, signer, newThreshold))
  }

  function RemoveSignerAndThreshold(s: State, caller: Address, signer: Address, newThreshold: nat): (r: Result<State>)
    ensures caller !in GetSigners(s) ==> r == Err(OnlySigners)
    ensures caller in GetSigners(s) ==> r == ReplaceRegistry(s, RemoveSigner(s.registry, signer, newThreshold))
    ensures r.Ok? ==> multiset(GetSigners(r.value)) == multiset(GetSigners(s)) - multiset{signer}
    ensures r.Ok? ==> Threshold(r.value) == newThreshold
    ensures r.Ok? ==> r.value.txs == s.txs && r.value.paid == s.paid
    ensures Inv(s) && r.Ok? ==> Inv(r.value) && GetSigners(r.value) == Filter(GetSigners(s), signer)
  {
    if caller !in GetSigners(s) then Err(OnlySigners)
    else ReplaceRegistry(s, RemoveSigner(s.registry, signer, newThreshold))
  }

  /** Installs a new registry, or passes its error on. */
  function ReplaceRegistry(s: State, reg: Result<Registry>): Result<State> {
    match reg
    case Err(e) => Err(e)
    case Ok(r) => Ok(s.(registry := r))
  }

  /** Appends a new record at index |txs|; the payload defaults to empty. */
  function SubmitTransaction(s: State, caller: Address, to: Address, value: nat, data: seq<int> := []): (r: Result<State>)
    ensures r.Ok? <==> caller in GetSigners(s)
    ensures r.Err? ==> r.error == OnlySigners
    ensures r.Ok? ==> r.value.txs == s.txs + [Proposed(to, value, data)]
    ensures r.Ok? ==> r.value.registry == s.registry && r.value.paid == s.paid
    ensures Inv(s) && r.Ok? ==> Inv(r.value)
  {
    if caller !in GetSigners(s) then Err(OnlySigners)
    else Ok(s.(txs := s.txs + [Proposed(to, value, data)]))
  }

  function ConfirmTransaction(s: State, caller: Address, id: nat): (r: Result<State>)
    ensures caller !in GetSigners(s) ==> r == Err(OnlySigners)
    ensures caller in GetSigners(s) && id >= |s.txs| ==> r == Err(TxNotFound)
    ensures caller in GetSigners(s) && id < |s.txs| && IsConfirmed(s, id, caller) ==> r == Err(AlreadyConfirmed)
    ensures (caller in GetSigners(s) && id < |s.txs| && !IsConfirmed(s, id, caller) && s.txs[id].executed)
      ==> r == Err(AlreadyExecuted)
    ensures r.Ok? <==> (caller in GetSigners(s) && id < |s.txs| && !IsConfirmed(s, id, caller) && !s.txs[id].executed)
    ensures r.Ok? ==> IsConfirmed(r.value, id, caller)
    ensures r.Ok? ==> r.value.txs[id].confirmations == s.txs[id].confirmations + 1
    ensures r.Ok? ==> r.value.txs[id].confirmedBy == s.txs[id].confirmedBy + {caller}
    ensures r.Ok? ==> |r.value.txs| == |s.txs| && forall i :: 0 <= i < |s.txs| && i != id ==> r.value.txs[i] == s.txs[i]
    ensures r.Ok? ==> r.value.registry == s.registry && r.value.paid == s.paid
    ensures Inv(s) && r.Ok? ==> Inv(r.value)
  {
    if caller !in GetSigners(s) then Err(OnlySigners)
    else if id >= |s.txs| then Err(TxNotFound)
    else if caller in s.txs[id].confirmedBy then Err(AlreadyConfirmed)
    else if s.txs[id].executed then Err(AlreadyExecuted)
    else Ok(s.(txs := s.txs[id := Confirmed(s.txs[id], caller)]))
  }

  function ExecuteTransaction(s: State, caller: Address, id: nat): (r: Result<State>)
    ensures caller !in GetSigners(s) ==> r == Err(OnlySigners)
    ensures caller in GetSigners(s) && id >= |s.txs| ==> r == Err(TxNotFound)
    ensures caller in GetSigners(s) && id < |s.txs| && s.txs[id].executed ==> r == Err(AlreadyExecuted)
    ensures (caller in GetSigners(s) && id < |s.txs| && !s.txs[id].executed
             && s.txs[id].confirmations < Threshold(s)) ==> r == Err(ThresholdNotMet)
    ensures r.Ok? <==> (caller in GetSigners(s) && id < |s.txs| && !s.txs[id].executed
                        && s.txs[id].confirmations >= Threshold(s))
    ensures r.Ok? ==> |r.value.txs| == |s.txs| && forall i :: 0 <= i < |s.txs| && i != id ==> r.value.txs[i] == s.txs[i]
    ensures r.Ok? ==> r.value.txs[id] == Executed(s.txs[id])
    ensures r.Ok? ==> r.value.paid == s.paid + [Payment(id, s.txs[id].to, s.txs[id].value)]
    ensures r.Ok? ==> r.value.registry == s.registry
    ensures Inv(s) && r.Ok? ==> Inv(r.value)
  {
    if caller !in GetSigners(s) then Err(OnlySigners)
    else if id >= |s.txs| then Err(TxNotFound)
    else if s.txs[id].executed then Err(AlreadyExecuted)
    else if s.txs[id].confirmations < Threshold(s) then Err(ThresholdNotMet)
    else
      var t := s.txs[id];
      var s' := State(s.registry, s.txs[id := Executed(t)], s.paid + [Payment(id, t.to, t.value)]);
      ExecutePreservesInv(s, id, s');
      Ok(s')
  }

  /** The bookkeeping behind the invariant clause of ExecuteTransaction. */
  lemma ExecutePreservesInv(s: State, id: nat, s': State)
    requires id < |s.txs| && !s.txs[id].executed
    requires s' == State(s.registry, s.txs[id := Executed(s.txs[id])],
                         s.paid + [Payment(id, s.txs[id].to, s.txs[id].value)])
    ensures Inv(s) ==> Inv(s')
  {
    if Inv(s) {
      forall i | 0 <= i < |s'.txs| && s'.txs[i].executed
        ensures exists k :: 0 <= k < |s'.paid| && s'.paid[k].txId == i
      {
        if i == id {
          assert s'.paid[|s.paid|].txId == i;
        } else {
          var k :| 0 <= k < |s.paid| && s.paid[k].txId == i;
          assert s'.paid[k].txId == i;
        }
      }
      forall j, k | 0 <= j < k < |s'.paid|
        ensures s'.paid[j].txId != s'.paid[k].txId
      {
        if k == |s.paid| {
          assert s.txs[s.paid[j].txId].executed;
        }
      }
    }
  }
}
