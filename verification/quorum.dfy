/** The signer registry of the MultiSig contract: an ordered list of distinct
    signers and the number of confirmations a transaction needs. */
module Quorum {
  import opened Common

  datatype Registry = Registry(signers: seq<Address>, threshold: nat)

  /** No address occurs twice in `s`. */
  predicate NoDup(s: seq<Address>) {
    forall i, j :: 0 <= i < j < |s| ==> s[i] != s[j]
  }

  /** A threshold is usable for `n` signers when it asks for at least one and
      at most all of them. */
  predicate ValidThreshold(t: nat, n: int) {
    1 <= t <= n
  }

  /** The registry invariant every successful call keeps. */
  predicate Valid(r: Registry) {
    NoDup(r.signers) && ValidThreshold(r.threshold, |r.signers|)
  }

  /** The elements of `s` other than `x`, in their original order: the
      reference meaning of removing a signer. */
  function Filter(s: seq<Address>, x: Address): (r: seq<Address>)
    ensures forall y :: y in r <==> y in s && y != x
  {
    if s == [] then []
    else (if s[0] == x then [] else [s[0]]) + Filter(s[1..], x)
  }

  /** Position of the first occurrence of `x` in `s`. */
  function IndexOf(s: seq<Address>, x: Address): (i: nat)
    requires x in s
    ensures i < |s| && s[i] == x
    ensures forall j :: 0 <= j < i ==> s[j] != x
  {
    if s[0] == x then 0
    else
      IndexOf(s[1..], x) + 1
  }

  /** `s` with the first occurrence of `x` cut out; the rest closes up. */
  function Remove(s: seq<Address>, x: Address): (r: seq<Address>)
    requires x in s
    ensures |r| == |s| - 1
    ensures multiset(r) == multiset(s) - multiset{x}
  {
    var i := IndexOf(s, x);
    assert s == s[..i] + [x] + s[i + 1..];
    s[..i] + s[i + 1..]
  }

  /** Deployment: keeps the given signers in the given order and the given
      threshold, or refuses the pair. */
  function Create(signers: seq<Address>, threshold: nat): (r: Result<Registry>)
    ensures r.Ok? <==> ValidThreshold(threshold, |signers|) && NoDup(signers)
    ensures r.Ok? ==> r.value.signers == signers && r.value.threshold == threshold
    ensures !ValidThreshold(threshold, |signers|) ==> r == Err(InvalidThreshold)
    ensures ValidThreshold(threshold, |signers|) && !NoDup(signers) ==> r == Err(DuplicateSigner)
    ensures r.Ok? ==> Valid(r.value)
  {
    if !ValidThreshold(threshold, |signers|) then Err(InvalidThreshold)
    else if !NoDup(signers) then Err(DuplicateSigner)
    else Ok(Registry(signers, threshold))
  }

  /** Appends `signer` at the end and installs `newThreshold`, both or neither. */
  function AddSigner(r: Registry, signer: Address, newThreshold: nat): (res: Result<Registry>)
    ensures res.Ok? <==> ValidThreshold(newThreshold, |r.signers| + 1) && signer !in r.signers
    ensures !ValidThreshold(newThreshold, |r.signers| + 1) ==> res == Err(InvalidThreshold)
    ensures ValidThreshold(newThreshold, |r.signers| + 1) && signer in r.signers ==> res == Err(DuplicateSigner)
    ensures res.Ok? ==> res.value.signers == r.signers + [signer]
    ensures res.Ok? ==> res.value.threshold == newThreshold
    ensures Valid(r) && res.Ok? ==> Valid(res.value)
  {
    if !ValidThreshold(newThreshold, |r.signers| + 1) then Err(InvalidThreshold)
    else if signer in r.signers then Err(DuplicateSigner)
    else Ok(Registry(r.signers + [signer], newThreshold))
  }

  /** Takes `signer` out of the list, keeping the others in order, and
      installs `newThreshold`, both or neither. */
  function RemoveSigner(r: Registry, signer: Address, newThreshold: nat): (res: Result<Registry>)
    ensures res.Ok? <==> signer in r.signers && ValidThreshold(newThreshold, |r.signers| - 1)
    ensures signer !in r.signers ==> res == Err(SignerNotFound)
    ensures signer in r.signers && !ValidThreshold(newThreshold, |r.signers| - 1) ==> res == Err(InvalidThreshold)
    ensures res.Ok? ==> multiset(res.value.signers) == multiset(r.signers) - multiset{signer}
    ensures res.Ok? ==> res.value.threshold == newThreshold
    ensures Valid(r) && res.Ok? ==> Valid(res.value) && res.value.signers == Filter(r.signers, signer)
  {
    if signer !in r.signers then Err(SignerNotFound)
    else if !ValidThreshold(newThreshold, |r.signers| - 1) then Err(InvalidThreshold)
    else
      var rest := Remove(r.signers, signer);
      RemovePreservesNoDup(r.signers, signer);
      RemoveIsFilter(r.signers, signer);
      Ok(Registry(rest, newThreshold))
  }

  /** Removing from a duplicate-free list leaves it duplicate-free and drops
      every copy of the removed address. */
  lemma RemovePreservesNoDup(s: seq<Address>, x: Address)
    requires x in s
    ensures NoDup(s) ==> NoDup(Remove(s, x)) && x !in Remove(s, x)
  {
  }

  /** On a duplicate-free list, cutting out the first occurrence is the same
      as keeping every other element in order. */
  lemma {:induction false} RemoveIsFilter(s: seq<Address>, x: Address)
    requires x in s
    ensures NoDup(s) ==> Remove(s, x) == Filter(s, x)
  {
    if NoDup(s) {
      var t := s[1..];
      NoDupTail(s);
      if s[0] == x {
        assert x !in t;
        FilterAbsent(t, x);
      } else {
        assert x in t;
        RemoveIsFilter(t, x);
        var i := IndexOf(t, x);
        assert IndexOf(s, x) == i + 1;
        assert s[..i + 1] == [s[0]] + t[..i];
        assert s[i + 2..] == t[i + 1..];
        assert Filter(s, x) == [s[0]] + Filter(t, x);
      }
    }
  }

  lemma NoDupTail(s: seq<Address>)
    requires s != [] && NoDup(s)
    ensures NoDup(s[1..]) && s[0] !in s[1..]
  {
  }

  /** Filtering out an absent address changes nothing. */
  lemma {:induction false} FilterAbsent(s: seq<Address>, x: Address)
    requires x !in s
    ensures Filter(s, x) == s
  {
    if s != [] {
      FilterAbsent(s[1..], x);
    }
  }

  /** Filtering an address out of a list it was appended to, and is not
      otherwise in, gives back the list. */
  lemma {:induction false} FilterAppended(s: seq<Address>, x: Address)
    requires x !in s
    ensures Filter(s + [x], x) == s
  {
    if s == [] {
      assert [x][1..] == [];
    } else {
      assert (s + [x])[1..] == s[1..] + [x];
      FilterAppended(s[1..], x);
    }
  }

  /** Removing the signer just added, with the old threshold, restores the
      registry exactly: adding and removing are inverse updates. */
  lemma AddThenRemove(r: Registry, signer: Address, newThreshold: nat)
    requires Valid(r) && AddSigner(r, signer, newThreshold).Ok?
    ensures RemoveSigner(AddSigner(r, signer, newThreshold).value, signer, r.threshold) == Ok(r)
  {
    FilterAppended(r.signers, signer);
  }
}
