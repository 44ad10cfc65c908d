/** The `PauserSet` contract as its Hardhat tests describe it: a list of
    pauser addresses fixed at deployment, with lookups and no way to add or
    remove an entry afterwards.  A revert is `Err` with its reason string. */
module Pausers {
  import opened Wrappers

  /** 2^160: Ethereum addresses are 160-bit unsigned integers. */
  const AddressBound: nat := 0x1_0000000000_0000000000_0000000000_0000000000

  type Address = a: int | 0 <= a < AddressBound

  const ZeroAddress: Address := 0

  datatype PauserSet = PauserSet(pausers: seq<Address>)

  datatype PauserEvent = PauserAdded(pauser: Address)

  /** The deployed contract and the events its constructor emitted. */
  datatype Deployed = Deployed(pauserSet: PauserSet, events: seq<PauserEvent>)

  const EmptyList := "At least one pauser required"
  const InvalidPauser := "Invalid pauser address"
  const DuplicatePauser := "Duplicate pauser address"

  /** The first `n` entries are non-zero and pairwise distinct: the
      constructor's loop has accepted them. */
  predicate AcceptedPrefix(addresses: seq<Address>, n: nat)
    requires n <= |addresses|
  {
    forall j :: 0 <= j < n ==> addresses[j] != ZeroAddress && addresses[j] !in addresses[..j]
  }

  /** No address occurs twice. */
  predicate Distinct(addresses: seq<Address>) {
    forall i, j :: 0 <= i < j < |addresses| ==> addresses[i] != addresses[j]
  }

  /** Accepting every entry in turn is the same as the list being free of
      zeros and duplicates. */
  lemma {:induction false} AcceptedIffDistinctNonZero(addresses: seq<Address>)
    ensures AcceptedPrefix(addresses, |addresses|) <==> ZeroAddress !in addresses && Distinct(addresses)
  {
    if AcceptedPrefix(addresses, |addresses|) {
      forall i, j | 0 <= i < j < |addresses| ensures addresses[i] != addresses[j] {
        assert addresses[i] == addresses[..j][i];
      }
    }
    if ZeroAddress !in addresses && Distinct(addresses) {
      forall j | 0 <= j < |addresses| ensures addresses[j] !in addresses[..j] {
        assert forall i :: 0 <= i < j ==> addresses[..j][i] != addresses[j];
      }
    }
  }

  /** The constructor: reverts on an empty list, then checks each entry in
      order, rejecting the zero address and an address already added. */
  method Deploy(addresses: seq<Address>) returns (r: Result<Deployed, string>)
    ensures |addresses| == 0 ==> r == Err(EmptyList)
    ensures r.Ok? <==> |addresses| > 0 && ZeroAddress !in addresses && Distinct(addresses)
    ensures r == Err(InvalidPauser) <==>
              exists i :: 0 <= i < |addresses| && AcceptedPrefix(addresses, i) && addresses[i] == ZeroAddress
    ensures r == Err(DuplicatePauser) <==>
              exists i :: 0 <= i < |addresses| && AcceptedPrefix(addresses, i) &&
                          addresses[i] != ZeroAddress && addresses[i] in addresses[..i]
    ensures r.Ok? ==>
              r.value.pauserSet.pausers == addresses &&
              |r.value.events| == |addresses| &&
              forall i :: 0 <= i < |addresses| ==> r.value.events[i] == PauserAdded(addresses[i])
  {
    AcceptedIffDistinctNonZero(addresses);
    if |addresses| == 0 {
      return Err(EmptyList);
    }
    var events: seq<PauserEvent> := [];
    var i := 0;
    while i < |addresses|
      invariant 0 <= i <= |addresses|
      invariant AcceptedPrefix(addresses, i)
      invariant |events| == i
      invariant forall k :: 0 <= k < i ==> events[k] == PauserAdded(addresses[k])
    {
      if addresses[i] == ZeroAddress {
        FirstRejectionIsUnique(addresses, i);
        return Err(InvalidPauser);
      }
      if addresses[i] in addresses[..i] {
        FirstRejectionIsUnique(addresses, i);
        return Err(DuplicatePauser);
      }
      events := events + [PauserAdded(addresses[i])];
      i := i + 1;
    }
    return Ok(Deployed(PauserSet(addresses), events));
  }

  /** At most one position is the first one the loop rejects. */
  lemma {:induction false} FirstRejectionIsUnique(addresses: seq<Address>, i: nat)
    requires i < |addresses| && AcceptedPrefix(addresses, i)
    requires addresses[i] == ZeroAddress || addresses[i] in addresses[..i]
    ensures forall k :: (0 <= k < |addresses| && AcceptedPrefix(addresses, k) &&
                         (addresses[k] == ZeroAddress || addresses[k] in addresses[..k])) ==> k == i
  {
  }

  /** `getPauserCount()`. */
  function PauserCount(s: PauserSet): nat {
    |s.pausers|
  }

  /** `isPauser(a)`. */
  predicate IsPauser(s: PauserSet, a: Address) {
    a in s.pausers
  }

  /** `isAuthorizedPauser(a)`: the check other contracts consult. */
  predicate IsAuthorizedPauser(s: PauserSet, a: Address) {
    IsPauser(s, a)
  }

  /** `getPausers()`. */
  function GetPausers(s: PauserSet): seq<Address> {
    s.pausers
  }

  /** `pausers(i)`, the public array getter: an index past the end reverts
      without a reason string. */
  function PauserAt(s: PauserSet, i: nat): (r: Result<Address, string>)
    ensures r.Ok? <==> i < |s.pausers|
    ensures r.Ok? ==> r.value == s.pausers[i] && r.value in s.pausers
    ensures r.Err? ==> r.error == ""
  {
    if i < |s.pausers| then Ok(s.pausers[i]) else Err("")
  }

  /** What a successful deployment answers: the count is the list's length,
      exactly the listed addresses are authorised, and both the list getter
      and the indexed getter give the addresses in constructor order. */
  lemma {:induction false} DeployedQueries(addresses: seq<Address>, a: Address)
    requires |addresses| > 0 && ZeroAddress !in addresses && Distinct(addresses)
    ensures var s := PauserSet(addresses);
            && PauserCount(s) == |addresses|
            && (IsAuthorizedPauser(s, a) <==> exists i :: 0 <= i < |addresses| && addresses[i] == a)
            && IsPauser(s, a) == IsAuthorizedPauser(s, a)
            && GetPausers(s) == addresses
            && (forall i :: 0 <= i < |addresses| ==> PauserAt(s, i) == Ok(addresses[i]))
            && !IsAuthorizedPauser(s, ZeroAddress)
  {
  }
}
