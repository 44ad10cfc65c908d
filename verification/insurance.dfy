/** The `PrivateVehicleInsurance` contract as its Hardhat tests describe it:
    policies, claims that move from Submitted through review to payment,
    reviewer authorisation, a pause switch guarded by a `PauserSet`, and
    transfer of the company role.

    Every entry point is a function from the contract state, the caller and
    the arguments to `Ok` of the new state and the emitted events, or `Err`
    of the revert reason.  Values the contract keeps encrypted are held here
    in the clear. */
module Insurance {
  import opened Wrappers
  import opened Pausers

  // ---------------------------------------------------------------------------
  // State
  // ---------------------------------------------------------------------------

  /** The claim status enum, in declaration order: the tests read 0, 2, 3
      and 4 as Submitted, Approved, Rejected and Paid. */
  datatype ClaimStatus = Submitted | UnderReview | Approved | Rejected | Paid

  function StatusCode(s: ClaimStatus): nat {
    match s
    case Submitted => 0
    case UnderReview => 1
    case Approved => 2
    case Rejected => 3
    case Paid => 4
  }

  /** ABI decoding of a `uint8` into the enum: out-of-range values revert. */
  function StatusOf(code: nat): (r: Option<ClaimStatus>)
    ensures r.Some? <==> code <= 4
    ensures r.Some? ==> StatusCode(r.value) == code
  {
    if code == 0 then Some(Submitted)
    else if code == 1 then Some(UnderReview)
    else if code == 2 then Some(Approved)
    else if code == 3 then Some(Rejected)
    else if code == 4 then Some(Paid)
    else None
  }

  lemma {:induction false} StatusCodeRoundTrip(s: ClaimStatus)
    ensures StatusOf(StatusCode(s)) == Some(s)
  {
  }

  datatype Policy = Policy(
    holder: Address,
    isActive: bool,
    age: nat,
    drivingYears: nat,
    vehicleValue: nat,
    premium: nat)

  datatype Claim = Claim(
    policyId: nat,
    claimant: Address,
    damageAmount: nat,
    repairCost: nat,
    severity: nat,
    documentHash: string,
    isConfidential: bool,
    status: ClaimStatus)

  /** The zero-filled record a Solidity mapping yields for a missing key. */
  const NoClaim := Claim(0, ZeroAddress, 0, 0, 0, "", false, Submitted)

  datatype Review = Review(reviewer: Address, assessedDamage: nat, approvedAmount: nat, notes: string)

  datatype Contract = Contract(
    company: Address,
    pauserSetAddress: Address,
    pauserSet: PauserSet,
    paused: bool,
    nextPolicyId: nat,
    nextClaimId: nat,
    policies: map<nat, Policy>,
    claims: map<nat, Claim>,
    reviews: map<nat, Review>,
    policiesOf: map<Address, seq<nat>>,
    claimsOf: map<Address, seq<nat>>,
    reviewers: set<Address>)

  datatype Event =
    | PolicyCreated(policyId: nat, holder: Address)
    | ClaimSubmitted(claimId: nat, policyId: nat, claimant: Address)
    | ClaimReviewed(claimId: nat, reviewer: Address)
    | ClaimApproved(claimId: nat, amount: nat)
    | ClaimPaid(claimId: nat, claimant: Address)
    | ReviewerAuthorized(reviewer: Address)
    | ReviewerRevoked(reviewer: Address)
    | ContractPaused(account: Address)
    | ContractUnpaused(account: Address)

  /** A successful transaction: the new state and its log. */
  datatype Tx = Tx(state: Contract, events: seq<Event>)

  /** The eligibility rules for a new policy.  The tests pin them only at a
      few points (see `AgreesWithTests`), so they are a parameter. */
  datatype Rules = Rules(ageOk: nat -> bool, drivingYearsOk: (nat, nat) -> bool)

  /** The examples the tests assert: ages 17 and 101 are refused, a
      25-year-old with 20 years of driving is refused, and the profiles
      (30, 10), (25, 5), (35, 15) and (40, 20) are accepted. */
  predicate AgreesWithTests(rules: Rules) {
    && !rules.ageOk(17) && !rules.ageOk(101)
    && rules.ageOk(25) && rules.ageOk(30) && rules.ageOk(35) && rules.ageOk(40)
    && !rules.drivingYearsOk(25, 20)
    && rules.drivingYearsOk(30, 10) && rules.drivingYearsOk(25, 5)
    && rules.drivingYearsOk(35, 15) && rules.drivingYearsOk(40, 20)
  }

  /** One rule set consistent with every asserted example: adults up to 100,
      licensed no earlier than at 18. */
  const SampleRules := Rules(age => 18 <= age <= 100, (age, years) => years + 18 <= age)

  lemma {:induction false} SampleRulesAgreeWithTests()
    ensures AgreesWithTests(SampleRules)
  {
  }

  // ---------------------------------------------------------------------------
  // Getters
  // ---------------------------------------------------------------------------

  /** `getPoliciesByHolder(holder)`. */
  function PoliciesByHolder(c: Contract, holder: Address): seq<nat> {
    if holder in c.policiesOf then c.policiesOf[holder] else []
  }

  /** `getClaimsByHolder(holder)`. */
  function ClaimsByHolder(c: Contract, holder: Address): seq<nat> {
    if holder in c.claimsOf then c.claimsOf[holder] else []
  }

  /** `claims(id)`. */
  function ClaimRecord(c: Contract, id: nat): Claim {
    if id in c.claims then c.claims[id] else NoClaim
  }

  /** `authorizedReviewers(a)`. */
  predicate IsReviewer(c: Contract, a: Address) {
    a in c.reviewers
  }

  /** `isPauseAllowed()`. */
  function IsPauseAllowed(c: Contract): (r: bool)
    ensures r <==> !c.paused
  {
    !c.paused
  }

  // ---------------------------------------------------------------------------
  // Transactions
  // ---------------------------------------------------------------------------

  const NotCompany := "Not authorized insurance company"

  /** The constructor, called by `sender`. */
  function Deploy(sender: Address, pauserSetAddress: Address, pauserSet: PauserSet): (r: Result<Contract, string>)
    ensures pauserSetAddress == ZeroAddress <==> r == Err("Invalid PauserSet address")
    ensures r.Ok? ==>
              && r.value.company == sender
              && r.value.pauserSetAddress == pauserSetAddress
              && r.value.pauserSet == pauserSet
              && !r.value.paused
              && r.value.nextPolicyId == 1 && r.value.nextClaimId == 1
              && r.value.policies == map[] && r.value.claims == map[] && r.value.reviews == map[]
              && r.value.policiesOf == map[] && r.value.claimsOf == map[]
              && r.value.reviewers == {}
  {
    if pauserSetAddress == ZeroAddress then Err("Invalid PauserSet address")
    else Ok(Contract(sender, pauserSetAddress, pauserSet, false, 1, 1, map[], map[], map[], map[], map[], {}))
  }

  /** The state `createPolicy` produces for a new policy `p` of `caller`. */
  function WithPolicy(c: Contract, caller: Address, p: Policy): Contract {
    c.(nextPolicyId := c.nextPolicyId + 1,
       policies := c.policies[c.nextPolicyId := p],
       policiesOf := c.policiesOf[caller := PoliciesByHolder(c, caller) + [c.nextPolicyId]])
  }

  /** The state `submitClaim` produces for a new claim `k` of `caller`. */
  function WithClaim(c: Contract, caller: Address, k: Claim): Contract {
    c.(nextClaimId := c.nextClaimId + 1,
       claims := c.claims[c.nextClaimId := k],
       claimsOf := c.claimsOf[caller := ClaimsByHolder(c, caller) + [c.nextClaimId]])
  }

  /** The state after claim `id` moves to `status` and the review records
      become `reviews`, which must hold `id`. */
  function WithStatus(c: Contract, id: nat, status: ClaimStatus, reviews: map<nat, Review>): Contract
    requires id in c.claims
  {
    c.(claims := c.claims[id := c.claims[id].(status := status)], reviews := reviews)
  }

  /** `createPolicy(age, drivingYears, vehicleValue, premium)`: refused while
      paused, then the eligibility rules and the two amounts are checked in
      that order. */
  function CreatePolicy(c: Contract, rules: Rules, caller: Address, age: nat, drivingYears: nat,
                        vehicleValue: nat, premium: nat): (r: Result<Tx, string>)
    ensures c.paused ==> r == Err("Contract is paused")
    ensures !c.paused && !rules.ageOk(age) ==> r == Err("Invalid age")
    ensures !c.paused && rules.ageOk(age) && !rules.drivingYearsOk(age, drivingYears) ==>
              r == Err("Invalid driving years")
    ensures !c.paused && rules.ageOk(age) && rules.drivingYearsOk(age, drivingYears) && vehicleValue == 0 ==>
              r == Err("Vehicle value must be positive")
    ensures !c.paused && rules.ageOk(age) && rules.drivingYearsOk(age, drivingYears) && vehicleValue > 0 && premium == 0 ==>
              r == Err("Premium must be positive")
    ensures r.Ok? <==>
              !c.paused && rules.ageOk(age) && rules.drivingYearsOk(age, drivingYears) && vehicleValue > 0 && premium > 0
    ensures r.Ok? ==>
              var id := c.nextPolicyId;
              var s := r.value.state;
              && s == WithPolicy(c, caller, Policy(caller, true, age, drivingYears, vehicleValue, premium))
              && s.nextPolicyId == id + 1
              && s.policies == c.policies[id := Policy(caller, true, age, drivingYears, vehicleValue, premium)]
              && PoliciesByHolder(s, caller) == PoliciesByHolder(c, caller) + [id]
              && (forall h :: h != caller ==> PoliciesByHolder(s, h) == PoliciesByHolder(c, h))
              && s.claims == c.claims && s.reviewers == c.reviewers && s.company == c.company
              && r.value.events == [PolicyCreated(id, caller)]
  {
    if c.paused then Err("Contract is paused")
    else if !rules.ageOk(age) then Err("Invalid age")
    else if !rules.drivingYearsOk(age, drivingYears) then Err("Invalid driving years")
    else if vehicleValue == 0 then Err("Vehicle value must be positive")
    else if premium == 0 then Err("Premium must be positive")
    else
      var policy := Policy(caller, true, age, drivingYears, vehicleValue, premium);
      Ok(Tx(WithPolicy(c, caller, policy), [PolicyCreated(c.nextPolicyId, caller)]))
  }

  /** The caller holds the policy (a missing policy has the zero holder,
      which no caller is). */
  predicate HoldsPolicy(c: Contract, caller: Address, policyId: nat) {
    policyId in c.policies && c.policies[policyId].holder == caller
  }

  /** `submitClaim(policyId, damageAmount, repairCost, severity,
      documentHash, isConfidential)`: only the policy holder, with positive
      amounts, a severity the enum can hold (0 to 3) and a document hash. */
  function SubmitClaim(c: Contract, caller: Address, policyId: nat, damageAmount: nat, repairCost: nat,
                       severity: nat, documentHash: string, isConfidential: bool): (r: Result<Tx, string>)
    ensures !HoldsPolicy(c, caller, policyId) ==> r == Err("Not policy holder")
    ensures HoldsPolicy(c, caller, policyId) && damageAmount == 0 ==> r == Err("Damage amount must be positive")
    ensures HoldsPolicy(c, caller, policyId) && damageAmount > 0 && repairCost == 0 ==>
              r == Err("Repair cost must be positive")
    ensures HoldsPolicy(c, caller, policyId) && damageAmount > 0 && repairCost > 0 && severity >= 4 ==> r == Err("")
    ensures HoldsPolicy(c, caller, policyId) && damageAmount > 0 && repairCost > 0 && severity < 4 && documentHash == "" ==>
              r == Err("Document hash required")
    ensures r.Ok? <==>
              HoldsPolicy(c, caller, policyId) && damageAmount > 0 && repairCost > 0 && severity < 4 && documentHash != ""
    ensures r.Ok? ==>
              var id := c.nextClaimId;
              var s := r.value.state;
              && s == WithClaim(c, caller, Claim(policyId, caller, damageAmount, repairCost, severity,
                                                documentHash, isConfidential, Submitted))
              && s.nextClaimId == id + 1
              && s.claims == c.claims[id := Claim(policyId, caller, damageAmount, repairCost, severity,
                                                  documentHash, isConfidential, Submitted)]
              && ClaimsByHolder(s, caller) == ClaimsByHolder(c, caller) + [id]
              && (forall h :: h != caller ==> ClaimsByHolder(s, h) == ClaimsByHolder(c, h))
              && s.policies == c.policies && s.reviewers == c.reviewers && s.company == c.company
              && r.value.events == [ClaimSubmitted(id, policyId, caller)]
  {
    if !HoldsPolicy(c, caller, policyId) then Err("Not policy holder")
    else if damageAmount == 0 then Err("Damage amount must be positive")
    else if repairCost == 0 then Err("Repair cost must be positive")
    else if severity >= 4 then Err("")
    else if documentHash == "" then Err("Document hash required")
    else
      var claim := Claim(policyId, caller, damageAmount, repairCost, severity, documentHash, isConfidential, Submitted);
      Ok(Tx(WithClaim(c, caller, claim), [ClaimSubmitted(c.nextClaimId, policyId, caller)]))
  }

  /** The `onlyReviewer` guard: the company or an authorised reviewer. */
  predicate MayReview(c: Contract, caller: Address) {
    caller == c.company || caller in c.reviewers
  }

  /** `reviewClaim(claimId, assessedDamage, approvedAmount, notes, newStatus)`. */
  function ReviewClaim(c: Contract, caller: Address, claimId: nat, assessedDamage: nat, approvedAmount: nat,
                       notes: string, newStatus: nat): (r: Result<Tx, string>)
    ensures !MayReview(c, caller) ==> r == Err("Not authorized reviewer")
    ensures MayReview(c, caller) && claimId !in c.claims ==> r == Err("Claim does not exist")
    ensures MayReview(c, caller) && claimId in c.claims && assessedDamage == 0 ==>
              r == Err("Assessed damage must be positive")
    ensures MayReview(c, caller) && claimId in c.claims && assessedDamage > 0 && newStatus == 0 ==>
              r == Err("Cannot revert to submitted")
    ensures MayReview(c, caller) && claimId in c.claims && assessedDamage > 0 && newStatus > 4 ==> r == Err("")
    ensures r.Ok? <==> MayReview(c, caller) && claimId in c.claims && assessedDamage > 0 && 1 <= newStatus <= 4
    ensures r.Ok? ==>
              var s := r.value.state;
              && claimId in s.claims && StatusCode(s.claims[claimId].status) == newStatus
              && s == WithStatus(c, claimId, s.claims[claimId].status,
                                 c.reviews[claimId := Review(caller, assessedDamage, approvedAmount, notes)])
              && s.claims == c.claims[claimId := c.claims[claimId].(status := s.claims[claimId].status)]
              && s.reviews == c.reviews[claimId := Review(caller, assessedDamage, approvedAmount, notes)]
              && s.policies == c.policies && s.reviewers == c.reviewers && s.company == c.company
              && r.value.events == [ClaimReviewed(claimId, caller)] +
                                   (if newStatus == 2 then [ClaimApproved(claimId, approvedAmount)] else [])
  {
    if !MayReview(c, caller) then Err("Not authorized reviewer")
    else if claimId !in c.claims then Err("Claim does not exist")
    else if assessedDamage == 0 then Err("Assessed damage must be positive")
    else if newStatus == 0 then Err("Cannot revert to submitted")
    else
      match StatusOf(newStatus)
      case None => Err("")
      case Some(status) =>
        var s := WithStatus(c, claimId, status, c.reviews[claimId := Review(caller, assessedDamage, approvedAmount, notes)]);
        var events := [ClaimReviewed(claimId, caller)] +
          (if status == Approved then [ClaimApproved(claimId, approvedAmount)] else []);
        Ok(Tx(s, events))
  }

  /** `processPayment(claimId)`: the company pays an approved claim. */
  function ProcessPayment(c: Contract, caller: Address, claimId: nat): (r: Result<Tx, string>)
    ensures caller != c.company ==> r == Err(NotCompany)
    ensures caller == c.company && ClaimRecord(c, claimId).status != Approved ==> r == Err("Claim not approved")
    ensures r.Ok? <==> caller == c.company && ClaimRecord(c, claimId).status == Approved
    ensures r.Ok? ==>
              && r.value.state == c.(claims := c.claims[claimId := c.claims[claimId].(status := Paid)])
              && r.value.events == [ClaimPaid(claimId, c.claims[claimId].claimant)]
  {
    if caller != c.company then Err(NotCompany)
    else if ClaimRecord(c, claimId).status != Approved then Err("Claim not approved")
    else
      var claim := c.claims[claimId];
      Ok(Tx(c.(claims := c.claims[claimId := claim.(status := Paid)]), [ClaimPaid(claimId, claim.claimant)]))
  }

  /** `authorizeReviewer(reviewer)`. */
  function AuthorizeReviewer(c: Contract, caller: Address, reviewer: Address): (r: Result<Tx, string>)
    ensures caller != c.company ==> r == Err(NotCompany)
    ensures caller == c.company && reviewer == ZeroAddress ==> r == Err("Invalid reviewer address")
    ensures caller == c.company && reviewer != ZeroAddress && reviewer in c.reviewers ==>
              r == Err("Reviewer already authorized")
    ensures r.Ok? <==> caller == c.company && reviewer != ZeroAddress && reviewer !in c.reviewers
    ensures r.Ok? ==>
              r.value.state == c.(reviewers := c.reviewers + {reviewer}) &&
              r.value.events == [ReviewerAuthorized(reviewer)]
  {
    if caller != c.company then Err(NotCompany)
    else if reviewer == ZeroAddress then Err("Invalid reviewer address")
    else if reviewer in c.reviewers then Err("Reviewer already authorized")
    else Ok(Tx(c.(reviewers := c.reviewers + {reviewer}), [ReviewerAuthorized(reviewer)]))
  }

  /** `revokeReviewer(reviewer)`. */
  function RevokeReviewer(c: Contract, caller: Address, reviewer: Address): (r: Result<Tx, string>)
    ensures caller != c.company ==> r == Err(NotCompany)
    ensures caller == c.company && reviewer !in c.reviewers ==> r == Err("Reviewer not authorized")
    ensures r.Ok? <==> caller == c.company && reviewer in c.reviewers
    ensures r.Ok? ==>
              r.value.state == c.(reviewers := c.reviewers - {reviewer}) &&
              r.value.events == [ReviewerRevoked(reviewer)]
  {
    if caller != c.company then Err(NotCompany)
    else if reviewer !in c.reviewers then Err("Reviewer not authorized")
    else Ok(Tx(c.(reviewers := c.reviewers - {reviewer}), [ReviewerRevoked(reviewer)]))
  }

  /** `pause()`: only an address the `PauserSet` authorises. */
  function Pause(c: Contract, caller: Address): (r: Result<Tx, string>)
    ensures !IsAuthorizedPauser(c.pauserSet, caller) ==> r == Err("Not authorized pauser")
    ensures IsAuthorizedPauser(c.pauserSet, caller) && c.paused ==> r == Err("Already paused")
    ensures r.Ok? <==> IsAuthorizedPauser(c.pauserSet, caller) && !c.paused
    ensures r.Ok? ==> r.value.state == c.(paused := true) && r.value.events == [ContractPaused(caller)]
  {
    if !IsAuthorizedPauser(c.pauserSet, caller) then Err("Not authorized pauser")
    else if c.paused then Err("Already paused")
    else Ok(Tx(c.(paused := true), [ContractPaused(caller)]))
  }

  /** `unpause()`. */
  function Unpause(c: Contract, caller: Address): (r: Result<Tx, string>)
    ensures !IsAuthorizedPauser(c.pauserSet, caller) ==> r == Err("Not authorized pauser")
    ensures IsAuthorizedPauser(c.pauserSet, caller) && !c.paused ==> r == Err("Not paused")
    ensures r.Ok? <==> IsAuthorizedPauser(c.pauserSet, caller) && c.paused
    ensures r.Ok? ==> r.value.state == c.(paused := false) && r.value.events == [ContractUnpaused(caller)]
  {
    if !IsAuthorizedPauser(c.pauserSet, caller) then Err("Not authorized pauser")
    else if !c.paused then Err("Not paused")
    else Ok(Tx(c.(paused := false), [ContractUnpaused(caller)]))
  }

  /** `updateInsuranceCompany(newCompany)`. */
  function UpdateInsuranceCompany(c: Contract, caller: Address, newCompany: Address): (r: Result<Tx, string>)
    ensures caller != c.company ==> r == Err(NotCompany)
    ensures caller == c.company && newCompany == ZeroAddress ==> r == Err("Invalid company address")
    ensures r.Ok? <==> caller == c.company && newCompany != ZeroAddress
    ensures r.Ok? ==> r.value.state == c.(company := newCompany) && r.value.events == []
  {
    if caller != c.company then Err(NotCompany)
    else if newCompany == ZeroAddress then Err("Invalid company address")
    else Ok(Tx(c.(company := newCompany), []))
  }

  /** What `getClaimDetails` returns. */
  datatype ClaimDetails = ClaimDetails(
    policyId: nat, claimant: Address, documentHash: string, isConfidential: bool, status: ClaimStatus)

  /** `getClaimDetails(claimId)`: visible to the claimant, the company and
      authorised reviewers only. */
  function GetClaimDetails(c: Contract, caller: Address, claimId: nat): (r: Result<ClaimDetails, string>)
    ensures r.Ok? <==>
              caller == ClaimRecord(c, claimId).claimant || caller == c.company || caller in c.reviewers
    ensures r.Err? ==> r.error == "Not authorized to view claim details"
    ensures r.Ok? ==> r.value.policyId == ClaimRecord(c, claimId).policyId &&
                      r.value.claimant == ClaimRecord(c, claimId).claimant &&
                      r.value.documentHash == ClaimRecord(c, claimId).documentHash &&
                      r.value.isConfidential == ClaimRecord(c, claimId).isConfidential &&
                      r.value.status == ClaimRecord(c, claimId).status
  {
    var claim := ClaimRecord(c, claimId);
    if caller != claim.claimant && caller != c.company && caller !in c.reviewers then
      Err("Not authorized to view claim details")
    else
      Ok(ClaimDetails(claim.policyId, claim.claimant, claim.documentHash, claim.isConfidential, claim.status))
  }

  // ---------------------------------------------------------------------------
  // Invariant
  // ---------------------------------------------------------------------------

  predicate Increasing(ids: seq<nat>) {
    forall i, j :: 0 <= i < j < |ids| ==> ids[i] < ids[j]
  }

  /** Ids are handed out densely from 1. */
  ghost predicate CountersValid(c: Contract) {
    && c.nextPolicyId >= 1 && c.nextClaimId >= 1
    && (forall id :: id in c.policies <==> 1 <= id < c.nextPolicyId)
    && (forall id :: id in c.claims <==> 1 <= id < c.nextClaimId)
  }

  /** Every claim was filed by the holder of an existing policy, with the
      arguments `submitClaim` insists on. */
  ghost predicate ClaimsWellFormed(c: Contract) {
    forall id :: id in c.claims ==>
      && c.claims[id].policyId in c.policies
      && c.claims[id].claimant == c.policies[c.claims[id].policyId].holder
      && c.claims[id].claimant != ZeroAddress
      && c.claims[id].damageAmount > 0 && c.claims[id].repairCost > 0
      && c.claims[id].documentHash != ""
  }

  /** Reviews exist only for claims, and a claim has left Submitted exactly
      when it has been reviewed. */
  ghost predicate ReviewsConsistent(c: Contract) {
    && (forall id :: id in c.reviews ==> id in c.claims)
    && (forall id :: id in c.claims ==> (c.claims[id].status != Submitted <==> id in c.reviews))
  }

  /** The holder index lists, in creation order, exactly the holder's policies. */
  ghost predicate PolicyIndexValid(c: Contract) {
    && (forall h :: h in c.policiesOf ==> Increasing(c.policiesOf[h]))
    && (forall h, k :: h in c.policiesOf && 0 <= k < |c.policiesOf[h]| ==>
          c.policiesOf[h][k] in c.policies && c.policies[c.policiesOf[h][k]].holder == h)
    && (forall id :: id in c.policies ==> id in PoliciesByHolder(c, c.policies[id].holder))
  }

  /** The claimant index lists, in filing order, exactly the claimant's claims. */
  ghost predicate ClaimIndexValid(c: Contract) {
    && (forall h :: h in c.claimsOf ==> Increasing(c.claimsOf[h]))
    && (forall h, k :: h in c.claimsOf && 0 <= k < |c.claimsOf[h]| ==>
          c.claimsOf[h][k] in c.claims && c.claims[c.claimsOf[h][k]].claimant == h)
    && (forall id :: id in c.claims ==> id in ClaimsByHolder(c, c.claims[id].claimant))
  }

  ghost predicate RolesValid(c: Contract) {
    c.company != ZeroAddress && c.pauserSetAddress != ZeroAddress && ZeroAddress !in c.reviewers
  }

  ghost predicate Valid(c: Contract) {
    && CountersValid(c)
    && ClaimsWellFormed(c)
    && ReviewsConsistent(c)
    && PolicyIndexValid(c)
    && ClaimIndexValid(c)
    && RolesValid(c)
  }

  lemma {:induction false} DeployEstablishesValid(sender: Address, pauserSetAddress: Address, pauserSet: PauserSet)
    requires sender != ZeroAddress
    ensures Deploy(sender, pauserSetAddress, pauserSet).Ok? ==> Valid(Deploy(sender, pauserSetAddress, pauserSet).value)
  {
  }

  lemma {:induction false} WithPolicyKeepsClaims(c: Contract, caller: Address, p: Policy)
    requires CountersValid(c) && ClaimsWellFormed(c)
    ensures ClaimsWellFormed(WithPolicy(c, caller, p))
  {
    var s := WithPolicy(c, caller, p);
    forall id | id in s.claims
      ensures s.claims[id].policyId in s.policies
      ensures s.claims[id].claimant == s.policies[s.claims[id].policyId].holder
    {
      assert c.claims[id].policyId in c.policies;
    }
  }

  lemma {:induction false} WithPolicyKeepsPolicyIndex(c: Contract, caller: Address, p: Policy)
    requires CountersValid(c) && PolicyIndexValid(c) && p.holder == caller
    ensures PolicyIndexValid(WithPolicy(c, caller, p))
  {
    var s := WithPolicy(c, caller, p);
    var id := c.nextPolicyId;
    var before := PoliciesByHolder(c, caller);
    assert forall k :: 0 <= k < |before| ==> before[k] in c.policies;
    assert Increasing(before + [id]);
    forall h, k | h in s.policiesOf && 0 <= k < |s.policiesOf[h]|
      ensures s.policiesOf[h][k] in s.policies && s.policies[s.policiesOf[h][k]].holder == h
    {
      if h == caller && k < |before| {
        assert s.policiesOf[h][k] == before[k];
      }
    }
    forall pid | pid in s.policies ensures pid in PoliciesByHolder(s, s.policies[pid].holder) {
      if pid != id {
        var h := c.policies[pid].holder;
        assert pid in PoliciesByHolder(c, h);
        if h == caller {
          assert PoliciesByHolder(s, h) == PoliciesByHolder(c, h) + [id];
        }
      } else {
        assert PoliciesByHolder(s, caller) == before + [id];
      }
    }
  }

  lemma {:induction false} WithPolicyPreservesValid(c: Contract, caller: Address, p: Policy)
    requires Valid(c) && p.holder == caller
    ensures Valid(WithPolicy(c, caller, p))
  {
    WithPolicyKeepsClaims(c, caller, p);
    WithPolicyKeepsPolicyIndex(c, caller, p);
    WithPolicyKeepsRest(c, caller, p);
  }

  lemma {:induction false} WithPolicyKeepsRest(c: Contract, caller: Address, p: Policy)
    requires CountersValid(c) && ReviewsConsistent(c) && ClaimIndexValid(c) && RolesValid(c)
    ensures var s := WithPolicy(c, caller, p);
            CountersValid(s) && ReviewsConsistent(s) && ClaimIndexValid(s) && RolesValid(s)
  {
  }

  lemma {:induction false} CreatePolicyPreservesValid(c: Contract, rules: Rules, caller: Address, age: nat,
                                   drivingYears: nat, vehicleValue: nat, premium: nat)
    requires Valid(c)
    requires CreatePolicy(c, rules, caller, age, drivingYears, vehicleValue, premium).Ok?
    ensures Valid(CreatePolicy(c, rules, caller, age, drivingYears, vehicleValue, premium).value.state)
  {
    WithPolicyPreservesValid(c, caller, Policy(caller, true, age, drivingYears, vehicleValue, premium));
  }

  lemma {:induction false} WithClaimKeepsReviews(c: Contract, caller: Address, k: Claim)
    requires CountersValid(c) && ReviewsConsistent(c) && k.status == Submitted
    ensures ReviewsConsistent(WithClaim(c, caller, k))
  {
    var id := c.nextClaimId;
    assert id !in c.claims;
  }

  lemma {:induction false} WithClaimKeepsClaimIndex(c: Contract, caller: Address, k: Claim)
    requires CountersValid(c) && ClaimIndexValid(c) && k.claimant == caller
    ensures ClaimIndexValid(WithClaim(c, caller, k))
  {
    var s := WithClaim(c, caller, k);
    var id := c.nextClaimId;
    var before := ClaimsByHolder(c, caller);
    assert forall j :: 0 <= j < |before| ==> before[j] in c.claims;
    assert Increasing(before + [id]);
    forall h, j | h in s.claimsOf && 0 <= j < |s.claimsOf[h]|
      ensures s.claimsOf[h][j] in s.claims && s.claims[s.claimsOf[h][j]].claimant == h
    {
      if h == caller && j < |before| {
        assert s.claimsOf[h][j] == before[j];
      }
    }
    forall cid | cid in s.claims ensures cid in ClaimsByHolder(s, s.claims[cid].claimant) {
      if cid != id {
        var h := c.claims[cid].claimant;
        assert cid in ClaimsByHolder(c, h);
        if h == caller {
          assert ClaimsByHolder(s, h) == ClaimsByHolder(c, h) + [id];
        }
      } else {
        assert ClaimsByHolder(s, caller) == before + [id];
      }
    }
  }

  lemma {:induction false} WithClaimPreservesValid(c: Contract, caller: Address, k: Claim)
    requires Valid(c) && k.claimant == caller && caller != ZeroAddress && k.status == Submitted
    requires HoldsPolicy(c, caller, k.policyId)
    requires k.damageAmount > 0 && k.repairCost > 0 && k.documentHash != ""
    ensures Valid(WithClaim(c, caller, k))
  {
    WithClaimKeepsReviews(c, caller, k);
    WithClaimKeepsClaimIndex(c, caller, k);
    WithClaimKeepsRest(c, caller, k);
  }

  lemma {:induction false} WithClaimKeepsRest(c: Contract, caller: Address, k: Claim)
    requires CountersValid(c) && ClaimsWellFormed(c) && PolicyIndexValid(c) && RolesValid(c)
    requires k.claimant == caller && caller != ZeroAddress && HoldsPolicy(c, caller, k.policyId)
    requires k.damageAmount > 0 && k.repairCost > 0 && k.documentHash != ""
    ensures var s := WithClaim(c, caller, k);
            CountersValid(s) && ClaimsWellFormed(s) && PolicyIndexValid(s) && RolesValid(s)
  {
  }

  lemma {:induction false} SubmitClaimPreservesValid(c: Contract, caller: Address, policyId: nat, damageAmount: nat,
                                  repairCost: nat, severity: nat, documentHash: string, isConfidential: bool)
    requires Valid(c) && caller != ZeroAddress
    requires SubmitClaim(c, caller, policyId, damageAmount, repairCost, severity, documentHash, isConfidential).Ok?
    ensures Valid(SubmitClaim(c, caller, policyId, damageAmount, repairCost, severity, documentHash, isConfidential).value.state)
  {
    WithClaimPreservesValid(c, caller,
      Claim(policyId, caller, damageAmount, repairCost, severity, documentHash, isConfidential, Submitted));
  }

  lemma {:induction false} WithStatusPreservesValid(c: Contract, id: nat, status: ClaimStatus, reviews: map<nat, Review>)
    requires Valid(c) && id in c.claims && status != Submitted
    requires forall k :: k in reviews <==> k in c.reviews || k == id
    ensures Valid(WithStatus(c, id, status, reviews))
  {
    WithStatusKeepsCounters(c, id, status, reviews);
    WithStatusKeepsClaims(c, id, status, reviews);
    WithStatusKeepsReviews(c, id, status, reviews);
    WithStatusKeepsClaimIndex(c, id, status, reviews);
    WithStatusKeepsRest(c, id, status, reviews);
  }

  lemma {:induction false} WithStatusKeepsCounters(c: Contract, id: nat, status: ClaimStatus, reviews: map<nat, Review>)
    requires CountersValid(c) && id in c.claims
    ensures CountersValid(WithStatus(c, id, status, reviews))
  {
  }

  lemma {:induction false} WithStatusKeepsClaims(c: Contract, id: nat, status: ClaimStatus, reviews: map<nat, Review>)
    requires ClaimsWellFormed(c) && id in c.claims
    ensures ClaimsWellFormed(WithStatus(c, id, status, reviews))
  {
  }

  lemma {:induction false} WithStatusKeepsReviews(c: Contract, id: nat, status: ClaimStatus, reviews: map<nat, Review>)
    requires ReviewsConsistent(c) && id in c.claims && status != Submitted
    requires forall k :: k in reviews <==> k in c.reviews || k == id
    ensures ReviewsConsistent(WithStatus(c, id, status, reviews))
  {
  }

  lemma {:induction false} WithStatusKeepsClaimIndex(c: Contract, id: nat, status: ClaimStatus, reviews: map<nat, Review>)
    requires ClaimIndexValid(c) && id in c.claims
    ensures ClaimIndexValid(WithStatus(c, id, status, reviews))
  {
    var s := WithStatus(c, id, status, reviews);
    assert forall h :: ClaimsByHolder(s, h) == ClaimsByHolder(c, h);
  }

  lemma {:induction false} WithStatusKeepsRest(c: Contract, id: nat, status: ClaimStatus, reviews: map<nat, Review>)
    requires PolicyIndexValid(c) && RolesValid(c) && id in c.claims
    ensures PolicyIndexValid(WithStatus(c, id, status, reviews)) && RolesValid(WithStatus(c, id, status, reviews))
  {
    var s := WithStatus(c, id, status, reviews);
    assert forall h :: PoliciesByHolder(s, h) == PoliciesByHolder(c, h);
  }

  lemma {:induction false} ReviewClaimPreservesValid(c: Contract, caller: Address, claimId: nat, assessedDamage: nat,
                                  approvedAmount: nat, notes: string, newStatus: nat)
    requires Valid(c)
    requires ReviewClaim(c, caller, claimId, assessedDamage, approvedAmount, notes, newStatus).Ok?
    ensures Valid(ReviewClaim(c, caller, claimId, assessedDamage, approvedAmount, notes, newStatus).value.state)
  {
    ReviewClaimState(c, caller, claimId, assessedDamage, approvedAmount, notes, newStatus);
    WithStatusPreservesValid(c, claimId, StatusOf(newStatus).value,
      c.reviews[claimId := Review(caller, assessedDamage, approvedAmount, notes)]);
  }

  lemma {:induction false} ReviewClaimState(c: Contract, caller: Address, claimId: nat, assessedDamage: nat,
                         approvedAmount: nat, notes: string, newStatus: nat)
    requires ReviewClaim(c, caller, claimId, assessedDamage, approvedAmount, notes, newStatus).Ok?
    ensures claimId in c.claims && StatusOf(newStatus).Some? && StatusOf(newStatus).value != Submitted
    ensures ReviewClaim(c, caller, claimId, assessedDamage, approvedAmount, notes, newStatus).value.state ==
            WithStatus(c, claimId, StatusOf(newStatus).value,
                       c.reviews[claimId := Review(caller, assessedDamage, approvedAmount, notes)])
  {
  }

  lemma {:induction false} ProcessPaymentPreservesValid(c: Contract, caller: Address, claimId: nat)
    requires Valid(c)
    requires ProcessPayment(c, caller, claimId).Ok?
    ensures Valid(ProcessPayment(c, caller, claimId).value.state)
  {
    assert claimId in c.claims;
    WithStatusPreservesValid(c, claimId, Paid, c.reviews);
    assert ProcessPayment(c, caller, claimId).value.state == WithStatus(c, claimId, Paid, c.reviews);
  }

  /** A transaction that leaves every record alone keeps the invariant as
      long as the roles stay well formed. */
  lemma {:induction false} RecordsUnchangedPreservesValid(c: Contract, s: Contract)
    requires Valid(c) && RolesValid(s)
    requires s.policies == c.policies && s.claims == c.claims && s.reviews == c.reviews
    requires s.policiesOf == c.policiesOf && s.claimsOf == c.claimsOf
    requires s.nextPolicyId == c.nextPolicyId && s.nextClaimId == c.nextClaimId
    ensures Valid(s)
  {
    RecordsUnchangedKeepsRecords(c, s);
    RecordsUnchangedKeepsIndexes(c, s);
  }

  lemma {:induction false} RecordsUnchangedKeepsRecords(c: Contract, s: Contract)
    requires CountersValid(c) && ClaimsWellFormed(c) && ReviewsConsistent(c)
    requires s.policies == c.policies && s.claims == c.claims && s.reviews == c.reviews
    requires s.nextPolicyId == c.nextPolicyId && s.nextClaimId == c.nextClaimId
    ensures CountersValid(s) && ClaimsWellFormed(s) && ReviewsConsistent(s)
  {
  }

  lemma {:induction false} RecordsUnchangedKeepsIndexes(c: Contract, s: Contract)
    requires PolicyIndexValid(c) && ClaimIndexValid(c)
    requires s.policies == c.policies && s.claims == c.claims
    requires s.policiesOf == c.policiesOf && s.claimsOf == c.claimsOf
    ensures PolicyIndexValid(s) && ClaimIndexValid(s)
  {
    assert forall h :: PoliciesByHolder(s, h) == PoliciesByHolder(c, h);
    assert forall h :: ClaimsByHolder(s, h) == ClaimsByHolder(c, h);
  }

  lemma {:induction false} AuthorizeReviewerPreservesValid(c: Contract, caller: Address, who: Address)
    requires Valid(c) && AuthorizeReviewer(c, caller, who).Ok?
    ensures Valid(AuthorizeReviewer(c, caller, who).value.state)
  {
    RecordsUnchangedPreservesValid(c, AuthorizeReviewer(c, caller, who).value.state);
  }

  lemma {:induction false} RevokeReviewerPreservesValid(c: Contract, caller: Address, who: Address)
    requires Valid(c) && RevokeReviewer(c, caller, who).Ok?
    ensures Valid(RevokeReviewer(c, caller, who).value.state)
  {
    RecordsUnchangedPreservesValid(c, RevokeReviewer(c, caller, who).value.state);
  }

  lemma {:induction false} PauseSwitchPreservesValid(c: Contract, caller: Address)
    requires Valid(c)
    ensures Pause(c, caller).Ok? ==> Valid(Pause(c, caller).value.state)
    ensures Unpause(c, caller).Ok? ==> Valid(Unpause(c, caller).value.state)
  {
    if Pause(c, caller).Ok? {
      RecordsUnchangedPreservesValid(c, Pause(c, caller).value.state);
    }
    if Unpause(c, caller).Ok? {
      RecordsUnchangedPreservesValid(c, Unpause(c, caller).value.state);
    }
  }

  lemma {:induction false} UpdateInsuranceCompanyPreservesValid(c: Contract, caller: Address, who: Address)
    requires Valid(c) && UpdateInsuranceCompany(c, caller, who).Ok?
    ensures Valid(UpdateInsuranceCompany(c, caller, who).value.state)
  {
    RecordsUnchangedPreservesValid(c, UpdateInsuranceCompany(c, caller, who).value.state);
  }

  // ---------------------------------------------------------------------------
  // Properties
  // ---------------------------------------------------------------------------

  /** An external call to one of the contract's entry points. */
  datatype Call =
    | CreatePolicyCall(age: nat, drivingYears: nat, vehicleValue: nat, premium: nat)
    | SubmitClaimCall(policyId: nat, damageAmount: nat, repairCost: nat, severity: nat,
                      documentHash: string, isConfidential: bool)
    | ReviewClaimCall(claimId: nat, assessedDamage: nat, approvedAmount: nat, notes: string, newStatus: nat)
    | ProcessPaymentCall(claimId: nat)
    | AuthorizeReviewerCall(reviewer: Address)
    | RevokeReviewerCall(reviewer: Address)
    | PauseCall
    | UnpauseCall
    | UpdateInsuranceCompanyCall(newCompany: Address)

  datatype Transaction = Transaction(sender: Address, call: Call)

  /** `s` is a later state of `c`: no id counter went back, no policy was
      removed or rewritten, and no claim was removed or changed claimant. */
  ghost predicate KeepsRecords(c: Contract, s: Contract) {
    && s.nextPolicyId >= c.nextPolicyId && s.nextClaimId >= c.nextClaimId
    && (forall id :: id in c.policies ==> id in s.policies && s.policies[id] == c.policies[id])
    && (forall id :: id in c.claims ==> id in s.claims && s.claims[id].claimant == c.claims[id].claimant)
  }

  lemma {:induction false} KeepsRecordsTransitive(a: Contract, b: Contract, c: Contract)
    requires KeepsRecords(a, b) && KeepsRecords(b, c)
    ensures KeepsRecords(a, c)
  {
  }

  /** A new policy takes a fresh id, so no existing record is touched. */
  lemma {:induction false} CreatePolicyKeepsRecords(c: Contract, rules: Rules, caller: Address, age: nat,
                                 drivingYears: nat, vehicleValue: nat, premium: nat)
    ensures var r := CreatePolicy(c, rules, caller, age, drivingYears, vehicleValue, premium);
            r.Ok? && CountersValid(c) ==> KeepsRecords(c, r.value.state)
  {
    if CountersValid(c) {
      assert c.nextPolicyId !in c.policies;
    }
  }

  /** A new claim takes a fresh id, so no existing record is touched. */
  lemma {:induction false} SubmitClaimKeepsRecords(c: Contract, caller: Address, policyId: nat, damageAmount: nat,
                                 repairCost: nat, severity: nat, documentHash: string, isConfidential: bool)
    ensures var r := SubmitClaim(c, caller, policyId, damageAmount, repairCost, severity, documentHash, isConfidential);
            r.Ok? && CountersValid(c) ==> KeepsRecords(c, r.value.state)
  {
    if CountersValid(c) {
      assert c.nextClaimId !in c.claims;
    }
  }

  /** A status change touches neither the policies nor any claimant. */
  lemma {:induction false} WithStatusKeepsRecords(c: Contract, id: nat, status: ClaimStatus, reviews: map<nat, Review>)
    requires id in c.claims
    ensures KeepsRecords(c, WithStatus(c, id, status, reviews))
  {
  }

  lemma {:induction false} ReviewClaimKeepsRecords(c: Contract, caller: Address, claimId: nat, assessedDamage: nat,
                                approvedAmount: nat, notes: string, newStatus: nat)
    ensures ReviewClaim(c, caller, claimId, assessedDamage, approvedAmount, notes, newStatus).Ok? ==>
              KeepsRecords(c, ReviewClaim(c, caller, claimId, assessedDamage, approvedAmount, notes, newStatus).value.state)
  {
    if ReviewClaim(c, caller, claimId, assessedDamage, approvedAmount, notes, newStatus).Ok? {
      ReviewClaimState(c, caller, claimId, assessedDamage, approvedAmount, notes, newStatus);
      WithStatusKeepsRecords(c, claimId, StatusOf(newStatus).value,
        c.reviews[claimId := Review(caller, assessedDamage, approvedAmount, notes)]);
    }
  }

  lemma {:induction false} ProcessPaymentKeepsRecords(c: Contract, caller: Address, claimId: nat)
    ensures ProcessPayment(c, caller, claimId).Ok? ==> KeepsRecords(c, ProcessPayment(c, caller, claimId).value.state)
  {
    if ProcessPayment(c, caller, claimId).Ok? {
      assert claimId in c.claims;
      WithStatusKeepsRecords(c, claimId, Paid, c.reviews);
      assert ProcessPayment(c, caller, claimId).value.state == WithStatus(c, claimId, Paid, c.reviews);
    }
  }

  /** One transaction, dispatched to its entry point.  No entry point changes
      which `PauserSet` the contract consults, and none removes or rewrites
      a policy or changes who filed a claim. */
  function Execute(c: Contract, rules: Rules, t: Transaction): (r: Result<Tx, string>)
    ensures r.Ok? ==> r.value.state.pauserSet == c.pauserSet && r.value.state.pauserSetAddress == c.pauserSetAddress
    ensures r.Ok? && CountersValid(c) ==> KeepsRecords(c, r.value.state)
  {
    var caller := t.sender;
    match t.call
    case CreatePolicyCall(age, years, value, premium) =>
      CreatePolicyKeepsRecords(c, rules, caller, age, years, value, premium);
      CreatePolicy(c, rules, caller, age, years, value, premium)
    case SubmitClaimCall(pid, damage, repair, severity, hash, confidential) =>
      SubmitClaimKeepsRecords(c, caller, pid, damage, repair, severity, hash, confidential);
      SubmitClaim(c, caller, pid, damage, repair, severity, hash, confidential)
    case ReviewClaimCall(cid, assessed, approved, notes, status) =>
      ReviewClaimKeepsRecords(c, caller, cid, assessed, approved, notes, status);
      ReviewClaim(c, caller, cid, assessed, approved, notes, status)
    case ProcessPaymentCall(cid) =>
      ProcessPaymentKeepsRecords(c, caller, cid);
      ProcessPayment(c, caller, cid)
    case AuthorizeReviewerCall(who) => AuthorizeReviewer(c, caller, who)
    case RevokeReviewerCall(who) => RevokeReviewer(c, caller, who)
    case PauseCall => Pause(c, caller)
    case UnpauseCall => Unpause(c, caller)
    case UpdateInsuranceCompanyCall(who) => UpdateInsuranceCompany(c, caller, who)
  }

  /** The state after a transaction: a revert leaves it as it was. */
  function Next(c: Contract, rules: Rules, t: Transaction): Contract {
    var r := Execute(c, rules, t);
    if r.Ok? then r.value.state else c
  }

  function RunAll(c: Contract, rules: Rules, ts: seq<Transaction>): Contract
    decreases |ts|
  {
    if ts == [] then c else RunAll(Next(c, rules, ts[0]), rules, ts[1..])
  }

  lemma {:induction false} NextPreservesValid(c: Contract, rules: Rules, t: Transaction)
    requires Valid(c) && t.sender != ZeroAddress
    ensures Valid(Next(c, rules, t))
  {
    if Execute(c, rules, t).Ok? {
      var caller := t.sender;
      match t.call
      case CreatePolicyCall(age, years, value, premium) =>
        CreatePolicyPreservesValid(c, rules, caller, age, years, value, premium);
      case SubmitClaimCall(pid, damage, repair, severity, hash, confidential) =>
        SubmitClaimPreservesValid(c, caller, pid, damage, repair, severity, hash, confidential);
      case ReviewClaimCall(cid, assessed, approved, notes, status) =>
        ReviewClaimPreservesValid(c, caller, cid, assessed, approved, notes, status);
      case ProcessPaymentCall(cid) => ProcessPaymentPreservesValid(c, caller, cid);
      case AuthorizeReviewerCall(who) => AuthorizeReviewerPreservesValid(c, caller, who);
      case RevokeReviewerCall(who) => RevokeReviewerPreservesValid(c, caller, who);
      case PauseCall => PauseSwitchPreservesValid(c, caller);
      case UnpauseCall => PauseSwitchPreservesValid(c, caller);
      case UpdateInsuranceCompanyCall(who) => UpdateInsuranceCompanyPreservesValid(c, caller, who);
    }
  }

  /** Every reachable state satisfies the invariant: it holds after
      deployment and every transaction, successful or reverted, keeps it. */
  lemma {:induction false} RunAllPreservesValid(c: Contract, rules: Rules, ts: seq<Transaction>)
    requires Valid(c)
    requires forall i :: 0 <= i < |ts| ==> ts[i].sender != ZeroAddress
    ensures Valid(RunAll(c, rules, ts))
    decreases |ts|
  {
    if ts != [] {
      NextPreservesValid(c, rules, ts[0]);
      RunAllPreservesValid(Next(c, rules, ts[0]), rules, ts[1..]);
    }
  }

  /** The contract has no entry point that changes which `PauserSet` it
      consults or that set's members. */
  lemma {:induction false} RunAllKeepsPauserSet(c: Contract, rules: Rules, ts: seq<Transaction>)
    ensures RunAll(c, rules, ts).pauserSet == c.pauserSet
    ensures RunAll(c, rules, ts).pauserSetAddress == c.pauserSetAddress
    decreases |ts|
  {
    if ts != [] {
      RunAllKeepsPauserSet(Next(c, rules, ts[0]), rules, ts[1..]);
    }
  }

  /** Ids only grow: every policy and claim that exists stays, with the
      same holder and claimant, through any run. */
  lemma {:induction false} RunAllKeepsRecords(c: Contract, rules: Rules, ts: seq<Transaction>)
    requires Valid(c)
    requires forall i :: 0 <= i < |ts| ==> ts[i].sender != ZeroAddress
    ensures KeepsRecords(c, RunAll(c, rules, ts))
    decreases |ts|
  {
    if ts != [] {
      var n := Next(c, rules, ts[0]);
      NextPreservesValid(c, rules, ts[0]);
      RunAllKeepsRecords(n, rules, ts[1..]);
      KeepsRecordsTransitive(c, n, RunAll(n, rules, ts[1..]));
    }
  }

  /** Authorising and then revoking a reviewer restores the reviewer set. */
  lemma {:induction false} AuthorizeThenRevoke(c: Contract, reviewer: Address)
    requires reviewer != ZeroAddress && reviewer !in c.reviewers
    ensures var t1 := AuthorizeReviewer(c, c.company, reviewer);
            t1.Ok? && IsReviewer(t1.value.state, reviewer) &&
            var t2 := RevokeReviewer(t1.value.state, c.company, reviewer);
            t2.Ok? && !IsReviewer(t2.value.state, reviewer) && t2.value.state.reviewers == c.reviewers
  {
  }

  /** Pausing and unpausing are inverse, and `isPauseAllowed` tracks the flag. */
  lemma {:induction false} PauseThenUnpause(c: Contract, pauser: Address)
    requires IsAuthorizedPauser(c.pauserSet, pauser) && !c.paused
    ensures var t1 := Pause(c, pauser);
            t1.Ok? && !IsPauseAllowed(t1.value.state) &&
            Pause(t1.value.state, pauser) == Err("Already paused") &&
            var t2 := Unpause(t1.value.state, pauser);
            t2.Ok? && t2.value.state == c && IsPauseAllowed(t2.value.state)
  {
  }

  /** A paid claim can be neither paid again, until a new review approves
      it, nor disturbed by payment of another claim. */
  lemma {:induction false} PaymentIsFinal(c: Contract, claimId: nat, other: nat)
    requires ProcessPayment(c, c.company, claimId).Ok?
    ensures var s := ProcessPayment(c, c.company, claimId).value.state;
            ClaimRecord(s, claimId).status == Paid &&
            ProcessPayment(s, s.company, claimId) == Err("Claim not approved")
    ensures var s := ProcessPayment(c, c.company, claimId).value.state;
            other != claimId && ProcessPayment(s, s.company, other).Ok? ==>
              ClaimRecord(ProcessPayment(s, s.company, other).value.state, claimId) == ClaimRecord(s, claimId)
  {
  }

  /** The lifecycle the tests walk through: a policy, a claim, a reviewer
      authorised by the company approving it, and the company paying it,
      with the status read back as 0, then 2, then 4. */
  lemma {:induction false} FullClaimLifecycle(company: Address, holder: Address, reviewer: Address, pauserSetAddress: Address,
                           pauserSet: PauserSet, rules: Rules)
    requires company != ZeroAddress && holder != ZeroAddress && reviewer != ZeroAddress && pauserSetAddress != ZeroAddress
    requires AgreesWithTests(rules)
    ensures var c0 := Deploy(company, pauserSetAddress, pauserSet).value;
            var t1 := CreatePolicy(c0, rules, holder, 30, 10, 25000, 1200);
            t1.Ok? && t1.value.events == [PolicyCreated(1, holder)] &&
            var t2 := SubmitClaim(t1.value.state, holder, 1, 5000, 4500, 1, "QmHash", true);
            t2.Ok? && StatusCode(ClaimRecord(t2.value.state, 1).status) == 0 &&
            var t3 := AuthorizeReviewer(t2.value.state, company, reviewer);
            t3.Ok? &&
            var t4 := ReviewClaim(t3.value.state, reviewer, 1, 4800, 4500, "Approved after review", 2);
            t4.Ok? && StatusCode(ClaimRecord(t4.value.state, 1).status) == 2 &&
            t4.value.events == [ClaimReviewed(1, reviewer), ClaimApproved(1, 4500)] &&
            var t5 := ProcessPayment(t4.value.state, company, 1);
            t5.Ok? && StatusCode(ClaimRecord(t5.value.state, 1).status) == 4 &&
            t5.value.events == [ClaimPaid(1, holder)]
  {
    var c0 := Deploy(company, pauserSetAddress, pauserSet).value;
    var t1 := CreatePolicy(c0, rules, holder, 30, 10, 25000, 1200);
    assert t1.Ok?;
    var s1 := t1.value.state;
    assert HoldsPolicy(s1, holder, 1);
    var t2 := SubmitClaim(s1, holder, 1, 5000, 4500, 1, "QmHash", true);
    assert t2.Ok?;
    var s2 := t2.value.state;
    assert ClaimRecord(s2, 1).status == Submitted;
    var t3 := AuthorizeReviewer(s2, company, reviewer);
    assert t3.Ok?;
    var s3 := t3.value.state;
    assert 1 in s3.claims && MayReview(s3, reviewer);
    var t4 := ReviewClaim(s3, reviewer, 1, 4800, 4500, "Approved after review", 2);
    assert t4.Ok?;
    var s4 := t4.value.state;
    assert ClaimRecord(s4, 1).status == Approved;
    assert ProcessPayment(s4, company, 1).Ok?;
  }
}
