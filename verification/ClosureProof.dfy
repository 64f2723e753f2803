/** Closure proofs: what the factory checks before it registers a proof as authentic. */
module ClosureProof {
  import opened Wrappers
  import opened Utf16
  import opened CanonicalJson
  import opened Sorting
  import opened AuctionTypes
  import opened Reconciliation
  import opened Eligibility
  import opened Ranking
  import opened AuctionDocuments
  import opened DecisionManifest

  datatype ClosureInput = ClosureInput(
    tender: Tender, auctionEndsAt: Text, closeBarrierSequence: int, closeBarrierConsensusTimestamp: Text,
    startSequence: int, endSequence: int, observed: seq<int>, evaluationTime: Text, reference: Text,
    commitments: seq<RawCommitment>, bids: seq<Reconciliation.Entry>, receipts: seq<Reconciliation.Entry>,
    registry: map<Text, Carrier>, routeGuardKey: Text, now: Text)

  datatype Proof = Proof(
    tenderId: Text, tenderVersion: SafeInt, auctionEndsAt: Text, closeBarrierSequence: SafeInt,
    closeBarrierConsensusTimestamp: Text, startSequence: int, endSequence: int, observed: seq<int>,
    completeness: bool, evaluationTimestamp: Text, reference: Text, manifest: Manifest, integrityOk: bool,
    results: seq<EligibilityResult>)

  /**
   A value that claims to be a proof: the object that the factory made as its `id`-th, or any other
   object, such as a spread copy or a JSON round trip, whatever it contains.
   */
  datatype ProofValue = Made(id: nat) | Other(content: Proof)

  /** `isVerifiedAuctionClosureProof`, with the proofs in the order in which they were registered. */
  predicate IsVerified(registry: seq<Proof>, v: ProofValue) { v.Made? && v.id < |registry| }

  predicate IsSafePositive(n: int) { 0 < n <= MAX_SAFE_INTEGER }

  // --- what the factory demands ------------------------------------------------------------------------

  predicate TimesSound(o: Oracles, c: ClosureInput) {
    && o.IsUtc(c.auctionEndsAt) && c.auctionEndsAt == c.tender.auctionEndsAt
    && o.IsUtc(c.closeBarrierConsensusTimestamp) && o.IsUtc(c.evaluationTime) && o.IsUtc(c.now)
    && o.BeforeOrEqualUtc(c.auctionEndsAt, c.now)
    && o.BeforeOrEqualUtc(c.auctionEndsAt, c.closeBarrierConsensusTimestamp)
  }

  ghost predicate SequencesSound(c: ClosureInput) {
    && IsSafePositive(c.closeBarrierSequence) && IsSafePositive(c.startSequence) && IsSafePositive(c.endSequence)
    && forall n :: n in c.observed ==> IsSafePositive(n)
  }

  function AuctionOf(c: ClosureInput): AuctionInput
    requires IsSafePositive(c.closeBarrierSequence)
  {
    AuctionInput(c.tender, c.commitments, c.bids, c.receipts, c.registry, c.routeGuardKey, c.evaluationTime,
                 c.closeBarrierSequence, c.reference)
  }

  /** Exactly the inputs that yield a proof. */
  ghost predicate Closable(o: Oracles, c: ClosureInput) {
    && c.reference != [] && c.routeGuardKey != []
    && TimesSound(o, c) && SequencesSound(c)
    && Buildable(o, AuctionOf(c)) && EvidenceFits(c)
  }

  /** Every commitment was observed and belongs to the tender. */
  predicate EvidenceFits(c: ClosureInput) {
    forall k :: 0 <= k < |c.commitments| ==>
      && c.commitments[k].Shaped?
      && c.commitments[k].commitment.hcsSequence in c.observed
      && c.commitments[k].commitment.tenderId == c.tender.tenderId
  }

  ghost function ProofOf(o: Oracles, rulesHash: Text, c: ClosureInput): Proof
    requires Closable(o, c)
  {
    Proof(c.tender.tenderId, c.tender.version, c.auctionEndsAt, c.closeBarrierSequence,
          c.closeBarrierConsensusTimestamp, c.startSequence, c.endSequence, c.observed,
          WindowComplete(c.startSequence, c.endSequence, c.observed), c.evaluationTime, c.reference,
          Built(o, rulesHash, AuctionOf(c)).value, true, ResultsOf(o, AuctionOf(c)))
  }

  /** The proof was made from evidence that passed every check. */
  ghost predicate Backed(o: Oracles, rulesHash: Text, p: Proof) {
    exists c :: Closable(o, c) && p == ProofOf(o, rulesHash, c)
  }

  /** What a proof records of the input it was made from. */
  ghost predicate ProofSays(o: Oracles, rulesHash: Text, c: ClosureInput, p: Proof)
    requires Closable(o, c)
  {
    && p.tenderId == c.tender.tenderId == p.manifest.body.tenderId
    && p.tenderVersion == c.tender.version == p.manifest.body.tenderVersion
    && p.auctionEndsAt == c.auctionEndsAt == c.tender.auctionEndsAt
    && p.closeBarrierSequence == c.closeBarrierSequence
    && p.closeBarrierConsensusTimestamp == c.closeBarrierConsensusTimestamp
    && p.startSequence == c.startSequence && p.endSequence == c.endSequence && p.observed == c.observed
    && (p.completeness <==> WindowComplete(c.startSequence, c.endSequence, c.observed)) && p.integrityOk
    && p.evaluationTimestamp == c.evaluationTime && p.reference == c.reference
    && ManifestSays(o, rulesHash, AuctionOf(c), p.manifest)
    && o.BeforeOrEqualUtc(c.auctionEndsAt, p.closeBarrierConsensusTimestamp)
    && |p.results| == |c.commitments|
    && forall r :: r in p.results ==> exists x :: Shaped(x) in c.commitments && JudgedAs(o, c, x, r)
  }

  /** The result of judging one commitment on the evidence of the input. */
  ghost predicate JudgedAs(o: Oracles, c: ClosureInput, x: Commitment, r: EligibilityResult)
    requires Closable(o, c)
  {
    var k := CaseOf(SettingOf(AuctionOf(c)), x, EntryMap(c.bids), EntryMap(c.receipts));
    ResultSays(o, k, x, r) && (r.decision == Qualified <==> Eligible(o, k))
    && forall code :: code in r.reasonCodes <==> Broken(o, k, code)
  }

  lemma {:induction false} ProofResults(o: Oracles, rulesHash: Text, c: ClosureInput)
    requires Closable(o, c)
    ensures var p := ProofOf(o, rulesHash, c);
            && |p.results| == |c.commitments|
            && forall r :: r in p.results ==> exists x :: Shaped(x) in c.commitments && JudgedAs(o, c, x, r)
  {
    var i := AuctionOf(c);
    ReconciledOrdered(o, i);
    ReconciledMembers(o, c);
    ResultsStay(o, i);
    var v := Reconciled(c.commitments, c.bids, c.receipts);
    var rs := ResultsOf(o, i);
    SortPermutes(Contents(c.commitments), CommitmentLeq);
    forall r | r in rs ensures exists x :: Shaped(x) in c.commitments && JudgedAs(o, c, x, r) {
      var n :| 0 <= n < |rs| && rs[n] == r;
      var x := v.commitments[n];
      assert x in v.commitments;
      ResultIsRight(o, CaseOf(SettingOf(i), x, v.fullBids, v.receipts), x);
      assert JudgedAs(o, c, x, r);
    }
  }

  /** A proof says what its input and its evidence say. */
  lemma {:induction false} ProofIsRight(o: Oracles, rulesHash: Text, c: ClosureInput)
    requires Closable(o, c)
    ensures ProofSays(o, rulesHash, c, ProofOf(o, rulesHash, c))
  {
    BuiltSays(o, rulesHash, AuctionOf(c));
    ProofResults(o, rulesHash, c);
  }

  // --- the checks ------------------------------------------------------------------------------------------

  method AllPositive(numbers: seq<int>) returns (ok: bool)
    ensures ok <==> forall n :: n in numbers ==> IsSafePositive(n)
  {
    for i := 0 to |numbers|
      invariant forall k :: 0 <= k < i ==> IsSafePositive(numbers[k])
    {
      if !IsSafePositive(numbers[i]) { return false; }
    }
    return true;
  }

  method AllObserved(commitments: seq<Commitment>, observed: seq<int>) returns (ok: bool)
    ensures ok <==> forall c :: c in commitments ==> c.hcsSequence in observed
  {
    for i := 0 to |commitments|
      invariant forall k :: 0 <= k < i ==> commitments[k].hcsSequence in observed
    {
      if commitments[i].hcsSequence !in observed { return false; }
    }
    return true;
  }

  method AllOfTender(commitments: seq<Commitment>, tenderId: Text) returns (ok: bool)
    ensures ok <==> forall c :: c in commitments ==> c.tenderId == tenderId
  {
    for i := 0 to |commitments|
      invariant forall k :: 0 <= k < i ==> commitments[k].tenderId == tenderId
    {
      if commitments[i].tenderId != tenderId { return false; }
    }
    return true;
  }

  /** The reconciled commitments are the given ones. */
  lemma ReconciledMembers(o: Oracles, c: ClosureInput)
    requires Reconcilable(o, c.commitments, c.bids, c.receipts)
    ensures forall k :: 0 <= k < |c.commitments| ==> c.commitments[k].Shaped?
    ensures forall x :: x in Reconciled(c.commitments, c.bids, c.receipts).commitments <==> Shaped(x) in c.commitments
  {
    forall k | 0 <= k < |c.commitments| ensures c.commitments[k].Shaped? {
      assert ParseCommitment(o, c.commitments[k]).Some?;
    }
    SortPermutes(Contents(c.commitments), CommitmentLeq);
    ContentsMembers(c.commitments);
  }

  lemma ClosableByReconciled(o: Oracles, c: ClosureInput)
    requires Reconcilable(o, c.commitments, c.bids, c.receipts)
    ensures forall k :: 0 <= k < |c.commitments| ==> c.commitments[k].Shaped?
    ensures var cs := Reconciled(c.commitments, c.bids, c.receipts).commitments;
            ((forall k :: 0 <= k < |c.commitments| ==>
                && c.commitments[k].commitment.hcsSequence in c.observed
                && c.commitments[k].commitment.tenderId == c.tender.tenderId)
             <==> ((forall x :: x in cs ==> x.hcsSequence in c.observed)
                   && (forall x :: x in cs ==> x.tenderId == c.tender.tenderId)))
  {
    ReconciledMembers(o, c);
    var cs := Reconciled(c.commitments, c.bids, c.receipts).commitments;
    forall k | 0 <= k < |c.commitments| ensures c.commitments[k].commitment in cs {
      assert c.commitments[k] == Shaped(c.commitments[k].commitment);
      assert c.commitments[k] in c.commitments;
    }
    forall x | x in cs ensures exists k :: 0 <= k < |c.commitments| && c.commitments[k].commitment == x {
      var k :| 0 <= k < |c.commitments| && c.commitments[k] == Shaped(x);
    }
  }

  /** The manifest that was just built always passes the integrity assertion. */
  lemma BuiltPassesIntegrity(o: Oracles, rulesHash: Text, i: AuctionInput)
    requires Buildable(o, i)
    ensures forall k :: 0 <= k < |i.commitments| ==> i.commitments[k].Shaped?
    ensures var m := Built(o, rulesHash, i).value; Integrity(ResultsOf(o, i), m, m)
  {
    ReconciledOrdered(o, i);
    var r := Reconciled(i.commitments, i.bids, i.receipts);
    ReconstructionVerifies(o, rulesHash, SettingOf(i), r.commitments, r.fullBids, r.receipts, i.barrier, i.reference);
  }

  /** The module-private registry of proofs that the factory has made. */
  class ClosureRegistry {
    var proofs: seq<Proof>

    constructor ()
      ensures proofs == []
    {
      proofs := [];
    }

    ghost predicate AllBacked(o: Oracles, rulesHash: Text)
      reads this
    {
      forall k :: 0 <= k < |proofs| ==> Backed(o, rulesHash, proofs[k])
    }

    /** `createAuctionClosureProof`. */
    method Create(o: Oracles, rulesHash: Text, c: ClosureInput) returns (r: Result<ProofValue, ReconciliationErrorCode>)
      requires BarFree(o) && IdentityMeansContent(c.bids) && IdentityMeansContent(c.receipts)
      modifies this
      ensures r.Ok? <==> Closable(o, c)
      ensures r.Ok? ==> proofs == old(proofs) + [ProofOf(o, rulesHash, c)]
      ensures r.Ok? ==> r.value == Made(|old(proofs)|) && IsVerified(proofs, r.value)
      ensures r.Err? ==> proofs == old(proofs)
      ensures old(AllBacked(o, rulesHash)) ==> AllBacked(o, rulesHash)
    {
      var prepared := Prepare(o, rulesHash, c);
      if prepared.Err? { return Err(prepared.error); }
      proofs := proofs + [prepared.value];
      r := Ok(Made(|proofs| - 1));
    }
  }

  /** The checks before any evidence is read. */
  method CheckHeader(o: Oracles, c: ClosureInput) returns (ok: bool)
    ensures ok <==> c.reference != [] && c.routeGuardKey != [] && TimesSound(o, c) && SequencesSound(c)
  {
    if c.reference == [] || c.routeGuardKey == [] { return false; }
    if !o.IsUtc(c.auctionEndsAt) { return false; }
    if c.auctionEndsAt != c.tender.auctionEndsAt { return false; }
    if !o.IsUtc(c.closeBarrierConsensusTimestamp) { return false; }
    if !o.IsUtc(c.evaluationTime) { return false; }
    if !o.IsUtc(c.now) { return false; }
    var numbers := [c.closeBarrierSequence, c.startSequence, c.endSequence] + c.observed;
    var positive := AllPositive(numbers);
    assert positive <==> SequencesSound(c) by {
      assert numbers[0] in numbers && numbers[1] in numbers && numbers[2] in numbers;
      assert forall n :: n in c.observed ==> n in numbers;
    }
    if !positive { return false; }
    if !o.BeforeOrEqualUtc(c.auctionEndsAt, c.now) { return false; }
    if !o.BeforeOrEqualUtc(c.auctionEndsAt, c.closeBarrierConsensusTimestamp) { return false; }
    return true;
  }

  /** The checks of the evidence: reconciliation, observation, the manifest and its integrity, the tender. */
  method PrepareEvidence(o: Oracles, rulesHash: Text, c: ClosureInput)
    returns (r: Result<(Manifest, bool, seq<EligibilityResult>), ReconciliationErrorCode>)
    requires BarFree(o) && IdentityMeansContent(c.bids) && IdentityMeansContent(c.receipts)
    requires IsSafePositive(c.closeBarrierSequence) && o.IsUtc(c.evaluationTime)
    ensures r.Ok? <==> Buildable(o, AuctionOf(c)) && EvidenceFits(c)
    ensures r.Ok? ==> (BuildableShapes(o, AuctionOf(c));
              r.value == (Built(o, rulesHash, AuctionOf(c)).value, true, ResultsOf(o, AuctionOf(c))))
  {
    var reconciled := ValidateReconciliationInputs(o, c.commitments, c.bids, c.receipts);
    if reconciled.Err? { return Err(reconciled.error); }
    var v := reconciled.value;
    ClosableByReconciled(o, c);
    var observed := AllObserved(v.commitments, c.observed);
    if !observed { return Err(IncompleteSequenceRange); }
    var i := AuctionOf(c);
    var results := EvaluateAllCommitments(o, SettingOf(i), v.commitments, v.fullBids, v.receipts);
    var built := BuildDecisionManifest(o, rulesHash, i);
    if built.Err? { return Err(built.error); }
    var integrity := AssertManifestIntegrity(o, rulesHash, i, results, built.value);
    var ofTender := AllOfTender(v.commitments, c.tender.tenderId);
    if !ofTender { return Err(InvalidClosureProof); }
    r := Ok((built.value, integrity, results));
  }

  /** The proof that the factory will register. */
  method Prepare(o: Oracles, rulesHash: Text, c: ClosureInput) returns (r: Result<Proof, ReconciliationErrorCode>)
    requires BarFree(o) && IdentityMeansContent(c.bids) && IdentityMeansContent(c.receipts)
    ensures r.Ok? <==> Closable(o, c)
    ensures r.Ok? ==> r.value == ProofOf(o, rulesHash, c)
  {
    var header := CheckHeader(o, c);
    if !header { return Err(InvalidClosureProof); }
    var completeness := IsSequenceRangeComplete(c.startSequence, c.endSequence, c.observed);
    var evidence := PrepareEvidence(o, rulesHash, c);
    if evidence.Err? { return Err(evidence.error); }
    var (manifest, integrity, results) := evidence.value;
    r := Ok(Proof(c.tender.tenderId, c.tender.version, c.auctionEndsAt, c.closeBarrierSequence,
                  c.closeBarrierConsensusTimestamp, c.startSequence, c.endSequence, c.observed, completeness,
                  c.evaluationTime, c.reference, manifest, integrity, results));
  }

  /** The tender identity check and `assertManifestIntegrity`: neither fails on the manifest just built. */
  method AssertManifestIntegrity(
    o: Oracles, rulesHash: Text, i: AuctionInput, results: seq<EligibilityResult>, m: Manifest) returns (ok: bool)
    requires Buildable(o, i) && m == Built(o, rulesHash, i).value
    requires (BuildableShapes(o, i); results == ResultsOf(o, i))
    ensures ok
  {
    BuiltPassesIntegrity(o, rulesHash, i);
    var same := m.body.tenderId == i.tender.tenderId && m.body.tenderVersion == i.tender.version;
    var verified, errors := VerifyDecisionManifestIntegrity(
      o, rulesHash, i.tender, results, m, Some(i.evaluationTime), Some(i.barrier), Some(i.reference));
    ok := same && verified;
  }

  // --- independence of the order of the evidence --------------------------------------------------------------

  /** The same input with its three evidence lists in another order. */
  ghost predicate ReorderedEvidence(c: ClosureInput, d: ClosureInput) {
    && multiset(c.commitments) == multiset(d.commitments)
    && multiset(c.bids) == multiset(d.bids) && multiset(c.receipts) == multiset(d.receipts)
    && d == c.(commitments := d.commitments, bids := d.bids, receipts := d.receipts)
  }

  lemma ClosablePermutes(o: Oracles, c: ClosureInput, d: ClosureInput)
    requires ReorderedEvidence(c, d) && Closable(o, c)
    ensures Closable(o, d)
  {
    ReconciliationForgetsOrder(o, c.commitments, c.bids, c.receipts, d.commitments, d.bids, d.receipts);
    SameMembers(c.commitments, d.commitments);
    forall k | 0 <= k < |d.commitments| ensures
      && d.commitments[k].Shaped?
      && d.commitments[k].commitment.hcsSequence in d.observed
      && d.commitments[k].commitment.tenderId == d.tender.tenderId
    {
      assert d.commitments[k] in c.commitments;
      var j :| 0 <= j < |c.commitments| && c.commitments[j] == d.commitments[k];
    }
  }

  /** Reordered evidence closes the auction both times or neither time, and with one and the same proof. */
  lemma ProofForgetsOrder(o: Oracles, rulesHash: Text, c: ClosureInput, d: ClosureInput)
    requires ReorderedEvidence(c, d)
    ensures Closable(o, c) <==> Closable(o, d)
    ensures Closable(o, c) ==> ProofOf(o, rulesHash, c) == ProofOf(o, rulesHash, d)
  {
    if Closable(o, c) {
      ClosablePermutes(o, c, d);
      ManifestForgetsOrder(o, rulesHash, AuctionOf(c), AuctionOf(d));
      ReconciliationForgetsOrder(o, c.commitments, c.bids, c.receipts, d.commitments, d.bids, d.receipts);
    } else if Closable(o, d) {
      ClosablePermutes(o, d, c);
    }
  }
}
