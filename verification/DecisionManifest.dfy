/** The decision manifest of an auction, how it is built, verified and bound by its hashes. */
module DecisionManifest {
  import opened Wrappers
  import opened Utf16
  import opened CanonicalJson
  import opened Utf8
  import opened Sorting
  import opened AuctionTypes
  import opened Reconciliation
  import opened Eligibility
  import opened Ranking
  import opened AuctionDocuments

  const ENGINE_VERSION: Text := Lit("routeguard-auction-1.0")
  const SELECTION_POLICY: Text := Lit("LOWEST_QUALIFIED_PRICE_V1")

  // --- the expected manifest --------------------------------------------------------------------------

  /** An entry of `buildEvaluatedBidSetInput`. */
  function ViewOf(o: Oracles, tender: Tender, r: EligibilityResult): BoundEvidence {
    BoundEvidence(
      r.commitment,
      if r.commitment.Some? then o.BeforeOrEqualUtc(r.commitment.value.consensusTimestamp, tender.auctionEndsAt)
      else r.timely,
      r.submittedSignedBidPresent, r.submittedSignedBidEnvelopeHash, r.submittedReceiptPresent,
      r.submittedReceiptEnvelopeHash, r.fullBidSchemaValid, r.receiptSchemaValid, r.fullBidPresent,
      r.validatedFullBidHash, r.signedBidEnvelopeHash, r.receiptPresent, r.validatedReceiptHash,
      r.bidVersionMatch, r.signatureValid, r.decision, r.reasonCodes)
  }

  function Views(o: Oracles, tender: Tender, results: seq<EligibilityResult>): seq<BoundEvidence> {
    seq(|results|, i requires 0 <= i < |results| => ViewOf(o, tender, results[i]))
  }

  /** `computeEvaluatedBidSetHash`. */
  function EvaluatedBidSetHash(o: Oracles, tender: Tender, results: seq<EligibilityResult>): Text {
    CanonicalSha256(o.digest,
      BidSetJson(tender.tenderId, tender.version, Views(o, tender, Sort(results, ResultLeq))))
  }

  function EntryOf(r: EligibilityResult): ManifestEntry {
    ManifestEntry(r.bidId, r.carrierId, r.hcsSequence, r.consensusTimestamp, r.decision, r.reasonCodes)
  }

  function EntriesOf(results: seq<EligibilityResult>): seq<ManifestEntry> {
    seq(|results|, i requires 0 <= i < |results| => EntryOf(results[i]))
  }

  /** `reconstructExpectedManifestBody`. `rulesHash` is the hash of the fixed rules document. */
  function ExpectedBody(
    o: Oracles, rulesHash: Text, tender: Tender, results: seq<EligibilityResult>,
    evaluationTime: Text, barrier: SafeInt, reference: Text): ManifestBody
  {
    var ordered := Sort(results, ResultLeq);
    var winner := SelectWinner(o, ordered);
    ManifestBody(
      tender.tenderId, tender.version, o.tenderHash(tender), ENGINE_VERSION, SELECTION_POLICY, rulesHash,
      evaluationTime, barrier, reference, EntriesOf(ordered),
      if winner.Some? then Some(winner.value.bidId) else None,
      if winner.Some? then Some(winner.value.bidHash) else None,
      EvaluatedBidSetHash(o, tender, ordered))
  }

  function Sealed(o: Oracles, body: ManifestBody): Manifest {
    Manifest(body, CanonicalSha256(o.digest, ManifestJson(body)))
  }

  // --- building -------------------------------------------------------------------------------------------

  /** The input of `buildDecisionManifest`. */
  datatype AuctionInput = AuctionInput(
    tender: Tender, commitments: seq<RawCommitment>, bids: seq<Reconciliation.Entry>,
    receipts: seq<Reconciliation.Entry>, registry: map<Text, Carrier>, routeGuardKey: Text,
    evaluationTime: Text, barrier: SafeInt, reference: Text)

  function SettingOf(i: AuctionInput): Setting {
    Setting(i.tender, i.registry, i.routeGuardKey, i.evaluationTime)
  }

  /** The input gets as far as a manifest. */
  ghost predicate Buildable(o: Oracles, i: AuctionInput) {
    && o.IsUtc(i.evaluationTime) && o.ValidTender(i.tender)
    && Reconcilable(o, i.commitments, i.bids, i.receipts)
  }

  function ResultsOf(o: Oracles, i: AuctionInput): seq<EligibilityResult>
    requires forall k :: 0 <= k < |i.commitments| ==> i.commitments[k].Shaped?
  {
    var r := Reconciled(i.commitments, i.bids, i.receipts);
    EvaluateAll(o, SettingOf(i), r.commitments, r.fullBids, r.receipts)
  }

  /** The manifest that `buildDecisionManifest` returns; None stands for a throw. */
  ghost function Built(o: Oracles, rulesHash: Text, i: AuctionInput): Option<Manifest> {
    if Buildable(o, i) then
      BuildableShapes(o, i);
      Some(Sealed(o, ExpectedBody(o, rulesHash, i.tender, ResultsOf(o, i), i.evaluationTime, i.barrier, i.reference)))
    else None
  }

  lemma BuildableShapes(o: Oracles, i: AuctionInput)
    requires Buildable(o, i)
    ensures forall k :: 0 <= k < |i.commitments| ==> i.commitments[k].Shaped?
  {
    forall k | 0 <= k < |i.commitments| ensures i.commitments[k].Shaped? {
      assert ParseCommitment(o, i.commitments[k]).Some?;
    }
  }

  // --- what a manifest says, without the functions that make it --------------------------------------------------

  /** Codes in the published order, each at most once. */
  predicate InCodeOrder(codes: seq<ReasonCode>) {
    forall i, j :: 0 <= i < j < |codes| ==> CodeIndex(codes[i]) < CodeIndex(codes[j])
  }

  lemma OrderStands(i: nat)
    requires i < |REASON_CODE_ORDER|
    ensures CodeIndex(REASON_CODE_ORDER[i]) == i
  {
  }

  lemma {:induction false} FilterStands(codes: set<ReasonCode>, order: seq<ReasonCode>)
    requires InCodeOrder(order)
    ensures InCodeOrder(Filter(codes, order))
  {
    if order != [] {
      FilterStands(codes, order[1..]);
      var others := Filter(codes, order[1..]);
      forall i | 0 <= i < |others| ensures CodeIndex(order[0]) < CodeIndex(others[i]) {
        FilterMembers(codes, order[1..], others[i]);
        assert others[i] in others;
        var k :| 0 <= k < |order[1..]| && order[1..][k] == others[i];
        assert order[k + 1] == others[i];
      }
    }
  }

  /** The codes of every result stand in the published order. */
  lemma CodesStandInOrder(o: Oracles, k: Case)
    ensures InCodeOrder(Evaluate(o, k).reasonCodes)
  {
    forall i, j | 0 <= i < j < |REASON_CODE_ORDER|
      ensures CodeIndex(REASON_CODE_ORDER[i]) < CodeIndex(REASON_CODE_ORDER[j])
    {
      OrderStands(i);
      OrderStands(j);
    }
    FilterStands(Codes(o, k), REASON_CODE_ORDER);
    assert Evaluate(o, k).reasonCodes == OrderReasonCodes(Codes(o, k));
  }

  /** What is published about one commitment. */
  ghost predicate EntrySays(o: Oracles, k: Case, c: Commitment, e: ManifestEntry) {
    && e.bidId == c.bidId && e.carrierId == c.carrierId && e.hcsSequence == c.hcsSequence
    && e.consensusTimestamp == c.consensusTimestamp
    && (e.decision == Qualified <==> Eligible(o, k))
    && (forall code :: code in e.reasonCodes <==> Broken(o, k, code)) && InCodeOrder(e.reasonCodes)
  }

  /** What is hashed about one commitment: its evidence, how it was read, and the decision. */
  ghost predicate EvidenceSays(o: Oracles, k: Case, c: Commitment, v: BoundEvidence) {
    && v.commitment == Some(c) && v.timely == o.BeforeOrEqualUtc(c.consensusTimestamp, k.tender.auctionEndsAt)
    && (exists r :: ResultSays(o, k, c, r) && ReadAs(v, r))
    && (v.decision == Qualified <==> Eligible(o, k))
    && (forall code :: code in v.reasonCodes <==> Broken(o, k, code)) && InCodeOrder(v.reasonCodes)
  }

  /** The evidence fields of a result. */
  predicate ReadAs(v: BoundEvidence, r: EligibilityResult) {
    && v.submittedSignedBidPresent == r.submittedSignedBidPresent
    && v.submittedSignedBidEnvelopeHash == r.submittedSignedBidEnvelopeHash
    && v.submittedReceiptPresent == r.submittedReceiptPresent
    && v.submittedReceiptEnvelopeHash == r.submittedReceiptEnvelopeHash
    && v.fullBidSchemaValid == r.fullBidSchemaValid && v.receiptSchemaValid == r.receiptSchemaValid
    && v.fullBidPresent == r.fullBidPresent && v.validatedFullBidHash == r.validatedFullBidHash
    && v.signedBidEnvelopeHash == r.signedBidEnvelopeHash && v.receiptPresent == r.receiptPresent
    && v.validatedReceiptHash == r.validatedReceiptHash && v.bidVersionMatch == r.bidVersionMatch
    && v.signatureValid == r.signatureValid
  }

  /** The evidence that is hashed, one for each commitment in order. */
  ghost predicate BidSetSays(
    o: Oracles, s: Setting, cs: seq<Commitment>, bids: map<Text, Json>, receipts: map<Text, Json>, vs: seq<BoundEvidence>)
  {
    |vs| == |cs| && forall i :: 0 <= i < |cs| ==> EvidenceSays(o, CaseOf(s, cs[i], bids, receipts), cs[i], vs[i])
  }

  ghost predicate EntriesSay(
    o: Oracles, s: Setting, cs: seq<Commitment>, bids: map<Text, Json>, receipts: map<Text, Json>, es: seq<ManifestEntry>)
  {
    |es| == |cs| && forall i :: 0 <= i < |cs| ==> EntrySays(o, CaseOf(s, cs[i], bids, receipts), cs[i], es[i])
  }

  predicate HeaderSays(o: Oracles, rulesHash: Text, i: AuctionInput, b: ManifestBody) {
    && b.tenderId == i.tender.tenderId && b.tenderVersion == i.tender.version && b.tenderHash == o.tenderHash(i.tender)
    && b.engineVersion == Lit("routeguard-auction-1.0") && b.selectionPolicy == Lit("LOWEST_QUALIFIED_PRICE_V1")
    && b.rulesHash == rulesHash && b.evaluationTimestamp == i.evaluationTime && b.barrierSequence == i.barrier
    && b.reconciliationReference == i.reference
  }

  /** Header, entries and both hashes of the manifest of an input. */
  ghost predicate ManifestSays(o: Oracles, rulesHash: Text, i: AuctionInput, m: Manifest)
    requires forall k :: 0 <= k < |i.commitments| ==> i.commitments[k].Shaped?
  {
    var r := Reconciled(i.commitments, i.bids, i.receipts);
    && HeaderSays(o, rulesHash, i, m.body)
    && EntriesSay(o, SettingOf(i), r.commitments, r.fullBids, r.receipts, m.body.commitments)
    && (exists vs :: BidSetSays(o, SettingOf(i), r.commitments, r.fullBids, r.receipts, vs)
          && m.body.evaluatedBidSetHash == CanonicalSha256(o.digest, BidSetJson(i.tender.tenderId, i.tender.version, vs)))
    && m.decisionManifestHash == CanonicalSha256(o.digest, ManifestJson(m.body))
  }

  lemma OneEntrySays(o: Oracles, k: Case, c: Commitment)
    requires ParseCommitment(o, k.commitment) == Some(c)
    ensures EntrySays(o, k, c, EntryOf(Evaluate(o, k)))
  {
    ResultIsRight(o, k, c);
    CodesStandInOrder(o, k);
  }

  lemma OneViewSays(o: Oracles, k: Case, c: Commitment)
    requires ParseCommitment(o, k.commitment) == Some(c)
    ensures EvidenceSays(o, k, c, ViewOf(o, k.tender, Evaluate(o, k)))
  {
    ResultIsRight(o, k, c);
    CodesStandInOrder(o, k);
    assert ReadAs(ViewOf(o, k.tender, Evaluate(o, k)), Evaluate(o, k));
  }

  lemma EntriesAndViewsSay(o: Oracles, s: Setting, cs: seq<Commitment>, bids: map<Text, Json>, receipts: map<Text, Json>)
    requires Ordered(o, cs)
    ensures EntriesSay(o, s, cs, bids, receipts, EntriesOf(Results(o, s, cs, bids, receipts)))
    ensures BidSetSays(o, s, cs, bids, receipts, Views(o, s.tender, Results(o, s, cs, bids, receipts)))
  {
    forall i | 0 <= i < |cs| ensures
      && EntrySays(o, CaseOf(s, cs[i], bids, receipts), cs[i], EntriesOf(Results(o, s, cs, bids, receipts))[i])
      && EvidenceSays(o, CaseOf(s, cs[i], bids, receipts), cs[i], Views(o, s.tender, Results(o, s, cs, bids, receipts))[i])
    {
      assert cs[i] in cs;
      OneEntrySays(o, CaseOf(s, cs[i], bids, receipts), cs[i]);
      OneViewSays(o, CaseOf(s, cs[i], bids, receipts), cs[i]);
    }
  }

  /** What is built says of every commitment what is true of it, under the header of the input. */
  lemma {:induction false} BuiltSays(o: Oracles, rulesHash: Text, i: AuctionInput)
    requires Buildable(o, i)
    ensures forall k :: 0 <= k < |i.commitments| ==> i.commitments[k].Shaped?
    ensures Built(o, rulesHash, i).Some? && ManifestSays(o, rulesHash, i, Built(o, rulesHash, i).value)
  {
    ReconciledOrdered(o, i);
    var r := Reconciled(i.commitments, i.bids, i.receipts);
    OrderedUnique(o, SettingOf(i), r.commitments, r.fullBids, r.receipts);
    EvaluateAllInOrder(o, SettingOf(i), r.commitments, r.fullBids, r.receipts);
    EntriesAndViewsSay(o, SettingOf(i), r.commitments, r.fullBids, r.receipts);
    ResultsStay(o, i);
  }

  /** The evaluated results stay as they are when the manifest sorts them again. */
  lemma {:induction false} ResultsStay(o: Oracles, i: AuctionInput)
    requires Buildable(o, i)
    ensures forall k :: 0 <= k < |i.commitments| ==> i.commitments[k].Shaped?
    ensures var r := Reconciled(i.commitments, i.bids, i.receipts);
            && ResultsOf(o, i) == Results(o, SettingOf(i), r.commitments, r.fullBids, r.receipts)
            && Sort(ResultsOf(o, i), ResultLeq) == ResultsOf(o, i)
  {
    ReconciledOrdered(o, i);
    var r := Reconciled(i.commitments, i.bids, i.receipts);
    OrderedUnique(o, SettingOf(i), r.commitments, r.fullBids, r.receipts);
    EvaluateAllInOrder(o, SettingOf(i), r.commitments, r.fullBids, r.receipts);
  }

  method BuildDecisionManifest(o: Oracles, rulesHash: Text, i: AuctionInput)
    returns (r: Result<Manifest, ReconciliationErrorCode>)
    requires BarFree(o) && IdentityMeansContent(i.bids) && IdentityMeansContent(i.receipts)
    ensures r.Ok? <==> Built(o, rulesHash, i).Some?
    ensures r.Ok? ==> r.value == Built(o, rulesHash, i).value
    ensures r.Ok? ==> (BuildableShapes(o, i); ManifestSays(o, rulesHash, i, r.value))
  {
    if Buildable(o, i) { BuiltSays(o, rulesHash, i); }
    if !o.IsUtc(i.evaluationTime) { return Err(UncaughtError); }
    var reconciled := ValidateReconciliationInputs(o, i.commitments, i.bids, i.receipts);
    if reconciled.Err? { return Err(reconciled.error); }
    if !o.ValidTender(i.tender) { return Err(UncaughtError); }
    var v := reconciled.value;
    var results := EvaluateAllCommitments(o, SettingOf(i), v.commitments, v.fullBids, v.receipts);
    var body := ExpectedBody(o, rulesHash, i.tender, results, i.evaluationTime, i.barrier, i.reference);
    r := Ok(Sealed(o, body));
  }

  /** The input with its three evidence lists in another order. */
  ghost predicate Reordered(i: AuctionInput, j: AuctionInput) {
    && multiset(i.commitments) == multiset(j.commitments)
    && multiset(i.bids) == multiset(j.bids) && multiset(i.receipts) == multiset(j.receipts)
    && j == i.(commitments := j.commitments, bids := j.bids, receipts := j.receipts)
  }

  /** Reordering the evidence fails both times or gives the same manifest: entries, winner and hashes. */
  lemma ManifestForgetsOrder(o: Oracles, rulesHash: Text, i: AuctionInput, j: AuctionInput)
    requires Reordered(i, j)
    ensures Built(o, rulesHash, i) == Built(o, rulesHash, j)
  {
    ReconciliationForgetsOrder(o, i.commitments, i.bids, i.receipts, j.commitments, j.bids, j.receipts);
    if Buildable(o, i) {
      BuildableShapes(o, i);
      BuildableShapes(o, j);
    }
  }

  // --- verifying --------------------------------------------------------------------------------------------

  ghost predicate UniqueEntries(entries: seq<ManifestEntry>) {
    forall i, j :: 0 <= i < j < |entries| ==>
      entries[i].bidId != entries[j].bidId && entries[i].hcsSequence != entries[j].hcsSequence
  }

  ghost predicate WinnerConsistent(results: seq<EligibilityResult>, winner: Option<Text>) {
    winner.None? <==> forall r :: r in results ==> !IsRankable(r)
  }

  /** Exactly what the verifier accepts for results and the resolved arguments. */
  ghost predicate Integrity(results: seq<EligibilityResult>, expected: Manifest, m: Manifest) {
    m == expected && UniqueEntries(m.body.commitments) && WinnerConsistent(results, expected.body.winningBidId)
  }

  predicate SameFields(a: ManifestBody, b: ManifestBody) { a.(commitments := []) == b.(commitments := []) }

  /** The comparisons of the verifier's first part: every field, each a possible error. */
  method CompareFields(m: ManifestBody, e: ManifestBody) returns (errors: seq<string>)
    ensures errors == [] <==> SameFields(m, e)
  {
    var header := CompareHeader(m, e);
    errors := header;
    if m.evaluationTimestamp != e.evaluationTimestamp { errors := errors + ["evaluationTimestamp"]; }
    if m.barrierSequence != e.barrierSequence { errors := errors + ["barrierSequence"]; }
    if m.reconciliationReference != e.reconciliationReference { errors := errors + ["reconciliationReference"]; }
    if m.evaluatedBidSetHash != e.evaluatedBidSetHash { errors := errors + ["evaluatedBidSetHash"]; }
    if m.winningBidId != e.winningBidId { errors := errors + ["winningBidId"]; }
    if m.winningBidHash != e.winningBidHash { errors := errors + ["winningBidHash"]; }
  }

  predicate SameHeader(a: ManifestBody, b: ManifestBody) {
    && a.tenderId == b.tenderId && a.tenderVersion == b.tenderVersion && a.tenderHash == b.tenderHash
    && a.rulesHash == b.rulesHash && a.engineVersion == b.engineVersion && a.selectionPolicy == b.selectionPolicy
  }

  method CompareHeader(m: ManifestBody, e: ManifestBody) returns (errors: seq<string>)
    ensures errors == [] <==> SameHeader(m, e)
  {
    errors := [];
    if m.tenderId != e.tenderId { errors := errors + ["tenderId"]; }
    if m.tenderVersion != e.tenderVersion { errors := errors + ["tenderVersion"]; }
    if m.tenderHash != e.tenderHash { errors := errors + ["tenderHash"]; }
    if m.rulesHash != e.rulesHash { errors := errors + ["rulesHash"]; }
    if m.engineVersion != e.engineVersion { errors := errors + ["engineVersion"]; }
    if m.selectionPolicy != e.selectionPolicy { errors := errors + ["selectionPolicy"]; }
  }

  /** Entry count and the entries in order. */
  method CompareEntries(actual: seq<ManifestEntry>, expected: seq<ManifestEntry>) returns (errors: seq<string>)
    ensures errors == [] <==> actual == expected
  {
    errors := [];
    if |actual| != |expected| { errors := errors + ["entry count"]; }
    var n := if |actual| > |expected| then |actual| else |expected|;
    for i := 0 to n
      invariant errors == [] <==> |actual| == |expected| && forall k :: 0 <= k < i ==> actual[k] == expected[k]
    {
      if i >= |actual| || i >= |expected| {
        errors := errors + ["missing entry"];
        continue;
      }
      var a, e := actual[i], expected[i];
      if a.bidId != e.bidId { errors := errors + ["bidId"]; }
      if a.carrierId != e.carrierId { errors := errors + ["carrierId"]; }
      if a.hcsSequence != e.hcsSequence { errors := errors + ["hcsSequence"]; }
      if a.consensusTimestamp != e.consensusTimestamp { errors := errors + ["consensusTimestamp"]; }
      if a.decision != e.decision { errors := errors + ["decision"]; }
      if a.reasonCodes != e.reasonCodes { errors := errors + ["reasonCodes"]; }
    }
  }

  /** The two seen-sets over the manifest's own entries. */
  method CheckUnique(entries: seq<ManifestEntry>) returns (errors: seq<string>)
    ensures errors == [] <==> UniqueEntries(entries)
  {
    errors := [];
    var bidIds: set<Text> := {};
    var sequences: set<int> := {};
    for i := 0 to |entries|
      invariant bidIds == set k | 0 <= k < i :: entries[k].bidId
      invariant sequences == set k | 0 <= k < i :: entries[k].hcsSequence
      invariant errors == [] <==> UniqueEntries(entries[..i])
    {
      UniqueOneMore(entries, i);
      if entries[i].bidId in bidIds { errors := errors + ["duplicate bidId"]; }
      bidIds := bidIds + {entries[i].bidId};
      if entries[i].hcsSequence in sequences { errors := errors + ["duplicate hcsSequence"]; }
      sequences := sequences + {entries[i].hcsSequence};
    }
    assert entries[..|entries|] == entries;
  }

  lemma UniqueOneMore(entries: seq<ManifestEntry>, i: nat)
    requires i < |entries|
    ensures UniqueEntries(entries[..i + 1]) <==>
      (UniqueEntries(entries[..i]) && forall k :: 0 <= k < i ==>
         entries[k].bidId != entries[i].bidId && entries[k].hcsSequence != entries[i].hcsSequence)
  {
    var s, t := entries[..i], entries[..i + 1];
    assert forall k :: 0 <= k < i ==> s[k] == t[k] == entries[k];
    assert t[i] == entries[i];
  }

  method CountRankable(results: seq<EligibilityResult>) returns (n: nat)
    ensures n == 0 <==> forall r :: r in results ==> !IsRankable(r)
  {
    n := 0;
    for i := 0 to |results|
      invariant n == 0 <==> forall k :: 0 <= k < i ==> !IsRankable(results[k])
    {
      if IsRankable(results[i]) { n := n + 1; }
    }
  }

  function OrManifest<T>(given: Option<T>, own: T): T { if given.Some? then given.value else own }

  /** An empty string counts as absent. */
  function NonEmpty(t: Option<Text>): Option<Text> { if t == Some([]) then None else t }

  /**
   `verifyDecisionManifestIntegrity`: accepts exactly the manifest that is equal, field by field,
   entry by entry and hash by hash, to the one reconstructed from the authoritative results.
   */
  method VerifyDecisionManifestIntegrity(
    o: Oracles, rulesHash: Text, tender: Tender, results: seq<EligibilityResult>, m: Manifest,
    evaluationTime: Option<Text>, barrier: Option<SafeInt>, reference: Option<Text>)
    returns (ok: bool, errors: seq<string>)
    ensures ok <==> errors == []
    ensures var expected := Sealed(o, ExpectedBody(o, rulesHash, tender, results,
                OrManifest(NonEmpty(evaluationTime), m.body.evaluationTimestamp),
                OrManifest(barrier, m.body.barrierSequence),
                OrManifest(NonEmpty(reference), m.body.reconciliationReference)));
            ok <==> Integrity(results, expected, m)
  {
    var time := OrManifest(NonEmpty(evaluationTime), m.body.evaluationTimestamp);
    var sequence := OrManifest(barrier, m.body.barrierSequence);
    var note := OrManifest(NonEmpty(reference), m.body.reconciliationReference);
    var e := ExpectedBody(o, rulesHash, tender, results, time, sequence, note);
    var expectedHash := CanonicalSha256(o.digest, ManifestJson(e));
    var fields := CompareFields(m.body, e);
    var entries := CompareEntries(m.body.commitments, e.commitments);
    var unique := CheckUnique(m.body.commitments);
    var rankable := CountRankable(results);
    errors := fields + entries + unique;
    if e.winningBidId.None? {
      if rankable != 0 { errors := errors + ["qualified bids but null winner"]; }
    } else if rankable < 1 {
      errors := errors + ["winner present but zero rankable entries"];
    }
    if m.decisionManifestHash != expectedHash { errors := errors + ["decisionManifestHash"]; }
    var selfHash := CanonicalSha256(o.digest, ManifestJson(m.body));
    if m.decisionManifestHash == selfHash && selfHash != expectedHash {
      errors := errors + ["self-consistent but does not match"];
    }
    ok := errors == [];
  }

  // --- the reconstructed manifest passes its own verification -----------------------------------------------

  lemma OrderedUnique(o: Oracles, s: Setting, cs: seq<Commitment>, bids: map<Text, Json>, receipts: map<Text, Json>)
    requires Ordered(o, cs)
    ensures Sort(EvaluateAll(o, s, cs, bids, receipts), ResultLeq) == Results(o, s, cs, bids, receipts)
    ensures UniqueEntries(EntriesOf(Results(o, s, cs, bids, receipts)))
  {
    var rs := Results(o, s, cs, bids, receipts);
    EvaluateAllInOrder(o, s, cs, bids, receipts);
    forall i | 0 <= i < |rs| ensures rs[i].hcsSequence == cs[i].hcsSequence && rs[i].bidId == cs[i].bidId {
      ResultIdentity(o, s, cs[i], bids, receipts);
    }
    SortOfSorted(rs, ResultLeq);
  }

  /** An evaluated result that can be ranked has everything the ranking needs. */
  lemma RankableHasEntry(o: Oracles, k: Case)
    requires IsRankable(Evaluate(o, k))
    ensures Ranking.Entry(Evaluate(o, k)).Some?
  {
    RankableExactly(o, k);
  }

  lemma WinnerConsistentWithResults(
    o: Oracles, s: Setting, cs: seq<Commitment>, bids: map<Text, Json>, receipts: map<Text, Json>)
    requires Ordered(o, cs)
    ensures var rs := EvaluateAll(o, s, cs, bids, receipts);
            SelectWinner(o, rs).None? <==> forall r :: r in rs ==> !IsRankable(r)
  {
    var rs := EvaluateAll(o, s, cs, bids, receipts);
    WinnerIsFirst(o, rs);
    ResultsOfCommitments(o, s, cs, bids, receipts);
    forall r | r in rs ensures IsRankable(r) <==> Ranking.Entry(r).Some? {
      var c :| c in cs && r == Evaluate(o, CaseOf(s, c, bids, receipts));
      if IsRankable(r) { RankableHasEntry(o, CaseOf(s, c, bids, receipts)); }
    }
  }

  /** The verifier always accepts the manifest reconstructed from evaluated, reconciled inputs. */
  lemma ReconstructionVerifies(
    o: Oracles, rulesHash: Text, s: Setting, cs: seq<Commitment>, bids: map<Text, Json>, receipts: map<Text, Json>,
    barrier: SafeInt, reference: Text)
    requires Ordered(o, cs)
    ensures var rs := EvaluateAll(o, s, cs, bids, receipts);
            var m := Sealed(o, ExpectedBody(o, rulesHash, s.tender, rs, s.evaluationTime, barrier, reference));
            Integrity(rs, m, m)
  {
    OrderedUnique(o, s, cs, bids, receipts);
    EvaluateAllInOrder(o, s, cs, bids, receipts);
    WinnerConsistentWithResults(o, s, cs, bids, receipts);
  }

  lemma ReconciledOrdered(o: Oracles, i: AuctionInput)
    requires Buildable(o, i)
    ensures forall k :: 0 <= k < |i.commitments| ==> i.commitments[k].Shaped?
    ensures Ordered(o, Reconciled(i.commitments, i.bids, i.receipts).commitments)
  {
    BuildableShapes(o, i);
    ReconciledFacts(o, i.commitments, i.bids, i.receipts);
  }

  /** Eligible commitments carry the hash of their private bid. */
  lemma OfferHash(o: Oracles, s: Setting, c: Commitment, bids: map<Text, Json>, receipts: map<Text, Json>)
    requires ValidCommitment(o, c) && Eligible(o, CaseOf(s, c, bids, receipts))
    ensures Offer(o, CaseOf(s, c, bids, receipts), c).bidHash == c.bidHash
  {
  }

  /** `c` is the commitment whose bid the auction of this input awards. */
  ghost predicate AwardedTo(o: Oracles, i: AuctionInput, c: Commitment)
    requires forall k :: 0 <= k < |i.commitments| ==> i.commitments[k].Shaped?
  {
    var r := Reconciled(i.commitments, i.bids, i.receipts);
    IsWinner(o, SettingOf(i), r.commitments, r.fullBids, r.receipts, c)
  }

  ghost predicate NoneEligible(o: Oracles, i: AuctionInput)
    requires forall k :: 0 <= k < |i.commitments| ==> i.commitments[k].Shaped?
  {
    var r := Reconciled(i.commitments, i.bids, i.receipts);
    forall c :: c in r.commitments ==> !Eligible(o, CaseOf(SettingOf(i), c, r.fullBids, r.receipts))
  }

  /** The winner fields are those of the ranking of the evaluated results. */
  lemma BuiltWinner(o: Oracles, rulesHash: Text, i: AuctionInput)
    requires Buildable(o, i)
    ensures Built(o, rulesHash, i).Some?
    ensures forall k :: 0 <= k < |i.commitments| ==> i.commitments[k].Shaped?
    ensures var body := Built(o, rulesHash, i).value.body; var w := SelectWinner(o, ResultsOf(o, i));
            && body.winningBidId == (if w.Some? then Some(w.value.bidId) else None)
            && body.winningBidHash == (if w.Some? then Some(w.value.bidHash) else None)
  {
    ReconciledOrdered(o, i);
    var r := Reconciled(i.commitments, i.bids, i.receipts);
    OrderedUnique(o, SettingOf(i), r.commitments, r.fullBids, r.receipts);
    EvaluateAllInOrder(o, SettingOf(i), r.commitments, r.fullBids, r.receipts);
  }

  lemma RankingAwards(o: Oracles, i: AuctionInput)
    requires Buildable(o, i)
    ensures forall k :: 0 <= k < |i.commitments| ==> i.commitments[k].Shaped?
    ensures var w := SelectWinner(o, ResultsOf(o, i));
            && (w.None? <==> NoneEligible(o, i))
            && (w.Some? ==> exists c :: AwardedTo(o, i, c) && w.value.bidId == c.bidId && w.value.bidHash == c.bidHash)
  {
    ReconciledOrdered(o, i);
    var r := Reconciled(i.commitments, i.bids, i.receipts);
    WinnerExactly(o, SettingOf(i), r.commitments, r.fullBids, r.receipts);
    if !NoneEligible(o, i) {
      var w := SelectWinner(o, ResultsOf(o, i)).value;
      var c :| IsWinner(o, SettingOf(i), r.commitments, r.fullBids, r.receipts, c)
               && w == Offer(o, CaseOf(SettingOf(i), c, r.fullBids, r.receipts), c);
      OfferHash(o, SettingOf(i), c, r.fullBids, r.receipts);
      assert AwardedTo(o, i, c);
    }
  }

  /**
   The published winner is the best eligible commitment by price, delivery, consensus time and
   bid id, with the hash it committed to; there is none exactly when no commitment is eligible.
   */
  lemma {:induction false} ManifestWinner(o: Oracles, rulesHash: Text, i: AuctionInput)
    requires Buildable(o, i)
    ensures Built(o, rulesHash, i).Some?
    ensures forall k :: 0 <= k < |i.commitments| ==> i.commitments[k].Shaped?
    ensures var body := Built(o, rulesHash, i).value.body;
            && (body.winningBidId.None? <==> NoneEligible(o, i))
            && (body.winningBidId.None? <==> body.winningBidHash.None?)
            && (body.winningBidId.Some? ==> exists c ::
                  AwardedTo(o, i, c) && body.winningBidId == Some(c.bidId) && body.winningBidHash == Some(c.bidHash))
  {
    BuiltWinner(o, rulesHash, i);
    RankingAwards(o, i);
  }

  // --- what the hashes bind ------------------------------------------------------------------------------------

  lemma BidSetDigestBinds(
    o: Oracles, id: Text, version: SafeInt, x: seq<BoundEvidence>, id': Text, version': SafeInt, y: seq<BoundEvidence>)
    requires CollisionFree(o.digest)
    requires CanonicalSha256(o.digest, BidSetJson(id, version, x)) == CanonicalSha256(o.digest, BidSetJson(id', version', y))
    ensures id == id' && version == version' && |x| == |y|
    ensures forall i :: 0 <= i < |x| ==> SameEvidence(x[i], y[i])
  {
    BidSetJsonPlain(id, version, x);
    BidSetJsonPlain(id', version', y);
    HashDeterminesValue(o.digest, BidSetJson(id, version, x), BidSetJson(id', version', y));
    BidSetJsonInjective(id, version, x, id', version', y);
  }

  /** The evidence of all results, in the order in which it is hashed. */
  function OrderedViews(o: Oracles, tender: Tender, results: seq<EligibilityResult>): seq<BoundEvidence> {
    Views(o, tender, Sort(results, ResultLeq))
  }

  /**
   With a collision-free digest, equal bid-set hashes mean the same tender and the same
   ordered evidence, interpretation and decision for every commitment.
   */
  lemma BidSetHashBinds(o: Oracles, t: Tender, rs: seq<EligibilityResult>, t': Tender, rs': seq<EligibilityResult>)
    requires CollisionFree(o.digest)
    requires EvaluatedBidSetHash(o, t, rs) == EvaluatedBidSetHash(o, t', rs')
    ensures t.tenderId == t'.tenderId && t.version == t'.version
    ensures |OrderedViews(o, t, rs)| == |OrderedViews(o, t', rs')| == |rs| == |rs'|
    ensures forall i :: 0 <= i < |rs| ==> SameEvidence(OrderedViews(o, t, rs)[i], OrderedViews(o, t', rs')[i])
  {
    SortPermutes(rs, ResultLeq);
    SortPermutes(rs', ResultLeq);
    assert |Sort(rs, ResultLeq)| == |rs| && |Sort(rs', ResultLeq)| == |rs'|;
    BidSetDigestBinds(o, t.tenderId, t.version, OrderedViews(o, t, rs), t'.tenderId, t'.version, OrderedViews(o, t', rs'));
  }

  /** Whatever the decision, a result carries the hashes of what was submitted. */
  lemma ResultEvidence(o: Oracles, k: Case)
    ensures Evaluate(o, k).submittedSignedBidEnvelopeHash == EvidenceHash(o, k.signedBid)
    ensures Evaluate(o, k).submittedReceiptEnvelopeHash == EvidenceHash(o, k.signedReceipt)
  {
  }

  lemma EvidenceHashBinds(o: Oracles, a: Json, b: Json)
    requires CollisionFree(o.digest) && Plain(a) && Plain(b) && EvidenceHash(o, a) == EvidenceHash(o, b)
    ensures SameValue(a, b)
  {
    if a != Null { HashDeterminesValue(o.digest, a, b); }
  }

  /** The submitted evidence of each commitment is JSON, with distinct keys in every object. */
  ghost predicate EvidencePlain(cs: seq<Commitment>, evidence: map<Text, Json>) {
    forall i :: 0 <= i < |cs| ==> Plain(Submitted(evidence, cs[i].bidId))
  }

  lemma ViewAt(o: Oracles, s: Setting, cs: seq<Commitment>, bids: map<Text, Json>, receipts: map<Text, Json>, i: nat)
    requires Ordered(o, cs) && i < |cs|
    ensures |OrderedViews(o, s.tender, EvaluateAll(o, s, cs, bids, receipts))| == |cs|
    ensures var v := OrderedViews(o, s.tender, EvaluateAll(o, s, cs, bids, receipts))[i];
            && v.commitment == Some(cs[i])
            && v.submittedSignedBidEnvelopeHash == EvidenceHash(o, Submitted(bids, cs[i].bidId))
            && v.submittedReceiptEnvelopeHash == EvidenceHash(o, Submitted(receipts, cs[i].bidId))
  {
    OrderedUnique(o, s, cs, bids, receipts);
    ResultIdentity(o, s, cs[i], bids, receipts);
    ResultEvidence(o, CaseOf(s, cs[i], bids, receipts));
  }

  lemma ViewCount(o: Oracles, s: Setting, cs: seq<Commitment>, bids: map<Text, Json>, receipts: map<Text, Json>)
    ensures |EvaluateAll(o, s, cs, bids, receipts)| == |cs|
  {
    SortPermutes(Results(o, s, cs, bids, receipts), ResultLeq);
  }

  /**
   With a collision-free digest, two auctions with one bid-set hash have the same commitments, and for
   each of them the same private bid and the same receipt were submitted, readable or not.
   */
  lemma BidSetHashBindsEvidence(
    o: Oracles, s: Setting, cs: seq<Commitment>, bids: map<Text, Json>, receipts: map<Text, Json>,
    s': Setting, cs': seq<Commitment>, bids': map<Text, Json>, receipts': map<Text, Json>)
    requires CollisionFree(o.digest) && Ordered(o, cs) && Ordered(o, cs')
    requires EvidencePlain(cs, bids) && EvidencePlain(cs, receipts)
    requires EvidencePlain(cs', bids') && EvidencePlain(cs', receipts')
    requires EvaluatedBidSetHash(o, s.tender, EvaluateAll(o, s, cs, bids, receipts))
          == EvaluatedBidSetHash(o, s'.tender, EvaluateAll(o, s', cs', bids', receipts'))
    ensures cs == cs'
    ensures forall i :: 0 <= i < |cs| ==>
      && SameValue(Submitted(bids, cs[i].bidId), Submitted(bids', cs[i].bidId))
      && SameValue(Submitted(receipts, cs[i].bidId), Submitted(receipts', cs[i].bidId))
  {
    var rs, rs' := EvaluateAll(o, s, cs, bids, receipts), EvaluateAll(o, s', cs', bids', receipts');
    BidSetHashBinds(o, s.tender, rs, s'.tender, rs');
    ViewCount(o, s, cs, bids, receipts);
    ViewCount(o, s', cs', bids', receipts');
    var x, y := OrderedViews(o, s.tender, rs), OrderedViews(o, s'.tender, rs');
    forall i | 0 <= i < |cs| ensures
      && cs[i] == cs'[i]
      && SameValue(Submitted(bids, cs[i].bidId), Submitted(bids', cs[i].bidId))
      && SameValue(Submitted(receipts, cs[i].bidId), Submitted(receipts', cs[i].bidId))
    {
      assert SameEvidence(x[i], y[i]);
      ViewAt(o, s, cs, bids, receipts, i);
      ViewAt(o, s', cs', bids', receipts', i);
      EvidenceHashBinds(o, Submitted(bids, cs[i].bidId), Submitted(bids', cs'[i].bidId));
      EvidenceHashBinds(o, Submitted(receipts, cs[i].bidId), Submitted(receipts', cs'[i].bidId));
    }
  }

  /** Equal manifest hashes mean equal manifests. */
  lemma ManifestHashBinds(o: Oracles, a: ManifestBody, b: ManifestBody)
    requires CollisionFree(o.digest)
    requires Sealed(o, a).decisionManifestHash == Sealed(o, b).decisionManifestHash
    ensures a == b
  {
    ManifestJsonPlain(a);
    ManifestJsonPlain(b);
    HashDeterminesValue(o.digest, ManifestJson(a), ManifestJson(b));
    ManifestJsonInjective(a, b);
  }
}
