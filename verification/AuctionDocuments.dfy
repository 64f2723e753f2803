/**
 The JSON documents under the two hashes of an auction. Every document is an object with a
 fixed list of keys, so that the canonical hash of one determines each of its values.
 */
module AuctionDocuments {
  import opened Wrappers
  import opened Utf16
  import opened CanonicalJson
  import opened Sorting
  import opened AuctionTypes

  /** An object literal: values under fixed keys, in insertion order. */
  function ObjectOf(names: seq<string>, values: seq<Json>): Json
    requires |names| == |values|
  {
    Obj(seq(|names|, i requires 0 <= i < |names| => Member(Lit(names[i]), values[i])))
  }

  ghost predicate DistinctNames(names: seq<string>) {
    forall i, j :: 0 <= i < j < |names| ==> Lit(names[i]) != Lit(names[j])
  }

  ghost predicate AllPlain(values: seq<Json>) {
    forall i :: 0 <= i < |values| ==> Plain(values[i])
  }

  lemma ObjectPlain(names: seq<string>, values: seq<Json>)
    requires |names| == |values| && DistinctNames(names) && AllPlain(values)
    ensures Plain(ObjectOf(names, values))
  {
    var members := ObjectOf(names, values).members;
    forall i, j | 0 <= i < j < |members| ensures KeyOf(members[i]) != KeyOf(members[j]) {
      assert Lit(names[i]) != Lit(names[j]);
    }
  }

  /** Objects with the same distinct keys are the same value only if they agree key by key. */
  lemma ObjectFields(names: seq<string>, x: seq<Json>, y: seq<Json>)
    requires |names| == |x| == |y| && DistinctNames(names)
    requires SameValue(ObjectOf(names, x), ObjectOf(names, y))
    ensures forall i :: 0 <= i < |names| ==> SameValue(x[i], y[i])
  {
    var a, b := ObjectOf(names, x).members, ObjectOf(names, y).members;
    forall i | 0 <= i < |names| ensures SameValue(x[i], y[i]) {
      assert HasSame(a[i], b);
      var j :| 0 <= j < |b| && a[i].key == b[j].key && SameValue(a[i].value, b[j].value);
      assert Lit(names[i]) == Lit(names[j]);
      assert i == j;
    }
  }

  function TextOrNull(t: Option<Text>): (v: Json)
    ensures Plain(v)
  {
    if t.Some? then Str(t.value) else Null
  }

  function BoolOrNull(b: Option<bool>): (v: Json)
    ensures Plain(v)
  {
    if b.Some? then Bool(b.value) else Null
  }

  // --- reason codes and decisions ---------------------------------------------------------------------

  const CODE_NAMES: seq<string> := [
    "INVALID_COMMITMENT_SCHEMA", "LATE_COMMITMENT", "TENDER_MISMATCH", "FULL_BID_MISSING",
    "INVALID_BID_SCHEMA", "BID_VERSION_MISMATCH", "BID_HASH_MISMATCH", "INVALID_ACCEPTANCE_RECEIPT",
    "ACCEPTANCE_RECEIPT_MISMATCH", "CARRIER_NOT_REGISTERED", "CARRIER_INACTIVE", "CARRIER_ACCOUNT_MISMATCH",
    "INVALID_BID_SIGNATURE", "BID_EXPIRED", "EQUIPMENT_MISMATCH", "EQUIPMENT_NOT_AUTHORIZED",
    "CAPACITY_NOT_CONFIRMED", "PICKUP_WINDOW_INFEASIBLE", "DELIVERY_DEADLINE_MISSED", "PRICE_ABOVE_MAXIMUM",
    "INVALID_PAYMENT_OPTIONS", "PAYMENT_RECIPIENT_MISMATCH"]

  /** The position of a code in the published order, in which the names stand. */
  function CodeIndex(code: ReasonCode): nat {
    match code
    case InvalidCommitmentSchema => 0
    case LateCommitment => 1
    case TenderMismatch => 2
    case FullBidMissing => 3
    case InvalidBidSchema => 4
    case BidVersionMismatch => 5
    case BidHashMismatch => 6
    case InvalidAcceptanceReceipt => 7
    case AcceptanceReceiptMismatch => 8
    case CarrierNotRegistered => 9
    case CarrierInactive => 10
    case CarrierAccountMismatch => 11
    case InvalidBidSignature => 12
    case BidExpired => 13
    case EquipmentMismatch => 14
    case EquipmentNotAuthorized => 15
    case CapacityNotConfirmed => 16
    case PickupWindowInfeasible => 17
    case DeliveryDeadlineMissed => 18
    case PriceAboveMaximum => 19
    case InvalidPaymentOptions => 20
    case PaymentRecipientMismatch => 21
  }

  function CodeString(code: ReasonCode): string { CODE_NAMES[CodeIndex(code)] }

  function CodeName(code: ReasonCode): Text { Lit(CodeString(code)) }

  /** Length and third letter tell the names apart. */
  const CODE_TAGS: seq<int> := [
    25086, 15084, 15078, 16076, 18086, 20068, 17068, 26086, 27067, 22082, 16082,
    24082, 21086, 11068, 18085, 24085, 22080, 24067, 24076, 19073, 23086, 26089]

  function NameTag(name: Text): int
    requires |name| > 2
  {
    |name| * 1000 + name[2]
  }

  lemma CodeTag(i: nat)
    requires i < |CODE_NAMES|
    ensures |CODE_NAMES[i]| > 2 && NameTag(Lit(CODE_NAMES[i])) == CODE_TAGS[i]
  {
  }

  lemma CodeTagsDistinct(i: nat, j: nat)
    requires i < j < |CODE_TAGS|
    ensures CODE_TAGS[i] != CODE_TAGS[j]
  {
  }

  lemma CodeNamesDistinct()
    ensures DistinctNames(CODE_NAMES)
  {
    forall i, j | 0 <= i < j < |CODE_NAMES| ensures Lit(CODE_NAMES[i]) != Lit(CODE_NAMES[j]) {
      CodeTag(i);
      CodeTag(j);
      CodeTagsDistinct(i, j);
    }
  }

  lemma CodeNameInjective(a: ReasonCode, b: ReasonCode)
    requires CodeName(a) == CodeName(b)
    ensures a == b
  {
    CodeNamesDistinct();
    assert CodeIndex(a) == CodeIndex(b);
  }

  function DecisionName(d: Decision): Text { if d == Qualified then Lit("QUALIFIED") else Lit("REJECTED") }

  function CodeList(codes: seq<ReasonCode>): Json {
    Arr(seq(|codes|, i requires 0 <= i < |codes| => Str(CodeName(codes[i]))))
  }

  lemma CodeListPlain(codes: seq<ReasonCode>)
    ensures Plain(CodeList(codes))
  {
  }

  lemma CodeListInjective(a: seq<ReasonCode>, b: seq<ReasonCode>)
    requires SameValue(CodeList(a), CodeList(b))
    ensures a == b
  {
    forall i | 0 <= i < |a| ensures a[i] == b[i] {
      assert SameValue(CodeList(a).items[i], CodeList(b).items[i]);
      CodeNameInjective(a[i], b[i]);
    }
  }

  const COMMITMENT_KEYS: seq<string> := [
    "tenderId", "bidId", "carrierId", "bidHash", "acceptanceReceiptHash", "bidVersion", "hcsSequence",
    "consensusTimestamp", "timely"]

  const EVIDENCE_KEYS: seq<string> := [
    "commitment", "submittedSignedBidPresent", "submittedSignedBidEnvelopeHash", "submittedReceiptPresent",
    "submittedReceiptEnvelopeHash", "fullBidSchemaValid", "receiptSchemaValid", "fullBidPresent",
    "validatedFullBidHash", "signedBidEnvelopeHash", "receiptPresent", "validatedReceiptHash",
    "bidVersionMatch", "signatureValid", "decision", "reasonCodes"]

  const BID_SET_KEYS: seq<string> := [
    "tenderId", "tenderVersion", "entries"]

  const ENTRY_KEYS: seq<string> := [
    "bidId", "carrierId", "hcsSequence", "consensusTimestamp", "decision", "reasonCodes"]

  const MANIFEST_KEYS: seq<string> := [
    "tenderId", "tenderVersion", "tenderHash", "engineVersion", "selectionPolicy", "rulesHash",
    "evaluationTimestamp", "barrierSequence", "reconciliationReference", "commitments", "winningBidId",
    "winningBidHash", "evaluatedBidSetHash"]

  lemma CommitmentKeysDistinct()
    ensures DistinctNames(COMMITMENT_KEYS)
  {

  }

  lemma EvidenceKeysDistinct()
    ensures DistinctNames(EVIDENCE_KEYS)
  {
    assert Lit(EVIDENCE_KEYS[7])[0] == 102 && Lit(EVIDENCE_KEYS[10])[0] == 114 && Lit(EVIDENCE_KEYS[13])[0] == 115;
    assert Lit(EVIDENCE_KEYS[5])[0] == 102 && Lit(EVIDENCE_KEYS[6])[0] == 114 && Lit(EVIDENCE_KEYS[8])[9] == 70;
    assert Lit(EVIDENCE_KEYS[11])[9] == 82;
  }

  lemma BidSetKeysDistinct()
    ensures DistinctNames(BID_SET_KEYS)
  {
  }

  lemma EntryKeysDistinct()
    ensures DistinctNames(ENTRY_KEYS)
  {
    assert Lit(ENTRY_KEYS[2])[0] == 104 && Lit(ENTRY_KEYS[5])[0] == 114;
  }

  lemma ManifestKeysDistinct()
    ensures DistinctNames(MANIFEST_KEYS)
  {
    assert Lit(MANIFEST_KEYS[1])[0] == 116 && Lit(MANIFEST_KEYS[3])[0] == 101 && Lit(MANIFEST_KEYS[4])[0] == 115;
    assert Lit(MANIFEST_KEYS[7])[0] == 98 && Lit(MANIFEST_KEYS[6])[7] == 105 && Lit(MANIFEST_KEYS[12])[7] == 101;
  }

  // --- the evaluated bid set ------------------------------------------------------------------------------

  /** What one commitment contributes: its evidence, how it was read, and the decision. */
  datatype BoundEvidence = BoundEvidence(
    commitment: Option<Commitment>, timely: bool,
    submittedSignedBidPresent: bool, submittedSignedBidEnvelopeHash: Option<Text>,
    submittedReceiptPresent: bool, submittedReceiptEnvelopeHash: Option<Text>,
    fullBidSchemaValid: Option<bool>, receiptSchemaValid: Option<bool>, fullBidPresent: bool,
    validatedFullBidHash: Option<Text>, signedBidEnvelopeHash: Option<Text>, receiptPresent: bool,
    validatedReceiptHash: Option<Text>, bidVersionMatch: Option<bool>, signatureValid: Option<bool>,
    decision: Decision, reasonCodes: seq<ReasonCode>)

  function CommitmentValues(c: Commitment, timely: bool): seq<Json> {
    [Str(c.tenderId), Str(c.bidId), Str(c.carrierId), Str(c.bidHash), Str(c.acceptanceReceiptHash),
     Num(c.bidVersion), Num(c.hcsSequence), Str(c.consensusTimestamp), Bool(timely)]
  }

  function CommitmentJson(c: Option<Commitment>, timely: bool): Json {
    if c.None? then Null else ObjectOf(COMMITMENT_KEYS, CommitmentValues(c.value, timely))
  }

  function EvidenceValues(v: BoundEvidence): seq<Json> {
    [CommitmentJson(v.commitment, v.timely),
     Bool(v.submittedSignedBidPresent), TextOrNull(v.submittedSignedBidEnvelopeHash),
     Bool(v.submittedReceiptPresent), TextOrNull(v.submittedReceiptEnvelopeHash),
     BoolOrNull(v.fullBidSchemaValid), BoolOrNull(v.receiptSchemaValid), Bool(v.fullBidPresent),
     TextOrNull(v.validatedFullBidHash), TextOrNull(v.signedBidEnvelopeHash), Bool(v.receiptPresent),
     TextOrNull(v.validatedReceiptHash), BoolOrNull(v.bidVersionMatch), BoolOrNull(v.signatureValid),
     Str(DecisionName(v.decision)), CodeList(v.reasonCodes)]
  }

  function EvidenceJson(v: BoundEvidence): Json { ObjectOf(EVIDENCE_KEYS, EvidenceValues(v)) }

  lemma CommitmentJsonPlain(c: Option<Commitment>, timely: bool)
    ensures Plain(CommitmentJson(c, timely))
  {
    if c.Some? {
      CommitmentKeysDistinct();
      ObjectPlain(COMMITMENT_KEYS, CommitmentValues(c.value, timely));
    }
  }

  lemma CommitmentJsonInjective(c: Option<Commitment>, s: bool, d: Option<Commitment>, t: bool)
    requires SameValue(CommitmentJson(c, s), CommitmentJson(d, t))
    ensures c == d && (c.Some? ==> s == t)
  {
    if c.Some? && d.Some? {
      CommitmentKeysDistinct();
      var x, y := CommitmentValues(c.value, s), CommitmentValues(d.value, t);
      ObjectFields(COMMITMENT_KEYS, x, y);
      assert SameValue(x[0], y[0]) && SameValue(x[1], y[1]) && SameValue(x[2], y[2]) && SameValue(x[3], y[3]);
      assert SameValue(x[4], y[4]) && SameValue(x[5], y[5]) && SameValue(x[6], y[6]) && SameValue(x[7], y[7]);
      assert SameValue(x[8], y[8]);
    }
  }

  lemma EvidenceValuesPlain(v: BoundEvidence)
    ensures AllPlain(EvidenceValues(v))
  {
    CommitmentJsonPlain(v.commitment, v.timely);
    CodeListPlain(v.reasonCodes);
    var x := EvidenceValues(v);
    assert Plain(x[0]) && Plain(x[1]) && Plain(x[2]) && Plain(x[3]) && Plain(x[4]) && Plain(x[5]) && Plain(x[6]);
    assert Plain(x[7]) && Plain(x[8]) && Plain(x[9]) && Plain(x[10]) && Plain(x[11]) && Plain(x[12]);
    assert Plain(x[13]) && Plain(x[14]) && Plain(x[15]);
    forall i | 0 <= i < 16 ensures Plain(x[i]) {
      assert i == 0 || i == 1 || i == 2 || i == 3 || i == 4 || i == 5 || i == 6 || i == 7
          || i == 8 || i == 9 || i == 10 || i == 11 || i == 12 || i == 13 || i == 14 || i == 15;
    }
  }

  lemma EvidenceJsonPlain(v: BoundEvidence)
    ensures Plain(EvidenceJson(v))
  {
    EvidenceValuesPlain(v);
    EvidenceKeysDistinct();
    ObjectPlain(EVIDENCE_KEYS, EvidenceValues(v));
  }

  lemma LeavesInjective(a: Option<Text>, b: Option<Text>, p: Option<bool>, q: Option<bool>)
    ensures SameValue(TextOrNull(a), TextOrNull(b)) ==> a == b
    ensures SameValue(BoolOrNull(p), BoolOrNull(q)) ==> p == q
  {
  }

  lemma DecisionNameInjective(a: Decision, b: Decision)
    requires DecisionName(a) == DecisionName(b)
    ensures a == b
  {
    assert |DecisionName(Qualified)| == 9 && |DecisionName(Rejected)| == 8;
  }

  lemma EvidenceFields(v: BoundEvidence, w: BoundEvidence)
    requires SameValue(EvidenceJson(v), EvidenceJson(w))
    ensures forall i :: 0 <= i < 16 ==> SameValue(EvidenceValues(v)[i], EvidenceValues(w)[i])
  {
    EvidenceKeysDistinct();
    ObjectFields(EVIDENCE_KEYS, EvidenceValues(v), EvidenceValues(w));
  }

  lemma SubmittedEvidenceInjective(v: BoundEvidence, w: BoundEvidence)
    requires forall i :: 0 <= i < 16 ==> SameValue(EvidenceValues(v)[i], EvidenceValues(w)[i])
    ensures v.commitment == w.commitment && (v.commitment.Some? ==> v.timely == w.timely)
    ensures v.submittedSignedBidPresent == w.submittedSignedBidPresent
    ensures v.submittedSignedBidEnvelopeHash == w.submittedSignedBidEnvelopeHash
    ensures v.submittedReceiptPresent == w.submittedReceiptPresent
    ensures v.submittedReceiptEnvelopeHash == w.submittedReceiptEnvelopeHash
    ensures v.fullBidSchemaValid == w.fullBidSchemaValid && v.receiptSchemaValid == w.receiptSchemaValid
    ensures v.fullBidPresent == w.fullBidPresent
  {
    var x, y := EvidenceValues(v), EvidenceValues(w);
    assert SameValue(x[0], y[0]) && SameValue(x[1], y[1]) && SameValue(x[2], y[2]) && SameValue(x[3], y[3]);
    assert SameValue(x[4], y[4]) && SameValue(x[5], y[5]) && SameValue(x[6], y[6]) && SameValue(x[7], y[7]);
    CommitmentJsonInjective(v.commitment, v.timely, w.commitment, w.timely);
    LeavesInjective(v.submittedSignedBidEnvelopeHash, w.submittedSignedBidEnvelopeHash, v.fullBidSchemaValid, w.fullBidSchemaValid);
    LeavesInjective(v.submittedReceiptEnvelopeHash, w.submittedReceiptEnvelopeHash, v.receiptSchemaValid, w.receiptSchemaValid);
  }

  lemma InterpretationInjective(v: BoundEvidence, w: BoundEvidence)
    requires forall i :: 0 <= i < 16 ==> SameValue(EvidenceValues(v)[i], EvidenceValues(w)[i])
    ensures v.validatedFullBidHash == w.validatedFullBidHash && v.signedBidEnvelopeHash == w.signedBidEnvelopeHash
    ensures v.receiptPresent == w.receiptPresent && v.validatedReceiptHash == w.validatedReceiptHash
    ensures v.bidVersionMatch == w.bidVersionMatch && v.signatureValid == w.signatureValid
    ensures v.decision == w.decision && v.reasonCodes == w.reasonCodes
  {
    var x, y := EvidenceValues(v), EvidenceValues(w);
    assert SameValue(x[8], y[8]) && SameValue(x[9], y[9]) && SameValue(x[10], y[10]) && SameValue(x[11], y[11]);
    assert SameValue(x[12], y[12]) && SameValue(x[13], y[13]) && SameValue(x[14], y[14]) && SameValue(x[15], y[15]);
    LeavesInjective(v.validatedFullBidHash, w.validatedFullBidHash, v.bidVersionMatch, w.bidVersionMatch);
    LeavesInjective(v.signedBidEnvelopeHash, w.signedBidEnvelopeHash, v.signatureValid, w.signatureValid);
    LeavesInjective(v.validatedReceiptHash, w.validatedReceiptHash, None, None);
    DecisionNameInjective(v.decision, w.decision);
    CodeListInjective(v.reasonCodes, w.reasonCodes);
  }

  /** The printed evidence determines everything it was printed from. */
  lemma EvidenceJsonInjective(v: BoundEvidence, w: BoundEvidence)
    requires SameValue(EvidenceJson(v), EvidenceJson(w))
    ensures SameEvidence(v, w)
  {
    EvidenceFields(v, w);
    SubmittedEvidenceInjective(v, w);
    InterpretationInjective(v, w);
  }

  function EvidenceList(entries: seq<BoundEvidence>): Json {
    Arr(seq(|entries|, i requires 0 <= i < |entries| => EvidenceJson(entries[i])))
  }

  function BidSetJson(tenderId: Text, tenderVersion: SafeInt, entries: seq<BoundEvidence>): Json {
    ObjectOf(BID_SET_KEYS, [Str(tenderId), Num(tenderVersion), EvidenceList(entries)])
  }

  lemma BidSetJsonPlain(tenderId: Text, tenderVersion: SafeInt, entries: seq<BoundEvidence>)
    ensures Plain(BidSetJson(tenderId, tenderVersion, entries))
  {
    BidSetKeysDistinct();
    forall i | 0 <= i < |entries| ensures Plain(EvidenceList(entries).items[i]) { EvidenceJsonPlain(entries[i]); }
    ObjectPlain(BID_SET_KEYS, [Str(tenderId), Num(tenderVersion), EvidenceList(entries)]);
  }

  /** Two entries that say the same; `timely` is only said about a readable commitment. */
  predicate SameEvidence(v: BoundEvidence, w: BoundEvidence) {
    v.(timely := false) == w.(timely := false) && (v.commitment.Some? ==> v.timely == w.timely)
  }

  lemma BidSetJsonInjective(
    tenderId: Text, version: SafeInt, x: seq<BoundEvidence>, tenderId': Text, version': SafeInt, y: seq<BoundEvidence>)
    requires SameValue(BidSetJson(tenderId, version, x), BidSetJson(tenderId', version', y))
    ensures tenderId == tenderId' && version == version' && |x| == |y|
    ensures forall i :: 0 <= i < |x| ==> SameEvidence(x[i], y[i])
  {
    BidSetKeysDistinct();
    var a, b := [Str(tenderId), Num(version), EvidenceList(x)], [Str(tenderId'), Num(version'), EvidenceList(y)];
    ObjectFields(BID_SET_KEYS, a, b);
    assert SameValue(a[0], b[0]) && SameValue(a[1], b[1]) && SameValue(a[2], b[2]);
    forall i | 0 <= i < |x| ensures SameEvidence(x[i], y[i]) {
      assert SameValue(EvidenceList(x).items[i], EvidenceList(y).items[i]);
      EvidenceJsonInjective(x[i], y[i]);
    }
  }

  // --- the decision manifest --------------------------------------------------------------------------------

  datatype ManifestEntry = ManifestEntry(
    bidId: Text, carrierId: Text, hcsSequence: SafeInt, consensusTimestamp: Text, decision: Decision,
    reasonCodes: seq<ReasonCode>)

  datatype ManifestBody = ManifestBody(
    tenderId: Text, tenderVersion: SafeInt, tenderHash: Text, engineVersion: Text, selectionPolicy: Text,
    rulesHash: Text, evaluationTimestamp: Text, barrierSequence: SafeInt, reconciliationReference: Text,
    commitments: seq<ManifestEntry>, winningBidId: Option<Text>, winningBidHash: Option<Text>,
    evaluatedBidSetHash: Text)

  datatype Manifest = Manifest(body: ManifestBody, decisionManifestHash: Text)

  function EntryValues(e: ManifestEntry): seq<Json> {
    [Str(e.bidId), Str(e.carrierId), Num(e.hcsSequence), Str(e.consensusTimestamp),
     Str(DecisionName(e.decision)), CodeList(e.reasonCodes)]
  }

  function EntryJson(e: ManifestEntry): Json { ObjectOf(ENTRY_KEYS, EntryValues(e)) }

  function EntryList(entries: seq<ManifestEntry>): Json {
    Arr(seq(|entries|, i requires 0 <= i < |entries| => EntryJson(entries[i])))
  }

  function ManifestValues(b: ManifestBody): seq<Json> {
    [Str(b.tenderId), Num(b.tenderVersion), Str(b.tenderHash), Str(b.engineVersion), Str(b.selectionPolicy),
     Str(b.rulesHash), Str(b.evaluationTimestamp), Num(b.barrierSequence), Str(b.reconciliationReference),
     EntryList(b.commitments), TextOrNull(b.winningBidId), TextOrNull(b.winningBidHash),
     Str(b.evaluatedBidSetHash)]
  }

  function ManifestJson(b: ManifestBody): Json { ObjectOf(MANIFEST_KEYS, ManifestValues(b)) }

  lemma EntryJsonPlain(e: ManifestEntry)
    ensures Plain(EntryJson(e))
  {
    EntryKeysDistinct();
    ObjectPlain(ENTRY_KEYS, EntryValues(e));
  }

  lemma EntryJsonInjective(e: ManifestEntry, f: ManifestEntry)
    requires SameValue(EntryJson(e), EntryJson(f))
    ensures e == f
  {
    EntryKeysDistinct();
    var x, y := EntryValues(e), EntryValues(f);
    ObjectFields(ENTRY_KEYS, x, y);
    assert SameValue(x[0], y[0]) && SameValue(x[1], y[1]) && SameValue(x[2], y[2]) && SameValue(x[3], y[3]);
    assert SameValue(x[4], y[4]) && SameValue(x[5], y[5]);
    DecisionNameInjective(e.decision, f.decision);
    CodeListInjective(e.reasonCodes, f.reasonCodes);
  }

  lemma ManifestJsonPlain(b: ManifestBody)
    ensures Plain(ManifestJson(b))
  {
    ManifestKeysDistinct();
    forall i | 0 <= i < |b.commitments| ensures Plain(EntryList(b.commitments).items[i]) {
      EntryJsonPlain(b.commitments[i]);
    }
    ObjectPlain(MANIFEST_KEYS, ManifestValues(b));
  }

  lemma EntryListInjective(x: seq<ManifestEntry>, y: seq<ManifestEntry>)
    requires SameValue(EntryList(x), EntryList(y))
    ensures x == y
  {
    forall i | 0 <= i < |x| ensures x[i] == y[i] {
      assert SameValue(EntryList(x).items[i], EntryList(y).items[i]);
      EntryJsonInjective(x[i], y[i]);
    }
  }

  /** The printed manifest determines the manifest. */
  lemma ManifestJsonInjective(a: ManifestBody, b: ManifestBody)
    requires SameValue(ManifestJson(a), ManifestJson(b))
    ensures a == b
  {
    ManifestKeysDistinct();
    var x, y := ManifestValues(a), ManifestValues(b);
    ObjectFields(MANIFEST_KEYS, x, y);
    assert SameValue(x[0], y[0]) && SameValue(x[1], y[1]) && SameValue(x[2], y[2]) && SameValue(x[3], y[3]);
    assert SameValue(x[4], y[4]) && SameValue(x[5], y[5]) && SameValue(x[6], y[6]) && SameValue(x[7], y[7]);
    assert SameValue(x[8], y[8]) && SameValue(x[9], y[9]) && SameValue(x[10], y[10]) && SameValue(x[11], y[11]);
    assert SameValue(x[12], y[12]);
    EntryListInjective(a.commitments, b.commitments);
    LeavesInjective(a.winningBidId, b.winningBidId, None, None);
    LeavesInjective(a.winningBidHash, b.winningBidHash, None, None);
  }

  // --- what each key holds -----------------------------------------------------------------------------------

  lemma {:induction false} LookupAt(members: seq<Member>, i: nat)
    requires i < |members| && forall j :: 0 <= j < i ==> members[j].key != members[i].key
    ensures Lookup(members, members[i].key) == Some(members[i].value)
  {
    if i > 0 {
      assert members[1..][i - 1] == members[i];
      assert forall j :: 0 <= j < i - 1 ==> members[1..][j] == members[j + 1];
      LookupAt(members[1..], i - 1);
    }
  }

  /** An object literal holds each value under its name. */
  lemma FieldOfObject(names: seq<string>, values: seq<Json>, i: nat)
    requires |names| == |values| && DistinctNames(names) && i < |names|
    ensures Field(ObjectOf(names, values), names[i]) == Some(values[i])
  {
    var members := ObjectOf(names, values).members;
    forall j | 0 <= j < i ensures members[j].key != members[i].key { assert Lit(names[j]) != Lit(names[i]); }
    LookupAt(members, i);
  }

  /** The manifest document, key by key. */
  lemma ManifestJsonSays(b: ManifestBody)
    ensures var d := ManifestJson(b);
            && Field(d, "tenderId") == Some(Str(b.tenderId))
            && Field(d, "tenderVersion") == Some(Num(b.tenderVersion))
            && Field(d, "tenderHash") == Some(Str(b.tenderHash))
            && Field(d, "engineVersion") == Some(Str(b.engineVersion))
            && Field(d, "selectionPolicy") == Some(Str(b.selectionPolicy))
            && Field(d, "rulesHash") == Some(Str(b.rulesHash))
            && Field(d, "evaluationTimestamp") == Some(Str(b.evaluationTimestamp))
            && Field(d, "barrierSequence") == Some(Num(b.barrierSequence))
            && Field(d, "reconciliationReference") == Some(Str(b.reconciliationReference))
            && Field(d, "commitments") == Some(EntryList(b.commitments))
            && Field(d, "winningBidId") == Some(TextOrNull(b.winningBidId))
            && Field(d, "winningBidHash") == Some(TextOrNull(b.winningBidHash))
            && Field(d, "evaluatedBidSetHash") == Some(Str(b.evaluatedBidSetHash))
            && |d.members| == 13
  {
    ManifestKeysDistinct();
    var x := ManifestValues(b);
    FieldOfObject(MANIFEST_KEYS, x, 0);
    FieldOfObject(MANIFEST_KEYS, x, 1);
    FieldOfObject(MANIFEST_KEYS, x, 2);
    FieldOfObject(MANIFEST_KEYS, x, 3);
    FieldOfObject(MANIFEST_KEYS, x, 4);
    FieldOfObject(MANIFEST_KEYS, x, 5);
    FieldOfObject(MANIFEST_KEYS, x, 6);
    FieldOfObject(MANIFEST_KEYS, x, 7);
    FieldOfObject(MANIFEST_KEYS, x, 8);
    FieldOfObject(MANIFEST_KEYS, x, 9);
    FieldOfObject(MANIFEST_KEYS, x, 10);
    FieldOfObject(MANIFEST_KEYS, x, 11);
    FieldOfObject(MANIFEST_KEYS, x, 12);
  }

  /** An entry of the manifest document, key by key. */
  lemma EntryJsonSays(e: ManifestEntry)
    ensures var d := EntryJson(e);
            && Field(d, "bidId") == Some(Str(e.bidId))
            && Field(d, "carrierId") == Some(Str(e.carrierId))
            && Field(d, "hcsSequence") == Some(Num(e.hcsSequence))
            && Field(d, "consensusTimestamp") == Some(Str(e.consensusTimestamp))
            && Field(d, "decision") == Some(Str(if e.decision.Qualified? then Lit("QUALIFIED") else Lit("REJECTED")))
            && Field(d, "reasonCodes") == Some(CodeList(e.reasonCodes))
            && |d.members| == 6
  {
    EntryKeysDistinct();
    var x := EntryValues(e);
    FieldOfObject(ENTRY_KEYS, x, 0);
    FieldOfObject(ENTRY_KEYS, x, 1);
    FieldOfObject(ENTRY_KEYS, x, 2);
    FieldOfObject(ENTRY_KEYS, x, 3);
    FieldOfObject(ENTRY_KEYS, x, 4);
    FieldOfObject(ENTRY_KEYS, x, 5);
  }

  /** The bid-set document, key by key. */
  lemma BidSetJsonSays(tenderId: Text, version: SafeInt, entries: seq<BoundEvidence>)
    ensures var d := BidSetJson(tenderId, version, entries);
            && Field(d, "tenderId") == Some(Str(tenderId)) && Field(d, "tenderVersion") == Some(Num(version))
            && Field(d, "entries") == Some(EvidenceList(entries)) && |d.members| == 3
  {
    BidSetKeysDistinct();
    var x := [Str(tenderId), Num(version), EvidenceList(entries)];
    FieldOfObject(BID_SET_KEYS, x, 0);
    FieldOfObject(BID_SET_KEYS, x, 1);
    FieldOfObject(BID_SET_KEYS, x, 2);
  }

  /** A commitment in the bid-set document, key by key. */
  lemma CommitmentJsonSays(c: Commitment, timely: bool)
    ensures var d := CommitmentJson(Some(c), timely);
            && Field(d, "tenderId") == Some(Str(c.tenderId)) && Field(d, "bidId") == Some(Str(c.bidId))
            && Field(d, "carrierId") == Some(Str(c.carrierId)) && Field(d, "bidHash") == Some(Str(c.bidHash))
            && Field(d, "acceptanceReceiptHash") == Some(Str(c.acceptanceReceiptHash))
            && Field(d, "bidVersion") == Some(Num(c.bidVersion)) && Field(d, "hcsSequence") == Some(Num(c.hcsSequence))
            && Field(d, "consensusTimestamp") == Some(Str(c.consensusTimestamp))
            && Field(d, "timely") == Some(Bool(timely)) && |d.members| == 9
    ensures CommitmentJson(None, timely) == Null
  {
    CommitmentKeysDistinct();
    var x := CommitmentValues(c, timely);
    FieldOfObject(COMMITMENT_KEYS, x, 0);
    FieldOfObject(COMMITMENT_KEYS, x, 1);
    FieldOfObject(COMMITMENT_KEYS, x, 2);
    FieldOfObject(COMMITMENT_KEYS, x, 3);
    FieldOfObject(COMMITMENT_KEYS, x, 4);
    FieldOfObject(COMMITMENT_KEYS, x, 5);
    FieldOfObject(COMMITMENT_KEYS, x, 6);
    FieldOfObject(COMMITMENT_KEYS, x, 7);
    FieldOfObject(COMMITMENT_KEYS, x, 8);
  }

  /** The submitted evidence in the bid-set document, key by key. */
  lemma EvidenceJsonSays(v: BoundEvidence)
    ensures var d := EvidenceJson(v);
            && Field(d, "commitment") == Some(CommitmentJson(v.commitment, v.timely))
            && Field(d, "submittedSignedBidPresent") == Some(Bool(v.submittedSignedBidPresent))
            && Field(d, "submittedSignedBidEnvelopeHash") == Some(TextOrNull(v.submittedSignedBidEnvelopeHash))
            && Field(d, "submittedReceiptPresent") == Some(Bool(v.submittedReceiptPresent))
            && Field(d, "submittedReceiptEnvelopeHash") == Some(TextOrNull(v.submittedReceiptEnvelopeHash))
            && Field(d, "fullBidSchemaValid") == Some(BoolOrNull(v.fullBidSchemaValid))
            && Field(d, "receiptSchemaValid") == Some(BoolOrNull(v.receiptSchemaValid))
            && Field(d, "fullBidPresent") == Some(Bool(v.fullBidPresent)) && |d.members| == 16
  {
    EvidenceKeysDistinct();
    var x := EvidenceValues(v);
    FieldOfObject(EVIDENCE_KEYS, x, 0);
    FieldOfObject(EVIDENCE_KEYS, x, 1);
    FieldOfObject(EVIDENCE_KEYS, x, 2);
    FieldOfObject(EVIDENCE_KEYS, x, 3);
    FieldOfObject(EVIDENCE_KEYS, x, 4);
    FieldOfObject(EVIDENCE_KEYS, x, 5);
    FieldOfObject(EVIDENCE_KEYS, x, 6);
    FieldOfObject(EVIDENCE_KEYS, x, 7);
  }

  /** Its interpretation and decision, key by key. */
  lemma InterpretationJsonSays(v: BoundEvidence)
    ensures var d := EvidenceJson(v);
            && Field(d, "validatedFullBidHash") == Some(TextOrNull(v.validatedFullBidHash))
            && Field(d, "signedBidEnvelopeHash") == Some(TextOrNull(v.signedBidEnvelopeHash))
            && Field(d, "receiptPresent") == Some(Bool(v.receiptPresent))
            && Field(d, "validatedReceiptHash") == Some(TextOrNull(v.validatedReceiptHash))
            && Field(d, "bidVersionMatch") == Some(BoolOrNull(v.bidVersionMatch))
            && Field(d, "signatureValid") == Some(BoolOrNull(v.signatureValid))
            && Field(d, "decision") == Some(Str(if v.decision.Qualified? then Lit("QUALIFIED") else Lit("REJECTED")))
            && Field(d, "reasonCodes") == Some(CodeList(v.reasonCodes))
  {
    EvidenceKeysDistinct();
    var x := EvidenceValues(v);
    FieldOfObject(EVIDENCE_KEYS, x, 8);
    FieldOfObject(EVIDENCE_KEYS, x, 9);
    FieldOfObject(EVIDENCE_KEYS, x, 10);
    FieldOfObject(EVIDENCE_KEYS, x, 11);
    FieldOfObject(EVIDENCE_KEYS, x, 12);
    FieldOfObject(EVIDENCE_KEYS, x, 13);
    FieldOfObject(EVIDENCE_KEYS, x, 14);
    FieldOfObject(EVIDENCE_KEYS, x, 15);
  }

  /** The published names of the codes of a submission. */
  lemma CodeNames1()
    ensures CodeString(InvalidCommitmentSchema) == "INVALID_COMMITMENT_SCHEMA"
    ensures CodeString(LateCommitment) == "LATE_COMMITMENT"
    ensures CodeString(TenderMismatch) == "TENDER_MISMATCH"
    ensures CodeString(FullBidMissing) == "FULL_BID_MISSING"
    ensures CodeString(InvalidBidSchema) == "INVALID_BID_SCHEMA"
    ensures CodeString(BidVersionMismatch) == "BID_VERSION_MISMATCH"
  {
  }

  /** The published names of the codes of hashes, receipt and registration. */
  lemma CodeNames2()
    ensures CodeString(BidHashMismatch) == "BID_HASH_MISMATCH"
    ensures CodeString(InvalidAcceptanceReceipt) == "INVALID_ACCEPTANCE_RECEIPT"
    ensures CodeString(AcceptanceReceiptMismatch) == "ACCEPTANCE_RECEIPT_MISMATCH"
    ensures CodeString(CarrierNotRegistered) == "CARRIER_NOT_REGISTERED"
    ensures CodeString(CarrierInactive) == "CARRIER_INACTIVE"
  {
  }

  /** The published names of the codes of the carrier and its bid. */
  lemma CodeNames3()
    ensures CodeString(CarrierAccountMismatch) == "CARRIER_ACCOUNT_MISMATCH"
    ensures CodeString(InvalidBidSignature) == "INVALID_BID_SIGNATURE"
    ensures CodeString(BidExpired) == "BID_EXPIRED"
    ensures CodeString(EquipmentMismatch) == "EQUIPMENT_MISMATCH"
    ensures CodeString(EquipmentNotAuthorized) == "EQUIPMENT_NOT_AUTHORIZED"
    ensures CodeString(CapacityNotConfirmed) == "CAPACITY_NOT_CONFIRMED"
  {
  }

  /** The published names of the codes of the terms and the payment. */
  lemma CodeNames4()
    ensures CodeString(PickupWindowInfeasible) == "PICKUP_WINDOW_INFEASIBLE"
    ensures CodeString(DeliveryDeadlineMissed) == "DELIVERY_DEADLINE_MISSED"
    ensures CodeString(PriceAboveMaximum) == "PRICE_ABOVE_MAXIMUM"
    ensures CodeString(InvalidPaymentOptions) == "INVALID_PAYMENT_OPTIONS"
    ensures CodeString(PaymentRecipientMismatch) == "PAYMENT_RECIPIENT_MISMATCH"
  {
  }
}
