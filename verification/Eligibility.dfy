/** The judgement of one commitment: which rules it breaks, and whether it may be ranked. */
module Eligibility {
  import opened Wrappers
  import opened Utf16
  import opened CanonicalJson
  import opened Utf8
  import opened Sorting
  import opened AuctionTypes

  /** Everything one evaluation looks at. Null stands for evidence that was not submitted. */
  datatype Case = Case(
    tender: Tender, commitment: RawCommitment, signedBid: Json, signedReceipt: Json,
    registry: map<Text, Carrier>, routeGuardKey: Text, evaluationTime: Text)

  // --- reading the submitted evidence -----------------------------------------------------------

  /** `signedBid.bid ?? signedBid`. */
  function BidBody(raw: Json): Json {
    match Field(raw, "bid")
    case Some(b) => if b == Null then raw else b
    case None => raw
  }

  /** `signedReceipt.receipt`, or the value itself when that is undefined. */
  function ReceiptBody(raw: Json): Json {
    match Field(raw, "receipt")
    case Some(r) => r
    case None => raw
  }

  function BidOf(o: Oracles, k: Case): Option<Bid> {
    if k.signedBid == Null then None else o.ParseBid(BidBody(k.signedBid))
  }

  function ReceiptOf(o: Oracles, k: Case): Option<Receipt> {
    if k.signedReceipt == Null then None else o.ParseReceipt(ReceiptBody(k.signedReceipt))
  }

  /** `String(signed.signature)`, or the empty string when there is no such property. */
  function SignatureText(o: Oracles, raw: Json): Text {
    match Field(raw, "signature")
    case Some(s) => o.stringOf(s)
    case None => []
  }

  predicate Timely(o: Oracles, k: Case, c: Commitment) {
    o.BeforeOrEqualUtc(c.consensusTimestamp, k.tender.auctionEndsAt)
  }

  predicate ReceiptMatches(o: Oracles, k: Case, c: Commitment, b: Bid, r: Receipt) {
    && r.bidId == b.bidId && r.tenderId == k.tender.tenderId && r.bidHash == o.bidHash(b)
    && o.receiptHash(r) == c.acceptanceReceiptHash
    && Field(k.signedReceipt, "signature").Some?
    && o.verifyReceipt(r, SignatureText(o, k.signedReceipt), k.routeGuardKey)
  }

  predicate BidSigned(o: Oracles, k: Case, b: Bid, carrier: Carrier) {
    o.verifyBid(b, SignatureText(o, k.signedBid), carrier.signingPublicKey)
  }

  predicate PickupFeasible(o: Oracles, k: Case, b: Bid) {
    && !o.BeforeUtc(b.proposedPickupAt, k.tender.pickupEarliest)
    && !o.BeforeUtc(k.tender.pickupLatest, b.proposedPickupAt)
  }

  /** `assertPaymentRecipientsMatch`, with None for a throw: it is a bare `every` and returns a boolean. */
  function AssertPaymentRecipientsMatch(options: seq<PaymentOption>, carrierAccountId: Text): Option<bool> {
    Some(forall i :: 0 <= i < |options| ==> options[i].payTo == carrierAccountId)
  }

  function RecipientsMatch(b: Bid): Option<bool> { AssertPaymentRecipientsMatch(b.paymentOptions, b.carrierAccountId) }

  // --- the rules -----------------------------------------------------------------------------------

  /** The published eligibility rules for a commitment with a readable private bid. */
  predicate RulesHold(o: Oracles, k: Case, c: Commitment, b: Bid) {
    && Timely(o, k, c)
    && o.bidHash(b) == c.bidHash
    && b.version == c.bidVersion
    && (match ReceiptOf(o, k) case Some(r) => ReceiptMatches(o, k, c, b, r) case None => false)
    && b.carrierId in k.registry
    && (var carrier := k.registry[b.carrierId];
        && BidSigned(o, k, b, carrier)
        && carrier.active
        && carrier.carrierId == b.carrierId == c.carrierId && carrier.carrierAccountId == b.carrierAccountId
        && b.equipment in carrier.allowedEquipment)
    && !o.BeforeUtc(b.bidValidUntil, k.evaluationTime)
    && c.tenderId == b.tenderId == k.tender.tenderId && b.bidId == c.bidId
    && b.equipment == k.tender.requiredEquipment
    && b.capacityConfirmed
    && PickupFeasible(o, k, b)
    && !o.BeforeUtc(k.tender.deliveryDeadline, b.estimatedDelivery)
    && b.freightPriceCents <= k.tender.maximumFreightPriceCents
    && RecipientsMatch(b) == Some(true)
  }

  /** A commitment satisfies all the eligibility rules. */
  predicate Eligible(o: Oracles, k: Case) {
    && ParseCommitment(o, k.commitment).Some?
    && BidOf(o, k).Some?
    && RulesHold(o, k, ParseCommitment(o, k.commitment).value, BidOf(o, k).value)
  }

  /** What each code says about a commitment `c` with the private bid `b`. */
  predicate BrokenByBid(o: Oracles, k: Case, c: Commitment, b: Bid, code: ReasonCode) {
    var registered := b.carrierId in k.registry;
    match code
    case BidVersionMismatch => b.version != c.bidVersion
    case BidHashMismatch => o.bidHash(b) != c.bidHash
    case InvalidAcceptanceReceipt => k.signedReceipt != Null && ReceiptOf(o, k).None?
    case AcceptanceReceiptMismatch =>
      k.signedReceipt == Null || (ReceiptOf(o, k).Some? && !ReceiptMatches(o, k, c, b, ReceiptOf(o, k).value))
    case CarrierNotRegistered => !registered
    case CarrierInactive => registered && !k.registry[b.carrierId].active
    case CarrierAccountMismatch =>
      b.carrierId != c.carrierId
      || (registered && (k.registry[b.carrierId].carrierId != b.carrierId
                         || k.registry[b.carrierId].carrierAccountId != b.carrierAccountId))
    case InvalidBidSignature => registered && !BidSigned(o, k, b, k.registry[b.carrierId])
    case EquipmentNotAuthorized => registered && b.equipment !in k.registry[b.carrierId].allowedEquipment
    case BidExpired => o.BeforeUtc(b.bidValidUntil, k.evaluationTime)
    case EquipmentMismatch => b.equipment != k.tender.requiredEquipment
    case CapacityNotConfirmed => !b.capacityConfirmed
    case PickupWindowInfeasible => !PickupFeasible(o, k, b)
    case DeliveryDeadlineMissed => o.BeforeUtc(k.tender.deliveryDeadline, b.estimatedDelivery)
    case PriceAboveMaximum => b.freightPriceCents > k.tender.maximumFreightPriceCents
    case PaymentRecipientMismatch => RecipientsMatch(b) == Some(false)
    case InvalidPaymentOptions => RecipientsMatch(b) == None
    case TenderMismatch => b.tenderId != k.tender.tenderId || b.bidId != c.bidId
    case _ => false
  }

  /** What each code says about a submission, read or unreadable. */
  predicate Broken(o: Oracles, k: Case, code: ReasonCode) {
    match ParseCommitment(o, k.commitment)
    case None => code == InvalidCommitmentSchema
    case Some(c) =>
      || (code == LateCommitment && !Timely(o, k, c))
      || (code == TenderMismatch && c.tenderId != k.tender.tenderId)
      || (code == FullBidMissing && k.signedBid == Null)
      || (code == InvalidBidSchema && k.signedBid != Null && BidOf(o, k).None?)
      || (BidOf(o, k).Some? && BrokenByBid(o, k, c, BidOf(o, k).value, code))
  }

  function Codes(o: Oracles, k: Case): set<ReasonCode> {
    set code: ReasonCode | Broken(o, k, code)
  }

  // --- the evaluation as a function ----------------------------------------------------------------

  function Filter(codes: set<ReasonCode>, order: seq<ReasonCode>): seq<ReasonCode> {
    if order == [] then []
    else (if order[0] in codes then [order[0]] else []) + Filter(codes, order[1..])
  }

  /** `orderReasonCodes`. */
  function OrderReasonCodes(codes: set<ReasonCode>): seq<ReasonCode> { Filter(codes, REASON_CODE_ORDER) }

  /** `hashSubmittedEvidenceOrNull`. */
  function EvidenceHash(o: Oracles, evidence: Json): Option<Text> {
    if evidence == Null then None else Some(CanonicalSha256(o.digest, evidence))
  }

  /** 1970-01-01T00:00:00.000000000Z, the placeholder for an unreadable commitment. */
  const EPOCH_PLACEHOLDER: Text := Lit("1970-01-01T00:00:00.000000000Z")

  /** The local `empty`: a result without a readable bid. */
  function Unread(
    o: Oracles, k: Case, codes: set<ReasonCode>, bidId: Text, carrierId: Text, sequence: SafeInt, consensus: Text)
    : EligibilityResult
  {
    var ordered := OrderReasonCodes(codes);
    EligibilityResult(
      bidId, carrierId, if ordered == [] then Qualified else Rejected, ordered, None, None, consensus, sequence,
      None, false, k.signedBid != Null, EvidenceHash(o, k.signedBid), k.signedReceipt != Null,
      EvidenceHash(o, k.signedReceipt), None, None, k.signedBid != Null, None, None, k.signedReceipt != Null,
      None, None, None, None)
  }

  function Judged(o: Oracles, k: Case, codes: set<ReasonCode>, c: Commitment, b: Bid): EligibilityResult {
    Unread(o, k, codes, c.bidId, c.carrierId, c.hcsSequence, c.consensusTimestamp).(
      freightPriceCents := Some(b.freightPriceCents),
      estimatedDelivery := Some(b.estimatedDelivery),
      bidHash := Some(o.bidHash(b)),
      timely := Timely(o, k, c),
      fullBidSchemaValid := Some(true),
      receiptSchemaValid := if k.signedReceipt == Null then None else Some(ReceiptOf(o, k).Some?),
      validatedFullBidHash := Some(o.bidHash(b)),
      signedBidEnvelopeHash := SignedEnvelopeHash(o, k.signedBid, b),
      validatedReceiptHash := (match ReceiptOf(o, k) case Some(r) => Some(o.receiptHash(r)) case None => None),
      bidVersionMatch := Some(b.version == c.bidVersion),
      signatureValid := if b.carrierId in k.registry then Some(BidSigned(o, k, b, k.registry[b.carrierId])) else None,
      commitment := Some(c))
  }

  /** The hash of bid and signature when the signature is a string. */
  function SignedEnvelopeHash(o: Oracles, signedBid: Json, b: Bid): Option<Text> {
    match Field(signedBid, "signature")
    case Some(Str(s)) => Some(o.signedBidHash(b, s))
    case _ => None
  }

  function Evaluate(o: Oracles, k: Case): EligibilityResult {
    var codes := Codes(o, k);
    match ParseCommitment(o, k.commitment)
    case None => Unread(o, k, codes, Lit("unknown"), Lit("unknown"), 0, EPOCH_PLACEHOLDER)
    case Some(c) =>
      match BidOf(o, k)
      case Some(b) => Judged(o, k, codes, c, b)
      case None =>
        Unread(o, k, codes, c.bidId, c.carrierId, c.hcsSequence, c.consensusTimestamp).(
          timely := Timely(o, k, c),
          fullBidSchemaValid := if k.signedBid == Null then None else Some(false),
          commitment := Some(c))
  }

  /** `isRankable`. */
  predicate IsRankable(r: EligibilityResult) { r.decision == Qualified && r.timely }

  // --- the evaluation as the code runs it ----------------------------------------------------------

  /** The codes that are settled before the private bid is read. */
  function EarlyCodes(o: Oracles, k: Case, c: Commitment): set<ReasonCode> {
    (if Timely(o, k, c) then {} else {LateCommitment})
    + (if c.tenderId == k.tender.tenderId then {} else {TenderMismatch})
  }

  /**
   From `given` to `codes` only codes of broken rules were added, and every broken rule among
   `settled` has its code.
   */
  ghost predicate Judges(
    o: Oracles, k: Case, c: Commitment, b: Bid, given: set<ReasonCode>, codes: set<ReasonCode>, settled: set<ReasonCode>)
  {
    && given <= codes
    && (forall code :: code in codes && code !in given ==> BrokenByBid(o, k, c, b, code))
    && (forall code :: code in settled && BrokenByBid(o, k, c, b, code) ==> code in codes)
  }

  const IDENTITY_CODES: set<ReasonCode> := {BidVersionMismatch, BidHashMismatch, TenderMismatch}
  const RECEIPT_CODES: set<ReasonCode> := {InvalidAcceptanceReceipt, AcceptanceReceiptMismatch}
  const CARRIER_CODES: set<ReasonCode> :=
    {CarrierNotRegistered, CarrierInactive, CarrierAccountMismatch, InvalidBidSignature, EquipmentNotAuthorized}
  const TERM_CODES: set<ReasonCode> := {BidExpired, EquipmentMismatch, CapacityNotConfirmed, PickupWindowInfeasible}
  const OFFER_CODES: set<ReasonCode> :=
    {DeliveryDeadlineMissed, PriceAboveMaximum, PaymentRecipientMismatch, InvalidPaymentOptions}

  /** Every code that a readable bid can earn is in one of the groups. */
  lemma GroupsCover(o: Oracles, k: Case, c: Commitment, b: Bid, code: ReasonCode)
    requires BrokenByBid(o, k, c, b, code)
    ensures code in IDENTITY_CODES || code in RECEIPT_CODES || code in CARRIER_CODES || code in TERM_CODES
            || code in OFFER_CODES
  {
  }

  /** One part after another judges all. */
  lemma JudgesAll(
    o: Oracles, k: Case, c: Commitment, b: Bid, s0: set<ReasonCode>, s1: set<ReasonCode>, s2: set<ReasonCode>,
    s3: set<ReasonCode>, s4: set<ReasonCode>, s5: set<ReasonCode>)
    requires ParseCommitment(o, k.commitment) == Some(c) && BidOf(o, k) == Some(b) && s0 == EarlyCodes(o, k, c)
    requires Judges(o, k, c, b, s0, s1, IDENTITY_CODES) && Judges(o, k, c, b, s1, s2, RECEIPT_CODES)
    requires Judges(o, k, c, b, s2, s3, CARRIER_CODES) && Judges(o, k, c, b, s3, s4, TERM_CODES)
    requires Judges(o, k, c, b, s4, s5, OFFER_CODES)
    ensures s5 == Codes(o, k)
  {
    forall code ensures code in s5 <==> code in s0 || BrokenByBid(o, k, c, b, code) {
      if BrokenByBid(o, k, c, b, code) { GroupsCover(o, k, c, b, code); }
    }
    EarlyIsBroken(o, k, c, b);
  }

  lemma EarlyIsBroken(o: Oracles, k: Case, c: Commitment, b: Bid)
    requires ParseCommitment(o, k.commitment) == Some(c) && BidOf(o, k) == Some(b)
    ensures forall code :: Broken(o, k, code) <==> code in EarlyCodes(o, k, c) || BrokenByBid(o, k, c, b, code)
  {
  }

  lemma CodesUnread(o: Oracles, k: Case)
    ensures ParseCommitment(o, k.commitment).None? ==> Codes(o, k) == {InvalidCommitmentSchema}
    ensures ParseCommitment(o, k.commitment).Some? && BidOf(o, k).None? ==>
      (var c := ParseCommitment(o, k.commitment).value;
       Codes(o, k) == EarlyCodes(o, k, c) + {if k.signedBid == Null then FullBidMissing else InvalidBidSchema})
  {
  }

  method JudgeIdentity(o: Oracles, k: Case, c: Commitment, b: Bid, given: set<ReasonCode>)
    returns (codes: set<ReasonCode>)
    ensures Judges(o, k, c, b, given, codes, IDENTITY_CODES)
    ensures b.carrierId != c.carrierId ==> CarrierAccountMismatch in codes
  {
    codes := given;
    if b.version != c.bidVersion { codes := codes + {BidVersionMismatch}; }
    if o.bidHash(b) != c.bidHash { codes := codes + {BidHashMismatch}; }
    if b.tenderId != k.tender.tenderId || b.bidId != c.bidId { codes := codes + {TenderMismatch}; }
    if b.carrierId != c.carrierId { codes := codes + {CarrierAccountMismatch}; }
  }

  method JudgeReceipt(o: Oracles, k: Case, c: Commitment, b: Bid, given: set<ReasonCode>)
    returns (codes: set<ReasonCode>, schemaValid: Option<bool>, hash: Option<Text>)
    ensures Judges(o, k, c, b, given, codes, RECEIPT_CODES)
    ensures schemaValid == if k.signedReceipt == Null then None else Some(ReceiptOf(o, k).Some?)
    ensures hash == match ReceiptOf(o, k) case Some(r) => Some(o.receiptHash(r)) case None => None
  {
    codes, schemaValid, hash := given, None, None;
    if k.signedReceipt == Null {
      codes := codes + {AcceptanceReceiptMismatch};
    } else {
      var receipt := o.ParseReceipt(ReceiptBody(k.signedReceipt));
      if receipt.None? {
        schemaValid := Some(false);
        codes := codes + {InvalidAcceptanceReceipt};
      } else {
        var r := receipt.value;
        schemaValid, hash := Some(true), Some(o.receiptHash(r));
        var matchOk := r.bidId == b.bidId && r.tenderId == k.tender.tenderId && r.bidHash == o.bidHash(b);
        var hashOk := o.receiptHash(r) == c.acceptanceReceiptHash;
        var signature := Field(k.signedReceipt, "signature");
        var sigOk := signature.Some? && o.verifyReceipt(r, o.stringOf(signature.value), k.routeGuardKey);
        if !matchOk || !hashOk || !sigOk { codes := codes + {AcceptanceReceiptMismatch}; }
      }
    }
  }

  method JudgeCarrier(o: Oracles, k: Case, c: Commitment, b: Bid, given: set<ReasonCode>)
    returns (codes: set<ReasonCode>, signatureValid: Option<bool>)
    requires b.carrierId != c.carrierId ==> CarrierAccountMismatch in given
    ensures Judges(o, k, c, b, given, codes, CARRIER_CODES)
    ensures signatureValid
         == if b.carrierId in k.registry then Some(BidSigned(o, k, b, k.registry[b.carrierId])) else None
  {
    codes, signatureValid := given, None;
    if b.carrierId !in k.registry {
      codes := codes + {CarrierNotRegistered};
    } else {
      var carrier := k.registry[b.carrierId];
      if !carrier.active { codes := codes + {CarrierInactive}; }
      if carrier.carrierId != b.carrierId || carrier.carrierAccountId != b.carrierAccountId {
        codes := codes + {CarrierAccountMismatch};
      }
      var signed := o.verifyBid(b, SignatureText(o, k.signedBid), carrier.signingPublicKey);
      signatureValid := Some(signed);
      if !signed { codes := codes + {InvalidBidSignature}; }
      if b.equipment !in carrier.allowedEquipment { codes := codes + {EquipmentNotAuthorized}; }
    }
  }

  method JudgeTerms(o: Oracles, k: Case, c: Commitment, b: Bid, given: set<ReasonCode>) returns (codes: set<ReasonCode>)
    ensures Judges(o, k, c, b, given, codes, TERM_CODES)
  {
    codes := given;
    if o.BeforeUtc(b.bidValidUntil, k.evaluationTime) { codes := codes + {BidExpired}; }
    if b.equipment != k.tender.requiredEquipment { codes := codes + {EquipmentMismatch}; }
    if !b.capacityConfirmed { codes := codes + {CapacityNotConfirmed}; }
    if o.BeforeUtc(b.proposedPickupAt, k.tender.pickupEarliest) || o.BeforeUtc(k.tender.pickupLatest, b.proposedPickupAt) {
      codes := codes + {PickupWindowInfeasible};
    }
  }

  method JudgeOffer(o: Oracles, k: Case, c: Commitment, b: Bid, given: set<ReasonCode>) returns (codes: set<ReasonCode>)
    ensures Judges(o, k, c, b, given, codes, OFFER_CODES)
  {
    codes := given;
    if o.BeforeUtc(k.tender.deliveryDeadline, b.estimatedDelivery) { codes := codes + {DeliveryDeadlineMissed}; }
    if b.freightPriceCents > k.tender.maximumFreightPriceCents { codes := codes + {PriceAboveMaximum}; }
    var recipients := AssertPaymentRecipientsMatch(b.paymentOptions, b.carrierAccountId);
    if recipients.None? {
      codes := codes + {InvalidPaymentOptions};
    } else if !recipients.value {
      codes := codes + {PaymentRecipientMismatch};
    }
  }

  /** `evaluateCommitmentEligibility`: a growing set of codes, with an early return for unreadable evidence. */
  method EvaluateCommitmentEligibility(o: Oracles, k: Case) returns (r: EligibilityResult)
    ensures r == Evaluate(o, k)
  {
    CodesUnread(o, k);
    var attempt := ParseCommitment(o, k.commitment);
    if attempt.None? {
      return Unread(o, k, {InvalidCommitmentSchema}, Lit("unknown"), Lit("unknown"), 0, EPOCH_PLACEHOLDER);
    }
    var c := attempt.value;
    var timely := Timely(o, k, c);
    var codes: set<ReasonCode> := {};
    if !timely { codes := codes + {LateCommitment}; }
    if c.tenderId != k.tender.tenderId { codes := codes + {TenderMismatch}; }
    assert codes == EarlyCodes(o, k, c);
    if k.signedBid == Null {
      codes := codes + {FullBidMissing};
      return Unread(o, k, codes, c.bidId, c.carrierId, c.hcsSequence, c.consensusTimestamp).(
        timely := timely, commitment := Some(c));
    }
    var parsed := o.ParseBid(BidBody(k.signedBid));
    if parsed.None? {
      codes := codes + {InvalidBidSchema};
      return Unread(o, k, codes, c.bidId, c.carrierId, c.hcsSequence, c.consensusTimestamp).(
        timely := timely, fullBidSchemaValid := Some(false), commitment := Some(c));
    }
    var b := parsed.value;
    var identity := JudgeIdentity(o, k, c, b, codes);
    var received, receiptSchemaValid, receiptHash := JudgeReceipt(o, k, c, b, identity);
    var carried, signatureValid := JudgeCarrier(o, k, c, b, received);
    var timed := JudgeTerms(o, k, c, b, carried);
    var all := JudgeOffer(o, k, c, b, timed);
    JudgesAll(o, k, c, b, codes, identity, received, carried, timed, all);
    return Unread(o, k, all, c.bidId, c.carrierId, c.hcsSequence, c.consensusTimestamp).(
      freightPriceCents := Some(b.freightPriceCents),
      estimatedDelivery := Some(b.estimatedDelivery),
      bidHash := Some(o.bidHash(b)),
      timely := timely,
      fullBidSchemaValid := Some(true),
      receiptSchemaValid := receiptSchemaValid,
      validatedFullBidHash := Some(o.bidHash(b)),
      signedBidEnvelopeHash := SignedEnvelopeHash(o, k.signedBid, b),
      validatedReceiptHash := receiptHash,
      bidVersionMatch := Some(b.version == c.bidVersion),
      signatureValid := signatureValid,
      commitment := Some(c));
  }

  // --- what the codes mean ------------------------------------------------------------------------

  /** No code is missing from the fixed order. */
  lemma OrderIsComplete(code: ReasonCode)
    ensures code in REASON_CODE_ORDER
  {
    assert REASON_CODE_ORDER[0] == InvalidCommitmentSchema && REASON_CODE_ORDER[1] == LateCommitment;
    assert REASON_CODE_ORDER[2] == TenderMismatch && REASON_CODE_ORDER[3] == FullBidMissing;
    assert REASON_CODE_ORDER[4] == InvalidBidSchema && REASON_CODE_ORDER[5] == BidVersionMismatch;
    assert REASON_CODE_ORDER[6] == BidHashMismatch && REASON_CODE_ORDER[7] == InvalidAcceptanceReceipt;
    assert REASON_CODE_ORDER[8] == AcceptanceReceiptMismatch && REASON_CODE_ORDER[9] == CarrierNotRegistered;
    assert REASON_CODE_ORDER[10] == CarrierInactive && REASON_CODE_ORDER[11] == CarrierAccountMismatch;
    assert REASON_CODE_ORDER[12] == InvalidBidSignature && REASON_CODE_ORDER[13] == BidExpired;
    assert REASON_CODE_ORDER[14] == EquipmentMismatch && REASON_CODE_ORDER[15] == EquipmentNotAuthorized;
    assert REASON_CODE_ORDER[16] == CapacityNotConfirmed && REASON_CODE_ORDER[17] == PickupWindowInfeasible;
    assert REASON_CODE_ORDER[18] == DeliveryDeadlineMissed && REASON_CODE_ORDER[19] == PriceAboveMaximum;
    assert REASON_CODE_ORDER[20] == InvalidPaymentOptions && REASON_CODE_ORDER[21] == PaymentRecipientMismatch;
  }

  lemma {:induction false} FilterMembers(codes: set<ReasonCode>, order: seq<ReasonCode>, code: ReasonCode)
    ensures code in Filter(codes, order) <==> code in codes && code in order
  {
    if order != [] {
      FilterMembers(codes, order[1..], code);
      assert order == [order[0]] + order[1..];
    }
  }

  /** The ordered list holds exactly the broken rules, and is empty only when none is. */
  lemma OrderedCodesExactly(codes: set<ReasonCode>)
    ensures forall code :: code in OrderReasonCodes(codes) <==> code in codes
    ensures OrderReasonCodes(codes) == [] <==> codes == {}
  {
    forall code ensures code in OrderReasonCodes(codes) <==> code in codes {
      FilterMembers(codes, REASON_CODE_ORDER, code);
      OrderIsComplete(code);
    }
    if OrderReasonCodes(codes) != [] {
      assert OrderReasonCodes(codes)[0] in OrderReasonCodes(codes);
    }
  }

  lemma RulesImplyUnbroken(o: Oracles, k: Case, c: Commitment, b: Bid, code: ReasonCode)
    requires ParseCommitment(o, k.commitment) == Some(c) && BidOf(o, k) == Some(b) && RulesHold(o, k, c, b)
    ensures !Broken(o, k, code)
  {
  }

  lemma UnbrokenImpliesRules(o: Oracles, k: Case, c: Commitment, b: Bid)
    requires ParseCommitment(o, k.commitment) == Some(c) && BidOf(o, k) == Some(b)
    requires forall code :: !Broken(o, k, code)
    ensures RulesHold(o, k, c, b)
  {
    assert !Broken(o, k, LateCommitment) && !Broken(o, k, TenderMismatch);
    assert forall code :: !BrokenByBid(o, k, c, b, code) by {
      forall code ensures !BrokenByBid(o, k, c, b, code) { assert !Broken(o, k, code); }
    }
    PartiesUnbroken(o, k, c, b);
    TermsUnbroken(o, k, c, b);
  }

  lemma PartiesUnbroken(o: Oracles, k: Case, c: Commitment, b: Bid)
    requires forall code :: !BrokenByBid(o, k, c, b, code)
    ensures match ReceiptOf(o, k) case Some(r) => ReceiptMatches(o, k, c, b, r) case None => false
    ensures b.carrierId in k.registry
    ensures var carrier := k.registry[b.carrierId];
            && BidSigned(o, k, b, carrier) && carrier.active
            && carrier.carrierId == b.carrierId == c.carrierId && carrier.carrierAccountId == b.carrierAccountId
            && b.equipment in carrier.allowedEquipment
  {
    assert !BrokenByBid(o, k, c, b, InvalidAcceptanceReceipt) && !BrokenByBid(o, k, c, b, AcceptanceReceiptMismatch);
    assert !BrokenByBid(o, k, c, b, CarrierNotRegistered) && !BrokenByBid(o, k, c, b, CarrierInactive);
    assert !BrokenByBid(o, k, c, b, CarrierAccountMismatch) && !BrokenByBid(o, k, c, b, InvalidBidSignature);
    assert !BrokenByBid(o, k, c, b, EquipmentNotAuthorized);
  }

  lemma TermsUnbroken(o: Oracles, k: Case, c: Commitment, b: Bid)
    requires forall code :: !BrokenByBid(o, k, c, b, code)
    ensures o.bidHash(b) == c.bidHash && b.version == c.bidVersion
    ensures !o.BeforeUtc(b.bidValidUntil, k.evaluationTime)
    ensures b.tenderId == k.tender.tenderId && b.bidId == c.bidId
    ensures b.equipment == k.tender.requiredEquipment && b.capacityConfirmed && PickupFeasible(o, k, b)
    ensures !o.BeforeUtc(k.tender.deliveryDeadline, b.estimatedDelivery)
    ensures b.freightPriceCents <= k.tender.maximumFreightPriceCents && RecipientsMatch(b) == Some(true)
  {
    assert !BrokenByBid(o, k, c, b, BidVersionMismatch) && !BrokenByBid(o, k, c, b, BidHashMismatch);
    assert !BrokenByBid(o, k, c, b, TenderMismatch) && !BrokenByBid(o, k, c, b, BidExpired);
    assert !BrokenByBid(o, k, c, b, EquipmentMismatch) && !BrokenByBid(o, k, c, b, CapacityNotConfirmed);
    assert !BrokenByBid(o, k, c, b, PickupWindowInfeasible) && !BrokenByBid(o, k, c, b, DeliveryDeadlineMissed);
    assert !BrokenByBid(o, k, c, b, PriceAboveMaximum) && !BrokenByBid(o, k, c, b, PaymentRecipientMismatch);
  }

  lemma EligibleIffUnbroken(o: Oracles, k: Case)
    ensures Eligible(o, k) <==> Codes(o, k) == {}
  {
    var parsed := ParseCommitment(o, k.commitment);
    if parsed.None? {
      assert Broken(o, k, InvalidCommitmentSchema);
      assert InvalidCommitmentSchema in Codes(o, k);
    } else if BidOf(o, k).None? {
      var code := if k.signedBid == Null then FullBidMissing else InvalidBidSchema;
      assert Broken(o, k, code);
      assert code in Codes(o, k);
    } else {
      var c, b := parsed.value, BidOf(o, k).value;
      if RulesHold(o, k, c, b) {
        forall code ensures !Broken(o, k, code) { RulesImplyUnbroken(o, k, c, b, code); }
      }
      if Codes(o, k) == {} {
        forall code ensures !Broken(o, k, code) { assert code !in Codes(o, k); }
        UnbrokenImpliesRules(o, k, c, b);
      }
    }
  }

  /**
   A commitment can be ranked exactly when it satisfies every published rule, and then its
   result carries the price, delivery time and hash of its private bid.
   */
  lemma RankableExactly(o: Oracles, k: Case)
    ensures IsRankable(Evaluate(o, k)) <==> Eligible(o, k)
    ensures Eligible(o, k) ==> Evaluate(o, k).decision == Qualified && Evaluate(o, k).reasonCodes == []
    ensures Eligible(o, k) ==>
      (var b := BidOf(o, k).value; var r := Evaluate(o, k);
       r.freightPriceCents == Some(b.freightPriceCents) && r.estimatedDelivery == Some(b.estimatedDelivery)
       && r.bidHash == Some(o.bidHash(b)))
  {
    EligibleIffUnbroken(o, k);
    OrderedCodesExactly(Codes(o, k));
  }

  /** One published code cannot occur: the call whose throw it would report never throws. */
  lemma {:induction false} PaymentOptionsCodeNeverOccurs(o: Oracles, k: Case)
    ensures InvalidPaymentOptions !in Evaluate(o, k).reasonCodes
  {
    var codes := Codes(o, k);
    RecipientCheckReturns(o, k);
    OrderedCodesExactly(codes);
    assert Evaluate(o, k).reasonCodes == OrderReasonCodes(codes);
  }

  lemma RecipientCheckReturns(o: Oracles, k: Case)
    ensures InvalidPaymentOptions !in Codes(o, k)
  {
    assert !Broken(o, k, InvalidPaymentOptions);
  }

  /** What a result records about a readable commitment, read from the case alone. */
  ghost predicate ResultSays(o: Oracles, k: Case, c: Commitment, r: EligibilityResult) {
    var bid, receipt := BidOf(o, k), ReceiptOf(o, k);
    && r.bidId == c.bidId && r.carrierId == c.carrierId && r.hcsSequence == c.hcsSequence
    && r.consensusTimestamp == c.consensusTimestamp && r.commitment == Some(c) && r.timely == Timely(o, k, c)
    && r.submittedSignedBidPresent == r.fullBidPresent == (k.signedBid != Null)
    && r.submittedReceiptPresent == r.receiptPresent == (k.signedReceipt != Null)
    && r.submittedSignedBidEnvelopeHash == EvidenceHash(o, k.signedBid)
    && r.submittedReceiptEnvelopeHash == EvidenceHash(o, k.signedReceipt)
    && r.fullBidSchemaValid == (if k.signedBid == Null then None else Some(bid.Some?))
    && (match bid
        case None =>
          && r.freightPriceCents.None? && r.estimatedDelivery.None? && r.bidHash.None? && r.validatedFullBidHash.None?
          && r.receiptSchemaValid.None? && r.validatedReceiptHash.None? && r.bidVersionMatch.None?
          && r.signatureValid.None? && r.signedBidEnvelopeHash.None?
        case Some(b) =>
          && r.freightPriceCents == Some(b.freightPriceCents) && r.estimatedDelivery == Some(b.estimatedDelivery)
          && r.bidHash == r.validatedFullBidHash == Some(o.bidHash(b))
          && r.bidVersionMatch == Some(b.version == c.bidVersion)
          && (forall t :: Field(k.signedBid, "signature") == Some(Str(t)) ==>
                r.signedBidEnvelopeHash == Some(o.signedBidHash(b, t)))
          && ((Field(k.signedBid, "signature").Some? ==> !Field(k.signedBid, "signature").value.Str?) ==>
                r.signedBidEnvelopeHash.None?)
          && r.receiptSchemaValid == (if k.signedReceipt == Null then None else Some(receipt.Some?))
          && (receipt.None? ==> r.validatedReceiptHash.None?)
          && (receipt.Some? ==> r.validatedReceiptHash == Some(o.receiptHash(receipt.value)))
          && (r.signatureValid.Some? <==> b.carrierId in k.registry)
          && (r.signatureValid.Some? ==> r.signatureValid.value == BidSigned(o, k, b, k.registry[b.carrierId])))
  }

  /** A result records what its case says, and its codes are exactly those of the broken rules. */
  lemma ResultIsRight(o: Oracles, k: Case, c: Commitment)
    requires ParseCommitment(o, k.commitment) == Some(c)
    ensures ResultSays(o, k, c, Evaluate(o, k))
    ensures Evaluate(o, k).decision == Qualified <==> Eligible(o, k)
    ensures forall code :: code in Evaluate(o, k).reasonCodes <==> Broken(o, k, code)
  {
    ResultCodes(o, k);
  }

  lemma ResultCodes(o: Oracles, k: Case)
    ensures Evaluate(o, k).decision == Qualified <==> Eligible(o, k)
    ensures forall code :: code in Evaluate(o, k).reasonCodes <==> Broken(o, k, code)
  {
    var codes := Codes(o, k);
    EligibleIffUnbroken(o, k);
    OrderedCodesExactly(codes);
    assert Evaluate(o, k).reasonCodes == OrderReasonCodes(codes);
    assert Evaluate(o, k).decision == if OrderReasonCodes(codes) == [] then Qualified else Rejected;
  }

  // --- all commitments of an auction -----------------------------------------------------------------

  /** The parts of an evaluation that all commitments share. */
  datatype Setting = Setting(
    tender: Tender, registry: map<Text, Carrier>, routeGuardKey: Text, evaluationTime: Text)

  function Submitted(evidence: map<Text, Json>, bidId: Text): Json {
    if bidId in evidence then evidence[bidId] else Null
  }

  function CaseOf(s: Setting, c: Commitment, bids: map<Text, Json>, receipts: map<Text, Json>): Case {
    Case(s.tender, Shaped(c), Submitted(bids, c.bidId), Submitted(receipts, c.bidId),
         s.registry, s.routeGuardKey, s.evaluationTime)
  }

  predicate ResultLeq(a: EligibilityResult, b: EligibilityResult) {
    a.hcsSequence < b.hcsSequence || (a.hcsSequence == b.hcsSequence && !Less(b.bidId, a.bidId))
  }

  function Results(o: Oracles, s: Setting, cs: seq<Commitment>, bids: map<Text, Json>, receipts: map<Text, Json>)
    : (rs: seq<EligibilityResult>)
    ensures |rs| == |cs| && forall i :: 0 <= i < |cs| ==> rs[i] == Evaluate(o, CaseOf(s, cs[i], bids, receipts))
  {
    seq(|cs|, i requires 0 <= i < |cs| => Evaluate(o, CaseOf(s, cs[i], bids, receipts)))
  }

  /** `evaluateAllCommitments`. */
  function EvaluateAll(o: Oracles, s: Setting, cs: seq<Commitment>, bids: map<Text, Json>, receipts: map<Text, Json>)
    : seq<EligibilityResult>
  {
    Sort(Results(o, s, cs, bids, receipts), ResultLeq)
  }

  method EvaluateAllCommitments(
    o: Oracles, s: Setting, cs: seq<Commitment>, bids: map<Text, Json>, receipts: map<Text, Json>)
    returns (results: seq<EligibilityResult>)
    ensures results == EvaluateAll(o, s, cs, bids, receipts)
  {
    results := [];
    for i := 0 to |cs|
      invariant |results| == i
      invariant forall k :: 0 <= k < i ==> results[k] == Evaluate(o, CaseOf(s, cs[k], bids, receipts))
    {
      var r := EvaluateCommitmentEligibility(o, CaseOf(s, cs[i], bids, receipts));
      results := results + [r];
    }
    assert results == Results(o, s, cs, bids, receipts);
    results := Sort(results, ResultLeq);
  }

  /** The identity of a result is that of its commitment. */
  lemma ResultIdentity(o: Oracles, s: Setting, c: Commitment, bids: map<Text, Json>, receipts: map<Text, Json>)
    requires ValidCommitment(o, c)
    ensures var r := Evaluate(o, CaseOf(s, c, bids, receipts));
            r.bidId == c.bidId && r.hcsSequence == c.hcsSequence && r.consensusTimestamp == c.consensusTimestamp
            && r.carrierId == c.carrierId && r.commitment == Some(c) && r.timely == Timely(o, CaseOf(s, c, bids, receipts), c)
  {
  }

  /** Valid commitments, strictly increasing in sequence and with unique bid ids. */
  ghost predicate Ordered(o: Oracles, cs: seq<Commitment>) {
    && (forall c :: c in cs ==> ValidCommitment(o, c))
    && (forall i, j :: 0 <= i < j < |cs| ==> cs[i].hcsSequence < cs[j].hcsSequence && cs[i].bidId != cs[j].bidId)
  }

  /** Results of reconciled commitments stand in commitment order already. */
  lemma EvaluateAllInOrder(
    o: Oracles, s: Setting, cs: seq<Commitment>, bids: map<Text, Json>, receipts: map<Text, Json>)
    requires Ordered(o, cs)
    ensures EvaluateAll(o, s, cs, bids, receipts) == Results(o, s, cs, bids, receipts)
  {
    var rs := Results(o, s, cs, bids, receipts);
    forall i | 0 <= i < |rs| ensures rs[i].hcsSequence == cs[i].hcsSequence {
      ResultIdentity(o, s, cs[i], bids, receipts);
    }
    SortOfSorted(rs, ResultLeq);
  }
}
