/** The entities of an auction: what carriers commit to, what is evaluated and what is published. */
module AuctionTypes {
  import opened Wrappers
  import opened Utf16
  import opened CanonicalJson
  import opened Utf8

  // --- commitments observed on the consensus topic ------------------------------------------

  datatype Commitment = Commitment(
    tenderId: Text, bidId: Text, carrierId: Text, bidHash: Text, acceptanceReceiptHash: Text,
    bidVersion: SafeInt, hcsSequence: SafeInt, consensusTimestamp: Text)

  /** An unvalidated commitment: an object of the right shape, or anything else. */
  datatype RawCommitment = Malformed | Shaped(commitment: Commitment)

  predicate IsSha256(t: Text) {
    && |t| == 71 && t[..7] == [115, 104, 97, 50, 53, 54, 58]
    && forall i :: 7 <= i < 71 ==> HexValue(t[i]).Some?
  }

  predicate IsBoundedId(t: Text) { 1 <= |t| <= 128 }

  predicate ValidCommitment(o: Oracles, c: Commitment) {
    && IsBoundedId(c.tenderId) && IsBoundedId(c.bidId) && IsBoundedId(c.carrierId)
    && IsSha256(c.bidHash) && IsSha256(c.acceptanceReceiptHash)
    && c.bidVersion > 0 && c.hcsSequence > 0
    && o.utc(c.consensusTimestamp).Some?
  }

  /** `parseCommitmentEvidence`; None stands for a throw. */
  function ParseCommitment(o: Oracles, raw: RawCommitment): Option<Commitment> {
    if raw.Shaped? && ValidCommitment(o, raw.commitment) then Some(raw.commitment) else None
  }

  // --- tenders, bids, receipts and carriers --------------------------------------------------

  /** A tender. `shipment` holds the parts that no rule reads. */
  datatype Tender = Tender(
    tenderId: Text, version: SafeInt, auctionEndsAt: Text, requiredEquipment: Text,
    pickupEarliest: Text, pickupLatest: Text, deliveryDeadline: Text,
    maximumFreightPriceCents: SafeInt, shipment: Json)

  datatype PaymentOption = PaymentOption(optionId: Text, asset: Text, amountAtomic: Text, payTo: Text)

  /** A private bid. */
  datatype Bid = Bid(
    bidId: Text, tenderId: Text, carrierId: Text, carrierAccountId: Text, freightPriceCents: SafeInt,
    equipment: Text, proposedPickupAt: Text, estimatedDelivery: Text, capacityConfirmed: bool,
    bidValidUntil: Text, paymentOptions: seq<PaymentOption>, commitmentSalt: Text, nonce: Text,
    version: SafeInt)

  /** The receipt that RouteGuard signs for an accepted bid. */
  datatype Receipt = Receipt(
    receiptId: Text, tenderId: Text, bidId: Text, bidHash: Text, acceptedAt: Text, version: SafeInt)

  datatype Carrier = Carrier(
    carrierId: Text, carrierAccountId: Text, signingPublicKey: Text, active: bool,
    allowedEquipment: seq<Text>)

  /**
   What the auction rules do not look into: the instant a timestamp denotes (UtcTime.ParseUtc is
   the one in use), object schemas apart from their timestamps, hashes and signatures.
   */
  datatype Oracles = Oracles(
    utc: Text -> Option<int>,
    digest: seq<Byte> -> Text,
    bidShape: Json -> Option<Bid>,
    receiptShape: Json -> Option<Receipt>,
    bidHash: Bid -> Text,
    signedBidHash: (Bid, Text) -> Text,
    receiptHash: Receipt -> Text,
    tenderHash: Tender -> Text,
    stringOf: Json -> Text,
    verifyBid: (Bid, Text, Text) -> bool,
    verifyReceipt: (Receipt, Text, Text) -> bool)
  {
    predicate IsUtc(t: Text) { utc(t).Some? }

    /** The instant of an accepted timestamp. */
    function Ns(t: Text): int { if utc(t).Some? then utc(t).value else 0 }

    predicate BeforeUtc(a: Text, b: Text) { Ns(a) < Ns(b) }

    predicate BeforeOrEqualUtc(a: Text, b: Text) { Ns(a) <= Ns(b) }

    /** `parseFreightTender` accepts the tender. */
    predicate ValidTender(t: Tender) {
      && IsUtc(t.auctionEndsAt) && IsUtc(t.pickupEarliest) && IsUtc(t.pickupLatest) && IsUtc(t.deliveryDeadline)
      && BeforeOrEqualUtc(t.pickupEarliest, t.pickupLatest) && BeforeOrEqualUtc(t.pickupLatest, t.deliveryDeadline)
      && BeforeUtc(t.auctionEndsAt, t.pickupEarliest)
      && t.maximumFreightPriceCents > 0 && t.version > 0
    }

    /** `parseCarrierBid`; None stands for a throw. */
    function ParseBid(v: Json): Option<Bid> {
      match bidShape(v)
      case None => None
      case Some(b) =>
        if IsUtc(b.proposedPickupAt) && IsUtc(b.estimatedDelivery) && IsUtc(b.bidValidUntil) then Some(b)
        else None
    }

    /** `parseAcceptanceReceiptBody`; None stands for a throw. */
    function ParseReceipt(v: Json): Option<Receipt> {
      match receiptShape(v)
      case None => None
      case Some(r) => if IsUtc(r.acceptedAt) then Some(r) else None
    }
  }

  /** `value[name]` on a value of any type; None stands for undefined. */
  function Field(v: Json, name: string): Option<Json> {
    if v.Obj? then Lookup(v.members, Lit(name)) else None
  }

  function Lookup(members: seq<Member>, key: Text): Option<Json> {
    if members == [] then None
    else if members[0].key == key then Some(members[0].value)
    else Lookup(members[1..], key)
  }

  // --- decisions ----------------------------------------------------------------------------

  datatype ReasonCode =
    | LateCommitment | FullBidMissing | BidHashMismatch | BidVersionMismatch
    | AcceptanceReceiptMismatch | InvalidBidSignature | InvalidCommitmentSchema | InvalidBidSchema
    | InvalidAcceptanceReceipt | CarrierNotRegistered | CarrierInactive | CarrierAccountMismatch
    | TenderMismatch | BidExpired | EquipmentMismatch | EquipmentNotAuthorized
    | CapacityNotConfirmed | PickupWindowInfeasible | DeliveryDeadlineMissed | PriceAboveMaximum
    | PaymentRecipientMismatch | InvalidPaymentOptions

  const REASON_CODE_ORDER: seq<ReasonCode> := [
    InvalidCommitmentSchema, LateCommitment, TenderMismatch, FullBidMissing, InvalidBidSchema,
    BidVersionMismatch, BidHashMismatch, InvalidAcceptanceReceipt, AcceptanceReceiptMismatch,
    CarrierNotRegistered, CarrierInactive, CarrierAccountMismatch, InvalidBidSignature, BidExpired,
    EquipmentMismatch, EquipmentNotAuthorized, CapacityNotConfirmed, PickupWindowInfeasible,
    DeliveryDeadlineMissed, PriceAboveMaximum, InvalidPaymentOptions, PaymentRecipientMismatch]

  datatype Decision = Qualified | Rejected

  datatype EligibilityResult = EligibilityResult(
    bidId: Text, carrierId: Text, decision: Decision, reasonCodes: seq<ReasonCode>,
    freightPriceCents: Option<SafeInt>, estimatedDelivery: Option<Text>,
    consensusTimestamp: Text, hcsSequence: SafeInt, bidHash: Option<Text>, timely: bool,
    submittedSignedBidPresent: bool, submittedSignedBidEnvelopeHash: Option<Text>,
    submittedReceiptPresent: bool, submittedReceiptEnvelopeHash: Option<Text>,
    fullBidSchemaValid: Option<bool>, receiptSchemaValid: Option<bool>, fullBidPresent: bool,
    validatedFullBidHash: Option<Text>, signedBidEnvelopeHash: Option<Text>, receiptPresent: bool,
    validatedReceiptHash: Option<Text>, bidVersionMatch: Option<bool>, signatureValid: Option<bool>,
    commitment: Option<Commitment>)

  datatype ReconciliationErrorCode =
    | DuplicateHcsSequence | DuplicateBidId | DuplicateCommitment | DuplicateFullBid
    | DuplicateAcceptanceReceipt | AmbiguousBidAssignment | IncompleteSequenceRange
    | InvalidClosureProof | ManifestIntegrityFailure | UncaughtError
}
