/** The durable record of one final-demo attempt, and the steps that may change it. */
module AttemptRecord {
  import opened Wrappers
  import opened Utf16
  import opened CanonicalJson

  datatype MessageLabel = AuctionOpen | BidCommitmentAlpha | BidCommitmentBeta | AuctionCloseBarrier | RouteReserved

  datatype MessageStatus = Pending | Claimed | Submitted | Confirmed | Ambiguous | Failed | ResolutionIncomplete

  datatype ReceiptStatus = Success | MirrorResolved

  datatype Message = Message(
    logicalLabel: MessageLabel, expectedSequence: int, expectedTopic: Option<Text>, envelope: Option<Json>,
    envelopeHash: Option<Text>, encodedByteCount: Option<int>, submitAttemptId: Option<Text>,
    status: MessageStatus, transactionId: Option<Text>, consensusTimestamp: Option<Text>,
    sequence: Option<int>, receiptStatus: Option<ReceiptStatus>)

  datatype TopicStatus = Unclaimed | Claimed | Created | Ambiguous | Failed

  datatype PaymentStatus = Unclaimed | Claimed | Submitted | Confirmed | Ambiguous

  datatype Mode = Live | DryRun

  datatype AttemptStatus =
    | Planned | MaterialsPersisted | TopicCreateClaimed | TopicCreated | TopicCreateAmbiguous
    | WaitingAuctionOpen | SeqClaimed(sequence: int) | SeqConfirmed(sequence: int) | WaitingAuctionClose
    | MirrorReconciled | ProofReconstructed | PaymentReady | PaymentSubmissionClaimed | PaymentSubmitted
    | PaymentConfirmed | EvidencePending | EvidenceWriting | EvidenceWritten | Completed | Failed
    | Ambiguous | ManualReviewRequired | DryRunComplete

  datatype TopicClaim = TopicClaim(claimId: Option<Text>, status: TopicStatus)

  datatype PaymentClaim = PaymentClaim(claimId: Option<Text>, status: PaymentStatus, transactionId: Option<Text>)

  datatype Record = Record(
    version: int, attemptId: Text, mode: Mode, status: AttemptStatus, topicClaim: TopicClaim,
    topicId: Option<Text>, topicTransactionId: Option<Text>, topicMemo: Option<Text>,
    topicCreatedAt: Option<Text>, outbox: seq<Message>, payment: PaymentClaim,
    failureCode: Option<Text>, failureReason: Option<Text>)

  /** A string field that JavaScript takes for true. */
  predicate Truthy(t: Option<Text>) { t.Some? && t.value != [] }

  /** Truthy after trimming. */
  predicate NonBlank(t: Option<Text>) { t.Some? && Trim(t.value) != [] }

  /** 0.0.9587459, a topic of an earlier demonstration. */
  const HISTORICAL_TOPIC: Text := Lit("0.0.9587459")

  // --- a new attempt, and what the store accepts -------------------------------------------------------

  function LabelAt(i: int): MessageLabel {
    if i == 0 then AuctionOpen else if i == 1 then BidCommitmentAlpha else if i == 2 then BidCommitmentBeta
    else if i == 3 then AuctionCloseBarrier else RouteReserved
  }

  function Position(m: MessageLabel): (i: nat)
    ensures i < 5 && LabelAt(i) == m
  {
    match m
    case AuctionOpen => 0
    case BidCommitmentAlpha => 1
    case BidCommitmentBeta => 2
    case AuctionCloseBarrier => 3
    case RouteReserved => 4
  }

  /** `emptyMessageOutbox`. */
  function EmptyOutbox(): seq<Message> {
    seq(5, i requires 0 <= i < 5 =>
      Message(LabelAt(i), i + 1, None, None, None, None, None, MessageStatus.Pending, None, None, None, None))
  }

  predicate IsIdUnit(c: CodeUnit) {
    48 <= c <= 57 || 65 <= c <= 90 || 97 <= c <= 122 || c == 45 || c == 46 || c == 95
  }

  /** `assertSafeAttemptId`. */
  predicate IsSafeId(t: Text) {
    && 0 < |t| <= 128 && (forall i :: 0 <= i < |t| ==> IsIdUnit(t[i]))
    && (forall i :: 0 <= i < |t| - 1 ==> !(t[i] == 46 && t[i + 1] == 46))
  }

  /** `createFinalDemoAttempt`, for a safe attempt id. */
  function FreshAttempt(attemptId: Text, mode: Mode): Record {
    Record(1, attemptId, mode, Planned, TopicClaim(None, TopicStatus.Unclaimed), None, None, None, None,
           EmptyOutbox(), PaymentClaim(None, PaymentStatus.Unclaimed, None), None, None)
  }

  /** A confirmed message has a transaction id, or is ROUTE_RESERVED resolved from the mirror. */
  predicate ConfirmedRule(m: Message) {
    m.status.Confirmed? ==>
      NonBlank(m.transactionId) || (m.logicalLabel == RouteReserved && m.receiptStatus == Some(MirrorResolved))
  }

  /** What `parseFinalDemoAttempt` demands. */
  predicate ParseOk(r: Record) {
    && r.version >= 1 && IsSafeId(r.attemptId)
    && r.topicId != Some(HISTORICAL_TOPIC)
    && |r.outbox| == 5 && forall i :: 0 <= i < 5 ==> ConfirmedRule(r.outbox[i])
  }

  // --- steps; None stands for a throw --------------------------------------------------------------------

  datatype Source = SubmitResponse | MirrorResolver

  /** The parts of a reservation that the recovery looks at; flags say whether a field is present. */
  datatype ReservationView = ReservationView(
    challengeIssued: bool, paymentPayloadHash: bool, clientTransaction: bool, settleClaim: bool,
    facilitatorSettle: bool, facilitatorVerify: bool, transactionId: bool, mirrorConfirmation: bool,
    routeReserved: bool)

  datatype Step =
    | ClaimMessage(m: MessageLabel, topic: Text, envelope: Json, envelopeHash: Text, byteCount: int, submitId: Text)
    | ConfirmMessage(
        m: MessageLabel, topicId: Text, sequence: int, transactionId: Option<Text>, consensusTimestamp: Text,
        envelopeHash: Text, source: Source)
    | MarkMessageSubmitted(m: MessageLabel, transactionId: Option<Text>)
    | MarkMessageAmbiguous(m: MessageLabel)
    | ClaimTopic(claimId: Text)
    | FinalizeTopic(topicId: Text, transactionId: Option<Text>, memo: Text, createdAt: Text)
    | MarkTopicAmbiguous(reason: Text)
    | ClaimPayment(claimId: Text)
    | RecordPayment(transactionId: Option<Text>, confirmed: bool)
    | ClearPayment(reservation: ReservationView)
    | Annotate(status: AttemptStatus, code: Option<Text>, explanation: Option<Text>)

  /** The first message with a label. */
  function IndexOf(outbox: seq<Message>, m: MessageLabel): (r: Option<nat>)
    ensures r.Some? ==> r.value < |outbox| && outbox[r.value].logicalLabel == m
    ensures r.Some? ==> forall j :: 0 <= j < r.value ==> outbox[j].logicalLabel != m
    ensures r.None? ==> forall j :: 0 <= j < |outbox| ==> outbox[j].logicalLabel != m
  {
    if outbox == [] then None
    else
      var init := outbox[..|outbox| - 1];
      if IndexOf(init, m).Some? then IndexOf(init, m)
      else if outbox[|outbox| - 1].logicalLabel == m then Some(|outbox| - 1)
      else None
  }

  /** `claimMessageOutbox`. */
  function ClaimMessageOutbox(
    r: Record, m: MessageLabel, topic: Text, envelope: Json, envelopeHash: Text, byteCount: int, submitId: Text)
    : Option<Record>
  {
    if topic == HISTORICAL_TOPIC then None
    else
      match IndexOf(r.outbox, m)
      case None => None
      case Some(idx) =>
        var current := r.outbox[idx];
        if !current.status.Pending? then None
        else if exists i :: 0 <= i < |r.outbox| && r.outbox[i].expectedSequence < current.expectedSequence
                            && !r.outbox[i].status.Confirmed? then None
        else
          Some(r.(
            outbox := r.outbox[idx := current.(
              expectedTopic := Some(topic), envelope := Some(envelope), envelopeHash := Some(envelopeHash),
              encodedByteCount := Some(byteCount), submitAttemptId := Some(submitId),
              status := MessageStatus.Claimed)],
            status := SeqClaimed(Position(m) + 1)))
  }

  /** `confirmMessageOutbox`. */
  function ConfirmMessageOutbox(
    r: Record, m: MessageLabel, topicId: Text, sequence: int, transactionId: Option<Text>,
    consensusTimestamp: Text, envelopeHash: Text, source: Source): Option<Record>
  {
    if !NonBlank(transactionId) && source != MirrorResolver then None
    else if source == MirrorResolver && m != RouteReserved then None
    else if !NonBlank(Some(consensusTimestamp)) then None
    else
      match IndexOf(r.outbox, m)
      case None => None
      case Some(idx) =>
        var current := r.outbox[idx];
        if !current.status.Claimed? && !current.status.Submitted?
           && !(current.status.Ambiguous? && source == MirrorResolver) then None
        else if Truthy(current.expectedTopic) && current.expectedTopic != Some(topicId) then None
        else if topicId == HISTORICAL_TOPIC then None
        else if sequence != current.expectedSequence then None
        else if Truthy(current.envelopeHash) && current.envelopeHash != Some(envelopeHash) then None
        else
          Some(r.(
            outbox := r.outbox[idx := current.(
              status := MessageStatus.Confirmed,
              transactionId := if NonBlank(transactionId) then Some(Trim(transactionId.value)) else None,
              consensusTimestamp := Some(consensusTimestamp), sequence := Some(sequence),
              receiptStatus := Some(if source == MirrorResolver then MirrorResolved else Success),
              expectedTopic := Some(topicId))],
            status := SeqConfirmed(Position(m) + 1)))
  }

  /** `claimTopicCreate`. */
  function ClaimTopicCreate(r: Record, claimId: Text): Option<Record> {
    if !r.topicClaim.status.Unclaimed? then None
    else if Truthy(r.topicId) || Truthy(r.topicTransactionId) then None
    else Some(r.(status := TopicCreateClaimed, topicClaim := TopicClaim(Some(claimId), TopicStatus.Claimed)))
  }

  function Retarget(outbox: seq<Message>, topicId: Text): (s: seq<Message>)
    ensures |s| == |outbox|
    ensures forall i :: 0 <= i < |s| ==> s[i] == outbox[i].(expectedTopic := Some(topicId))
  {
    seq(|outbox|, i requires 0 <= i < |outbox| => outbox[i].(expectedTopic := Some(topicId)))
  }

  /** `finalizeTopicCreate`. */
  function FinalizeTopicCreate(r: Record, topicId: Text, transactionId: Option<Text>, memo: Text, createdAt: Text)
    : Option<Record>
  {
    if !r.topicClaim.status.Claimed? then None
    else if topicId == HISTORICAL_TOPIC then None
    else if topicId == [] || !Truthy(transactionId) then None
    else Some(r.(
      status := TopicCreated, topicId := Some(topicId), topicTransactionId := transactionId,
      topicMemo := Some(memo), topicCreatedAt := Some(createdAt),
      topicClaim := r.topicClaim.(status := TopicStatus.Created), outbox := Retarget(r.outbox, topicId)))
  }

  /** `markTopicCreateAmbiguous`: no guard. */
  function MarkTopicCreateAmbiguous(r: Record, reason: Text): Record {
    r.(status := TopicCreateAmbiguous, topicClaim := r.topicClaim.(status := TopicStatus.Ambiguous),
       failureCode := Some(Lit("TOPIC_CREATE_AMBIGUOUS")), failureReason := Some(reason))
  }

  /** `isSafePreSubmissionPaymentClaim`. */
  predicate IsSafePreSubmission(r: Record, v: ReservationView) {
    && r.payment.status.Claimed? && !Truthy(r.payment.transactionId)
    && v.challengeIssued && !v.paymentPayloadHash && !v.clientTransaction && !v.settleClaim
    && !v.facilitatorSettle && !v.facilitatorVerify && !v.transactionId && !v.mirrorConfirmation
    && !v.routeReserved
    && match IndexOf(r.outbox, RouteReserved)
       case None => true
       case Some(idx) =>
         var m := r.outbox[idx];
         && !m.status.Claimed? && !m.status.Submitted? && !m.status.Confirmed? && !m.status.Ambiguous?
         && !Truthy(m.transactionId) && m.sequence.None?
  }

  /** `clearSafePreSubmissionPaymentClaim`. */
  function ClearSafePreSubmission(r: Record, v: ReservationView): Option<Record> {
    if !IsSafePreSubmission(r, v) then None
    else Some(r.(status := PaymentReady, payment := PaymentClaim(None, PaymentStatus.Unclaimed, None),
                 failureCode := None, failureReason := None))
  }

  /** What the orchestration does to one message between its claim and its confirmation. */
  function UpdateClaimed(r: Record, m: MessageLabel, status: MessageStatus, transactionId: Option<Text>): Option<Record> {
    match IndexOf(r.outbox, m)
    case None => None
    case Some(idx) =>
      if !r.outbox[idx].status.Claimed? then None
      else
        var tx := if transactionId.Some? then transactionId else r.outbox[idx].transactionId;
        Some(r.(outbox := r.outbox[idx := r.outbox[idx].(status := status, transactionId := tx)]))
  }

  /** One step; payment steps and annotations are those of the orchestration. */
  function Apply(r: Record, s: Step): Option<Record> {
    match s
    case ClaimMessage(m, topic, envelope, hash, count, id) => ClaimMessageOutbox(r, m, topic, envelope, hash, count, id)
    case ConfirmMessage(m, topic, sequence, tx, consensus, hash, source) =>
      ConfirmMessageOutbox(r, m, topic, sequence, tx, consensus, hash, source)
    case MarkMessageSubmitted(m, tx) => UpdateClaimed(r, m, MessageStatus.Submitted, tx)
    case MarkMessageAmbiguous(m) => UpdateClaimed(r, m, MessageStatus.Ambiguous, None)
    case ClaimTopic(id) => ClaimTopicCreate(r, id)
    case FinalizeTopic(topic, tx, memo, at) => FinalizeTopicCreate(r, topic, tx, memo, at)
    case MarkTopicAmbiguous(reason) => Some(MarkTopicCreateAmbiguous(r, reason))
    case ClaimPayment(id) =>
      if !r.payment.status.Unclaimed? then None
      else Some(r.(status := PaymentSubmissionClaimed,
                   payment := PaymentClaim(Some(id), PaymentStatus.Claimed, None)))
    case RecordPayment(tx, confirmed) =>
      if !Truthy(tx) then None
      else Some(r.(
        status := if confirmed then PaymentConfirmed else PaymentSubmitted,
        payment := r.payment.(
          status := if confirmed then PaymentStatus.Confirmed else PaymentStatus.Submitted, transactionId := tx)))
    case ClearPayment(v) => ClearSafePreSubmission(r, v)
    case Annotate(status, code, reason) => Some(r.(status := status, failureCode := code, failureReason := reason))
  }

  /** `assertSafeToStartFinalDemoLive` does not throw. */
  predicate SafeToStart(existing: Option<Record>) {
    match existing
    case None => true
    case Some(r) =>
      && r.mode == Live
      && !(r.status.Completed? || r.status.EvidenceWritten?)
      && !(r.status.Ambiguous? || r.status.TopicCreateAmbiguous? || r.status.ManualReviewRequired?
           || r.topicClaim.status.Ambiguous?)
      && !(r.topicClaim.status.Claimed? || r.topicClaim.status.Created? || Truthy(r.topicId)
           || Truthy(r.topicTransactionId))
      && !(!r.payment.status.Unclaimed? || Truthy(r.payment.transactionId))
      && (forall i :: 0 <= i < |r.outbox| ==>
            var m := r.outbox[i];
            !(m.status.Claimed? || m.status.Submitted? || m.status.Confirmed? || m.status.Ambiguous?
              || Truthy(m.transactionId)))
      && !r.status.Failed?
  }

  // --- the invariant of reachable records ------------------------------------------------------------------

  predicate InFlight(m: Message) { m.status.Claimed? || m.status.Submitted? || m.status.Ambiguous? }

  /** The first `k` messages are confirmed, the next may be in flight, the rest are untouched. */
  predicate PrefixAt(outbox: seq<Message>, k: nat) {
    && k <= |outbox|
    && (forall i :: 0 <= i < k ==> outbox[i].status.Confirmed?)
    && (k < |outbox| ==> outbox[k].status.Pending? || InFlight(outbox[k]))
    && (forall i :: k < i < |outbox| ==> outbox[i].status.Pending?)
  }

  ghost predicate InOrder(outbox: seq<Message>) { exists k: nat :: PrefixAt(outbox, k) }

  predicate Arranged(outbox: seq<Message>) {
    |outbox| == 5
    && forall i :: 0 <= i < 5 ==> outbox[i].logicalLabel == LabelAt(i) && outbox[i].expectedSequence == i + 1
  }

  predicate MessageSound(m: Message) {
    && (m.status.Pending? ==>
          m.envelopeHash.None? && m.transactionId.None? && m.sequence.None? && m.receiptStatus.None?)
    && (!m.status.Pending? ==> m.envelopeHash.Some?)
    && (m.status.Confirmed? ==>
          m.sequence == Some(m.expectedSequence) && NonBlank(m.consensusTimestamp) && ConfirmedRule(m))
  }

  predicate TopicSound(r: Record) {
    && !r.topicClaim.status.Failed?
    && (r.topicId.Some? <==> r.topicTransactionId.Some?)
    && (r.topicId.Some? ==> Truthy(r.topicId) && Truthy(r.topicTransactionId) && r.topicId != Some(HISTORICAL_TOPIC))
    && (r.topicClaim.status.Unclaimed? || r.topicClaim.status.Claimed? ==> r.topicId.None?)
    && (r.topicClaim.status.Created? ==> r.topicId.Some?)
  }

  predicate PaymentSound(r: Record) {
    (r.payment.status.Unclaimed? || r.payment.status.Claimed?) <==> r.payment.transactionId.None?
  }

  ghost predicate OutboxSound(outbox: seq<Message>) {
    Arranged(outbox) && InOrder(outbox) && forall i :: 0 <= i < 5 ==> MessageSound(outbox[i])
  }

  ghost predicate Inv(r: Record) { OutboxSound(r.outbox) && TopicSound(r) && PaymentSound(r) }

  lemma FreshInv(attemptId: Text, mode: Mode)
    ensures Inv(FreshAttempt(attemptId, mode))
  {
    assert PrefixAt(EmptyOutbox(), 0);
  }

  lemma IndexIsPosition(outbox: seq<Message>, m: MessageLabel)
    requires Arranged(outbox)
    ensures IndexOf(outbox, m) == Some(Position(m))
  {
    assert outbox[Position(m)].logicalLabel == m;
  }

  /** A claim is made only at the front of what is not yet confirmed. */
  lemma ClaimKeepsOutbox(r: Record, s: Step)
    requires OutboxSound(r.outbox) && s.ClaimMessage? && Apply(r, s).Some?
    ensures OutboxSound(Apply(r, s).value.outbox)
  {
    IndexIsPosition(r.outbox, s.m);
    var p := Position(s.m);
    var next := Apply(r, s).value.outbox;
    var k: nat :| PrefixAt(r.outbox, k);
    assert forall i :: 0 <= i < p ==> r.outbox[i].expectedSequence < r.outbox[p].expectedSequence;
    assert k == p;
    assert PrefixAt(next, p);
  }

  lemma OneMessageKeepsOutbox(outbox: seq<Message>, p: nat, m: Message)
    requires OutboxSound(outbox) && p < 5 && InFlight(outbox[p]) && MessageSound(m)
    requires m.logicalLabel == outbox[p].logicalLabel && m.expectedSequence == outbox[p].expectedSequence
    requires InFlight(m) || m.status.Confirmed?
    ensures OutboxSound(outbox[p := m])
  {
    var k: nat :| PrefixAt(outbox, k);
    assert k == p;
    if InFlight(m) {
      assert PrefixAt(outbox[p := m], p);
    } else {
      assert PrefixAt(outbox[p := m], p + 1);
    }
  }

  lemma ConfirmedMessageSound(r: Record, s: Step)
    requires OutboxSound(r.outbox) && s.ConfirmMessage? && Apply(r, s).Some?
    ensures var p := Position(s.m);
            && IndexOf(r.outbox, s.m) == Some(p) && InFlight(r.outbox[p])
            && Apply(r, s).value.outbox[p].status.Confirmed? && MessageSound(Apply(r, s).value.outbox[p])
  {
    IndexIsPosition(r.outbox, s.m);
    if NonBlank(s.transactionId) { TrimIdempotent(s.transactionId.value); }
  }

  lemma ConfirmKeepsOutbox(r: Record, s: Step)
    requires OutboxSound(r.outbox) && s.ConfirmMessage? && Apply(r, s).Some?
    ensures OutboxSound(Apply(r, s).value.outbox)
  {
    ConfirmedMessageSound(r, s);
    var p := Position(s.m);
    OneMessageKeepsOutbox(r.outbox, p, Apply(r, s).value.outbox[p]);
  }

  lemma MarkKeepsOutbox(r: Record, s: Step)
    requires OutboxSound(r.outbox) && (s.MarkMessageSubmitted? || s.MarkMessageAmbiguous?) && Apply(r, s).Some?
    ensures OutboxSound(Apply(r, s).value.outbox)
  {
    IndexIsPosition(r.outbox, s.m);
    var p := Position(s.m);
    OneMessageKeepsOutbox(r.outbox, p, Apply(r, s).value.outbox[p]);
  }

  lemma RetargetKeepsOutbox(outbox: seq<Message>, topicId: Text)
    requires OutboxSound(outbox)
    ensures OutboxSound(Retarget(outbox, topicId))
  {
    var k: nat :| PrefixAt(outbox, k);
    assert PrefixAt(Retarget(outbox, topicId), k);
  }

  /** Every step keeps the invariant. */
  lemma StepKeepsInv(r: Record, s: Step)
    requires Inv(r) && Apply(r, s).Some?
    ensures Inv(Apply(r, s).value)
  {
    match s
    case ClaimMessage(_, _, _, _, _, _) => ClaimKeepsOutbox(r, s);
    case ConfirmMessage(_, _, _, _, _, _, _) => ConfirmKeepsOutbox(r, s);
    case MarkMessageSubmitted(_, _) => MarkKeepsOutbox(r, s);
    case MarkMessageAmbiguous(_) => MarkKeepsOutbox(r, s);
    case FinalizeTopic(topic, _, _, _) => RetargetKeepsOutbox(r.outbox, topic);
    case _ =>
  }

  /** Whatever an accepted record contains, every step yields a record that the store accepts. */
  lemma StepPassesValidation(r: Record, s: Step)
    requires ParseOk(r) && Apply(r, s).Some?
    ensures ParseOk(Apply(r, s).value)
  {
    if s.ConfirmMessage? && NonBlank(s.transactionId) { TrimIdempotent(s.transactionId.value); }
  }

  // --- what no step takes back ------------------------------------------------------------------------------

  /** How one message may differ between an earlier and a later record. */
  predicate MessageProgress(a: Message, b: Message) {
    && a.logicalLabel == b.logicalLabel && a.expectedSequence == b.expectedSequence
    && (!a.status.Pending? ==> !b.status.Pending? && b.envelopeHash == a.envelopeHash)
    && (a.status.Confirmed? ==> b.(expectedTopic := None) == a.(expectedTopic := None))
    && (a.status.Ambiguous? && a.logicalLabel != RouteReserved ==> b.status.Ambiguous?)
  }

  /** Claims, topics and confirmations are never forgotten or replaced; a payment id may be replaced, never dropped. */
  predicate Progress(a: Record, b: Record) {
    && b.attemptId == a.attemptId && b.mode == a.mode
    && (!a.topicClaim.status.Unclaimed? ==> !b.topicClaim.status.Unclaimed?)
    && (a.topicClaim.status.Ambiguous? ==> b.topicClaim.status.Ambiguous? && b.topicId == a.topicId)
    && (a.topicId.Some? ==> b.topicId == a.topicId && b.topicTransactionId == a.topicTransactionId)
    && (a.payment.transactionId.Some? ==> b.payment.transactionId.Some?)
    && |a.outbox| == |b.outbox| == 5
    && forall i :: 0 <= i < 5 ==> MessageProgress(a.outbox[i], b.outbox[i])
  }

  lemma ProgressTransitive(a: Record, b: Record, c: Record)
    requires Progress(a, b) && Progress(b, c)
    ensures Progress(a, c)
  {
    forall i | 0 <= i < 5 ensures MessageProgress(a.outbox[i], c.outbox[i]) {
      assert MessageProgress(a.outbox[i], b.outbox[i]) && MessageProgress(b.outbox[i], c.outbox[i]);
    }
  }

  /** Changing one message, in the way that steps do, is progress of the outbox. */
  lemma OneMessageProgress(outbox: seq<Message>, p: nat, m: Message)
    requires |outbox| == 5 && p < 5 && MessageProgress(outbox[p], m)
    ensures forall i :: 0 <= i < 5 ==> MessageProgress(outbox[i], outbox[p := m][i])
  {
  }

  lemma OutboxProgress(r: Record, s: Step)
    requires Inv(r) && Apply(r, s).Some?
    ensures |Apply(r, s).value.outbox| == 5
    ensures forall i :: 0 <= i < 5 ==> MessageProgress(r.outbox[i], Apply(r, s).value.outbox[i])
  {
    if s.ClaimMessage? || s.ConfirmMessage? || s.MarkMessageSubmitted? || s.MarkMessageAmbiguous? {
      IndexIsPosition(r.outbox, s.m);
      var p := Position(s.m);
      OneMessageProgress(r.outbox, p, Apply(r, s).value.outbox[p]);
    }
  }

  lemma StepProgress(r: Record, s: Step)
    requires Inv(r) && Apply(r, s).Some?
    ensures Progress(r, Apply(r, s).value)
  {
    OutboxProgress(r, s);
  }

  // --- chains of steps --------------------------------------------------------------------------------------------

  /** `h[k + 1]` is what the store keeps of the `k`-th step applied to `h[k]`. */
  ghost predicate StepsThrough(h: seq<Record>, steps: seq<Step>, k: nat)
    requires |h| == |steps| + 1 && k < |steps|
  {
    Apply(h[k], steps[k]).Some? && h[k + 1] == Apply(h[k], steps[k]).value.(version := h[k].version + 1)
  }

  /** A new attempt, whatever status it is given before it is stored. */
  predicate IsFresh(r: Record) { r == FreshAttempt(r.attemptId, r.mode).(status := r.status) }

  /** A history that starts with a fresh attempt and goes on by steps. */
  ghost predicate Chain(h: seq<Record>, steps: seq<Step>) {
    && |h| == |steps| + 1
    && IsFresh(h[0])
    && forall k :: 0 <= k < |steps| ==> StepsThrough(h, steps, k)
  }

  lemma {:induction false} ChainInv(h: seq<Record>, steps: seq<Step>, k: nat)
    requires Chain(h, steps) && k < |h|
    ensures Inv(h[k]) && h[k].version == k + 1
  {
    if k == 0 {
      FreshInv(h[0].attemptId, h[0].mode);
    } else {
      ChainInv(h, steps, k - 1);
      assert StepsThrough(h, steps, k - 1);
      StepKeepsInv(h[k - 1], steps[k - 1]);
    }
  }

  lemma {:induction false} ChainProgress(h: seq<Record>, steps: seq<Step>, i: nat, j: nat)
    requires Chain(h, steps) && i <= j < |h|
    ensures Progress(h[i], h[j])
    decreases j - i
  {
    ChainInv(h, steps, i);
    if i < j {
      ChainProgress(h, steps, i, j - 1);
      ChainInv(h, steps, j - 1);
      assert StepsThrough(h, steps, j - 1);
      StepProgress(h[j - 1], steps[j - 1]);
      ProgressTransitive(h[i], h[j - 1], h[j]);
    }
  }

  /** The steps that ask the network for something that must happen at most once. */
  predicate SameClaim(s: Step, t: Step) {
    (s.ClaimTopic? && t.ClaimTopic?) || (s.ClaimMessage? && t.ClaimMessage? && s.m == t.m)
  }

  lemma ClaimIsFirst(r: Record, s: Step)
    requires Inv(r) && Apply(r, s).Some?
    ensures s.ClaimTopic? ==> r.topicClaim.status.Unclaimed? && !Apply(r, s).value.topicClaim.status.Unclaimed?
    ensures s.ClaimMessage? ==>
      r.outbox[Position(s.m)].status.Pending? && !Apply(r, s).value.outbox[Position(s.m)].status.Pending?
  {
    if s.ClaimMessage? { IndexIsPosition(r.outbox, s.m); }
  }

  /** No history holds two topic claims, nor two claims of one message. */
  lemma AtMostOneClaim(h: seq<Record>, steps: seq<Step>, i: nat, j: nat)
    requires Chain(h, steps) && i < j < |steps|
    ensures !SameClaim(steps[i], steps[j])
  {
    ChainInv(h, steps, i);
    ChainInv(h, steps, j);
    ChainProgress(h, steps, i + 1, j);
    assert StepsThrough(h, steps, i) && StepsThrough(h, steps, j);
    ClaimIsFirst(h[i], steps[i]);
    ClaimIsFirst(h[j], steps[j]);
    if steps[i].ClaimMessage? {
      var p := Position(steps[i].m);
      assert MessageProgress(h[i + 1].outbox[p], h[j].outbox[p]);
    }
  }

  /** A topic once created is the topic of every later record. */
  lemma TopicNeverChanges(h: seq<Record>, steps: seq<Step>, i: nat, j: nat)
    requires Chain(h, steps) && i <= j < |h| && h[i].topicId.Some?
    ensures h[j].topicId == h[i].topicId && h[j].topicTransactionId == h[i].topicTransactionId
    ensures h[i].topicId.value != [] && h[i].topicId.value != HISTORICAL_TOPIC
  {
    ChainInv(h, steps, i);
    ChainProgress(h, steps, i, j);
  }

  /**
   In every record of a history the confirmed messages are a prefix in sequence order, at most the
   next message is in flight, and each confirmed message has its expected sequence.
   */
  lemma OutboxIsOrdered(h: seq<Record>, steps: seq<Step>, k: nat)
    requires Chain(h, steps) && k < |h|
    ensures Arranged(h[k].outbox) && InOrder(h[k].outbox)
    ensures forall i :: 0 <= i < 5 && h[k].outbox[i].status.Confirmed? ==>
      h[k].outbox[i].sequence == Some(i + 1) && ConfirmedRule(h[k].outbox[i])
  {
    ChainInv(h, steps, k);
  }

  lemma ClaimedHash(r: Record, s: Step)
    requires Inv(r) && s.ClaimMessage? && Apply(r, s).Some?
    ensures var m := Apply(r, s).value.outbox[Position(s.m)]; !m.status.Pending? && m.envelopeHash == Some(s.envelopeHash)
  {
    IndexIsPosition(r.outbox, s.m);
  }

  /** A message keeps the envelope hash of its claim for good. */
  lemma HashIsTheClaimedOne(h: seq<Record>, steps: seq<Step>, i: nat, j: nat)
    requires Chain(h, steps) && i < |steps| && steps[i].ClaimMessage? && i < j < |h|
    ensures |h[j].outbox| == 5 && h[j].outbox[Position(steps[i].m)].envelopeHash == Some(steps[i].envelopeHash)
  {
    ChainInv(h, steps, i);
    assert StepsThrough(h, steps, i);
    ClaimedHash(h[i], steps[i]);
    ChainProgress(h, steps, i + 1, j);
    var p := Position(steps[i].m);
    assert MessageProgress(h[i + 1].outbox[p], h[j].outbox[p]);
  }

  /** An ambiguous message before ROUTE_RESERVED stops the outbox: it stays so and nothing after it starts. */
  lemma AmbiguousMessageBlocks(h: seq<Record>, steps: seq<Step>, i: nat, j: nat, p: nat)
    requires Chain(h, steps) && i <= j < |h| && p < 4
    requires |h[i].outbox| == 5 && h[i].outbox[p].status.Ambiguous?
    ensures |h[j].outbox| == 5 && h[j].outbox[p].status.Ambiguous?
    ensures forall q :: p < q < 5 ==> h[j].outbox[q].status.Pending?
  {
    ChainInv(h, steps, i);
    ChainInv(h, steps, j);
    ChainProgress(h, steps, i, j);
    assert MessageProgress(h[i].outbox[p], h[j].outbox[p]);
    assert h[i].outbox[p].logicalLabel != RouteReserved;
    var k: nat :| PrefixAt(h[j].outbox, k);
    assert k == p;
  }

  function FirstClaim(): Step { ClaimMessage(AuctionOpen, Lit("0.0.1"), Null, Lit("h"), 1, Lit("s")) }

  /** A claimed first message that is then marked ambiguous. */
  function StuckHistory(attemptId: Text, mode: Mode): seq<Record>
    requires Apply(FreshAttempt(attemptId, mode), FirstClaim()).Some?
  {
    var r := FreshAttempt(attemptId, mode);
    var claimed := Apply(r, FirstClaim()).value.(version := 2);
    var stuck := Apply(claimed, MarkMessageAmbiguous(AuctionOpen));
    [r, claimed] + (if stuck.Some? then [stuck.value.(version := 3)] else [])
  }

  /** A history gets there: its first message is ambiguous, and no confirmation is accepted. */
  lemma AmbiguousIsReached(attemptId: Text, mode: Mode)
    ensures Apply(FreshAttempt(attemptId, mode), FirstClaim()).Some?
    ensures var h := StuckHistory(attemptId, mode);
            && |h| == 3 && Chain(h, [FirstClaim(), MarkMessageAmbiguous(AuctionOpen)])
            && |h[2].outbox| == 5 && h[2].outbox[0].status.Ambiguous?
            && forall s: Step :: s.ConfirmMessage? && s.m == AuctionOpen ==> Apply(h[2], s).None?
  {
    FirstClaimWorks(attemptId, mode);
    var h, steps := StuckHistory(attemptId, mode), [FirstClaim(), MarkMessageAmbiguous(AuctionOpen)];
    IndexIsPosition(h[1].outbox, AuctionOpen);
    IndexIsPosition(h[2].outbox, AuctionOpen);
    assert StepsThrough(h, steps, 0) && StepsThrough(h, steps, 1);
  }

  lemma FirstClaimWorks(attemptId: Text, mode: Mode)
    ensures var next := Apply(FreshAttempt(attemptId, mode), FirstClaim());
            && next.Some? && Arranged(next.value.outbox) && next.value.outbox[0].status.Claimed?
  {
    var r := FreshAttempt(attemptId, mode);
    assert Arranged(r.outbox);
    IndexIsPosition(r.outbox, AuctionOpen);
    assert |HISTORICAL_TOPIC| == 11 && |Lit("0.0.1")| == 5;
  }

  // --- recovery and restart forget nothing -----------------------------------------------------------------------

  /** A cleared payment claim had no transaction id, and everything else of substance is kept. */
  lemma ClearingForgetsNothing(r: Record, v: ReservationView)
    requires Inv(r) && ClearSafePreSubmission(r, v).Some?
    ensures r.payment.transactionId.None? && !v.transactionId && !v.settleClaim
    ensures r.outbox[4].status.Pending?
    ensures var x := ClearSafePreSubmission(r, v).value;
            && x.outbox == r.outbox && x.topicClaim == r.topicClaim && x.topicId == r.topicId
            && x.topicTransactionId == r.topicTransactionId
            && Inv(x) && Apply(x, ClearPayment(v)).None?
  {
    IndexIsPosition(r.outbox, RouteReserved);
    StepKeepsInv(r, ClearPayment(v));
    var k: nat :| PrefixAt(r.outbox, k);
    assert r.outbox[4].status.Confirmed? || r.outbox[4].status.Pending? || InFlight(r.outbox[4]);
  }

  /** After a payment id is recorded, no record of the history lacks one and no claim can be cleared. */
  lemma PaymentIdStays(h: seq<Record>, steps: seq<Step>, i: nat, j: nat)
    requires Chain(h, steps) && i < j < |h| && steps[i].RecordPayment?
    ensures h[j].payment.transactionId.Some? && !SafeToStart(Some(h[j]))
    ensures forall v :: ClearSafePreSubmission(h[j], v).None?
  {
    ChainInv(h, steps, i);
    ChainInv(h, steps, j);
    assert StepsThrough(h, steps, i);
    ChainProgress(h, steps, i + 1, j);
  }

  /** Statuses that forbid a start whatever the claims say. */
  predicate BlockingStatus(s: AttemptStatus) {
    s.Completed? || s.EvidenceWritten? || s.Ambiguous? || s.TopicCreateAmbiguous? || s.ManualReviewRequired? || s.Failed?
  }

  /** For reachable records the start guard is exactly: live, not blocked, and nothing claimed. */
  lemma SafeToStartExactly(r: Record)
    requires Inv(r)
    ensures SafeToStart(Some(r)) <==>
      (r.mode == Live && !BlockingStatus(r.status) && r.topicClaim.status.Unclaimed? && r.payment.status.Unclaimed?
       && forall i :: 0 <= i < 5 ==> r.outbox[i].status.Pending?)
  {
    var k: nat :| PrefixAt(r.outbox, k);
    assert forall i :: 0 <= i < 5 ==>
      r.outbox[i].status.Confirmed? || r.outbox[i].status.Pending? || InFlight(r.outbox[i]);
  }

  /** A history whose last record may be started again holds no topic claim and no message claim. */
  lemma SafeToStartMeansUnclaimed(h: seq<Record>, steps: seq<Step>, k: nat, i: nat)
    requires Chain(h, steps) && i < k < |h| && SafeToStart(Some(h[k]))
    ensures !steps[i].ClaimTopic? && !steps[i].ClaimMessage? && !steps[i].RecordPayment?
    ensures h[k].payment.status.Unclaimed?
  {
    ChainInv(h, steps, i);
    ChainInv(h, steps, k);
    SafeToStartExactly(h[k]);
    assert StepsThrough(h, steps, i);
    ChainProgress(h, steps, i + 1, k);
    ClaimIsFirst(h[i], steps[i]);
    assert forall p :: 0 <= p < 5 ==> MessageProgress(h[i + 1].outbox[p], h[k].outbox[p]);
  }

  /**
   The guard by itself is weaker: it names four of the seven message statuses and three of the five
   topic statuses, so a record that no step produces passes it with a failed topic claim.
   */
  lemma GuardIgnoresFailedClaims(attemptId: Text)
    ensures var r := FreshAttempt(attemptId, Live).(topicClaim := TopicClaim(Some([]), TopicStatus.Failed));
            SafeToStart(Some(r)) && !Inv(r)
  {
  }
}
