/** When each step of an attempt is accepted, what it stores, and a history that goes all the way. */
module AttemptSteps {
  import opened Wrappers
  import opened Utf16
  import opened CanonicalJson
  import opened AttemptRecord

  // --- claiming a message ---------------------------------------------------------------------------------

  /** Two records that differ at most in status and in the message at `p`. */
  predicate OnlyMessage(r: Record, x: Record, p: nat)
    requires p < 5
  {
    && x.(outbox := r.outbox, status := r.status) == r && |x.outbox| == |r.outbox| == 5
    && forall i :: 0 <= i < 5 && i != p ==> x.outbox[i] == r.outbox[i]
  }

  /** A message can be claimed exactly when it is the first that is not confirmed, and untouched. */
  lemma ClaimExactly(r: Record, s: Step)
    requires Inv(r) && s.ClaimMessage?
    ensures var p := Position(s.m);
            Apply(r, s).Some? <==> s.topic != HISTORICAL_TOPIC && PrefixAt(r.outbox, p) && r.outbox[p].status.Pending?
  {
    IndexIsPosition(r.outbox, s.m);
    var p := Position(s.m);
    var k: nat :| PrefixAt(r.outbox, k);
    assert forall i :: 0 <= i < 5 ==> (r.outbox[i].expectedSequence < r.outbox[p].expectedSequence <==> i < p);
  }

  /** A claimed message holds what the caller gave, and waits to be confirmed. */
  lemma ClaimStores(r: Record, s: Step)
    requires Inv(r) && s.ClaimMessage? && Apply(r, s).Some?
    ensures var p, x := Position(s.m), Apply(r, s).value;
            && OnlyMessage(r, x, p) && x.status == SeqClaimed(p + 1)
            && x.outbox[p] == Message(
                 s.m, p + 1, Some(s.topic), Some(s.envelope), Some(s.envelopeHash), Some(s.byteCount), Some(s.submitId),
                 MessageStatus.Claimed, None, r.outbox[p].consensusTimestamp, None, None)
  {
    IndexIsPosition(r.outbox, s.m);
    ClaimExactly(r, s);
    assert MessageSound(r.outbox[Position(s.m)]);
  }

  // --- confirming a message -------------------------------------------------------------------------------

  /** What a confirmation must bring for the message at its position. */
  predicate Confirms(m: Message, s: Step)
    requires s.ConfirmMessage?
  {
    && (m.status.Claimed? || m.status.Submitted? || (m.status.Ambiguous? && s.source == MirrorResolver))
    && (NonBlank(s.transactionId) || s.source == MirrorResolver)
    && (s.source == MirrorResolver ==> s.m == RouteReserved)
    && NonBlank(Some(s.consensusTimestamp))
    && s.topicId != HISTORICAL_TOPIC && (Truthy(m.expectedTopic) ==> m.expectedTopic == Some(s.topicId))
    && s.sequence == Position(s.m) + 1
    && (Truthy(m.envelopeHash) ==> m.envelopeHash == Some(s.envelopeHash))
  }

  /** A confirmation is accepted exactly when it matches the message in flight, from either source. */
  lemma ConfirmExactly(r: Record, s: Step)
    requires Inv(r) && s.ConfirmMessage?
    ensures Apply(r, s).Some? <==> Confirms(r.outbox[Position(s.m)], s)
  {
    IndexIsPosition(r.outbox, s.m);
  }

  /** A confirmed message keeps its claim and holds what the confirmation brought. */
  lemma ConfirmStores(r: Record, s: Step)
    requires Inv(r) && s.ConfirmMessage? && Apply(r, s).Some?
    ensures var p, x := Position(s.m), Apply(r, s).value; var m, was := x.outbox[p], r.outbox[p];
            && OnlyMessage(r, x, p) && x.status == SeqConfirmed(p + 1)
            && m.status.Confirmed? && m.sequence == Some(p + 1)
            && m.transactionId == (if NonBlank(s.transactionId) then Some(Trim(s.transactionId.value)) else None)
            && m.consensusTimestamp == Some(s.consensusTimestamp)
            && m.receiptStatus == Some(if s.source == SubmitResponse then Success else MirrorResolved)
            && m.expectedTopic == Some(s.topicId)
            && m.logicalLabel == was.logicalLabel && m.expectedSequence == was.expectedSequence
            && m.envelope == was.envelope && m.envelopeHash == was.envelopeHash
            && m.encodedByteCount == was.encodedByteCount && m.submitAttemptId == was.submitAttemptId
  {
    IndexIsPosition(r.outbox, s.m);
  }

  /** Between the two, a claimed message and no other can be marked submitted or ambiguous. */
  lemma MarkExactly(r: Record, s: Step)
    requires Inv(r) && (s.MarkMessageSubmitted? || s.MarkMessageAmbiguous?)
    ensures Apply(r, s).Some? <==> r.outbox[Position(s.m)].status.Claimed?
    ensures Apply(r, s).Some? ==>
      var p, x := Position(s.m), Apply(r, s).value;
      && OnlyMessage(r, x, p) && x.status == r.status
      && x.outbox[p].status == (if s.MarkMessageSubmitted? then MessageStatus.Submitted else MessageStatus.Ambiguous)
      && x.outbox[p].envelopeHash == r.outbox[p].envelopeHash
  {
    IndexIsPosition(r.outbox, s.m);
  }

  // --- the topic ---------------------------------------------------------------------------------------------

  /** The topic can be claimed exactly while it is unclaimed. */
  lemma TopicClaimExactly(r: Record, id: Text)
    requires Inv(r)
    ensures Apply(r, ClaimTopic(id)).Some? <==> r.topicClaim.status.Unclaimed?
    ensures Apply(r, ClaimTopic(id)).Some? ==>
      var x := Apply(r, ClaimTopic(id)).value;
      && x.(status := r.status, topicClaim := r.topicClaim) == r && x.status == TopicCreateClaimed
      && x.topicClaim == TopicClaim(Some(id), TopicStatus.Claimed)
  {
  }

  /** A claimed topic can be finalized exactly once, with a new topic and a transaction id; all messages then expect it. */
  lemma FinalizeExactly(r: Record, s: Step)
    requires Inv(r) && s.FinalizeTopic?
    ensures Apply(r, s).Some? <==>
      (r.topicClaim.status.Claimed? && s.topicId != HISTORICAL_TOPIC && s.topicId != [] && Truthy(s.transactionId))
    ensures Apply(r, s).Some? ==>
      var x := Apply(r, s).value;
      && x.topicId == Some(s.topicId) && x.topicTransactionId == s.transactionId && x.topicMemo == Some(s.memo)
      && x.topicCreatedAt == Some(s.createdAt) && x.status == TopicCreated
      && x.topicClaim == TopicClaim(r.topicClaim.claimId, TopicStatus.Created)
      && x.version == r.version && x.attemptId == r.attemptId && x.mode == r.mode && x.payment == r.payment
      && |x.outbox| == 5
      && (forall i :: 0 <= i < 5 ==>
            && x.outbox[i].expectedTopic == Some(s.topicId)
            && x.outbox[i].(expectedTopic := None) == r.outbox[i].(expectedTopic := None))
  {
  }

  /** Marking the topic ambiguous is always possible and changes nothing but the claim's status and the failure. */
  lemma MarkTopicExactly(r: Record, reason: Text)
    ensures Apply(r, MarkTopicAmbiguous(reason)).Some?
    ensures var x := Apply(r, MarkTopicAmbiguous(reason)).value;
            && x.status == TopicCreateAmbiguous && x.topicClaim == TopicClaim(r.topicClaim.claimId, TopicStatus.Ambiguous)
            && x.failureCode == Some(Lit("TOPIC_CREATE_AMBIGUOUS")) && x.failureReason == Some(reason)
            && x.(status := r.status, topicClaim := r.topicClaim, failureCode := r.failureCode,
                  failureReason := r.failureReason) == r
  {
  }

  // --- the payment ---------------------------------------------------------------------------------------------

  /** Nothing of a payment has happened: the challenge is issued and that is all. */
  const UNTOUCHED: ReservationView := ReservationView(true, false, false, false, false, false, false, false, false)

  /**
   The recovery clears a claim exactly when the claim has no transaction id, the reservation has issued its
   challenge and done nothing since, and ROUTE_RESERVED is untouched; then the payment can be claimed once more.
   */
  lemma ClearExactly(r: Record, v: ReservationView)
    requires Inv(r)
    ensures Apply(r, ClearPayment(v)).Some? <==>
      (r.payment.status.Claimed? && v == UNTOUCHED && r.outbox[4].status.Pending?)
    ensures Apply(r, ClearPayment(v)).Some? ==>
      var x := Apply(r, ClearPayment(v)).value;
      && x.(status := r.status, payment := r.payment, failureCode := r.failureCode, failureReason := r.failureReason) == r
      && x.status == PaymentReady && x.payment == PaymentClaim(None, PaymentStatus.Unclaimed, None)
      && x.failureCode.None? && x.failureReason.None?
      && forall id :: Apply(x, ClaimPayment(id)).Some?
  {
    IndexIsPosition(r.outbox, RouteReserved);
    var k: nat :| PrefixAt(r.outbox, k);
    assert r.outbox[4].status.Confirmed? || r.outbox[4].status.Pending? || InFlight(r.outbox[4]);
    assert MessageSound(r.outbox[4]);
  }

  lemma PaymentExactly(r: Record, id: Text, tx: Option<Text>, confirmed: bool)
    requires Inv(r)
    ensures Apply(r, ClaimPayment(id)).Some? <==> r.payment.status.Unclaimed?
    ensures Apply(r, ClaimPayment(id)).Some? ==>
      Apply(r, ClaimPayment(id)).value.payment == PaymentClaim(Some(id), PaymentStatus.Claimed, None)
    ensures Apply(r, RecordPayment(tx, confirmed)).Some? <==> Truthy(tx)
    ensures Apply(r, RecordPayment(tx, confirmed)).Some? ==>
      Apply(r, RecordPayment(tx, confirmed)).value.payment
        == PaymentClaim(r.payment.claimId, if confirmed then PaymentStatus.Confirmed else PaymentStatus.Submitted, tx)
  {
  }

  // --- a history in which everything is published -----------------------------------------------------------------

  lemma ChainExtends(h: seq<Record>, steps: seq<Step>, s: Step)
    requires Chain(h, steps) && Apply(h[|h| - 1], s).Some?
    ensures Chain(h + [Stored(h[|h| - 1], s)], steps + [s])
  {
    var g, all := h + [Stored(h[|h| - 1], s)], steps + [s];
    forall k | 0 <= k < |all| ensures StepsThrough(g, all, k) {
      if k < |steps| { assert StepsThrough(h, steps, k); }
    }
  }

  /** The record that the store keeps of a step. */
  function Stored(r: Record, s: Step): Record
    requires Apply(r, s).Some?
  {
    Apply(r, s).value.(version := r.version + 1)
  }

  /** What all messages of a run have in common: the topic, and what the network answers. */
  datatype Run = Run(topic: Text, envelope: Json, envelopeHash: Text, transactionId: Text, consensusTimestamp: Text)

  predicate Usable(run: Run) {
    run.topic != HISTORICAL_TOPIC && NonBlank(Some(run.transactionId)) && NonBlank(Some(run.consensusTimestamp))
  }

  function ClaimOf(run: Run, k: int): Step { ClaimMessage(LabelAt(k), run.topic, run.envelope, run.envelopeHash, 1, []) }

  /** The ordinary confirmation, from the response to the submission. */
  function ConfirmOf(run: Run, k: int): Step {
    ConfirmMessage(LabelAt(k), run.topic, k + 1, Some(run.transactionId), run.consensusTimestamp, run.envelopeHash, SubmitResponse)
  }

  /** The first `k` messages are confirmed and the rest are untouched. */
  predicate PublishedUpTo(r: Record, k: nat) {
    |r.outbox| == 5 && k <= 5 && PrefixAt(r.outbox, k) && forall i :: k <= i < 5 ==> r.outbox[i].status.Pending?
  }

  lemma LabelPosition(k: nat)
    requires k < 5
    ensures Position(LabelAt(k)) == k
  {
  }

  lemma ClaimOne(r: Record, run: Run, k: nat)
    requires Inv(r) && PublishedUpTo(r, k) && k < 5 && Usable(run)
    ensures Apply(r, ClaimOf(run, k)).Some?
    ensures var x := Stored(r, ClaimOf(run, k));
            && Inv(x) && OnlyMessage(r, Apply(r, ClaimOf(run, k)).value, k) && x.outbox == Apply(r, ClaimOf(run, k)).value.outbox
            && x.outbox[k].status.Claimed? && x.outbox[k].expectedTopic == Some(run.topic)
            && x.outbox[k].envelopeHash == Some(run.envelopeHash)
  {
    LabelPosition(k);
    ClaimExactly(r, ClaimOf(run, k));
    ClaimStores(r, ClaimOf(run, k));
    StepKeepsInv(r, ClaimOf(run, k));
  }

  lemma ConfirmOne(x: Record, run: Run, k: nat)
    requires Inv(x) && k < 5 && Usable(run) && x.outbox[k].status.Claimed?
    requires x.outbox[k].expectedTopic == Some(run.topic) && x.outbox[k].envelopeHash == Some(run.envelopeHash)
    ensures Apply(x, ConfirmOf(run, k)).Some?
    ensures var y := Stored(x, ConfirmOf(run, k));
            && Inv(y) && y.outbox[k].status.Confirmed?
            && forall i :: 0 <= i < 5 && i != k ==> y.outbox[i] == x.outbox[i]
  {
    LabelPosition(k);
    ConfirmExactly(x, ConfirmOf(run, k));
    ConfirmStores(x, ConfirmOf(run, k));
    StepKeepsInv(x, ConfirmOf(run, k));
  }

  /** One message: its claim is accepted, and then its confirmation. */
  lemma OneMessage(r: Record, run: Run, k: nat)
    requires Inv(r) && PublishedUpTo(r, k) && k < 5 && Usable(run)
    ensures Apply(r, ClaimOf(run, k)).Some?
    ensures Apply(Stored(r, ClaimOf(run, k)), ConfirmOf(run, k)).Some?
    ensures PublishedUpTo(Stored(Stored(r, ClaimOf(run, k)), ConfirmOf(run, k)), k + 1)
  {
    ClaimOne(r, run, k);
    ConfirmOne(Stored(r, ClaimOf(run, k)), run, k);
  }

  /** A history of `2 k` steps that publishes the first `k` messages exists. */
  ghost predicate Publishable(attemptId: Text, mode: Mode, k: nat) {
    exists h, steps :: Publishes(h, steps, attemptId, mode, k)
  }

  ghost predicate Publishes(h: seq<Record>, steps: seq<Step>, attemptId: Text, mode: Mode, k: nat) {
    Chain(h, steps) && |steps| == 2 * k && h[0] == FreshAttempt(attemptId, mode) && PublishedUpTo(h[2 * k], k)
  }

  /** An attempt can get all the way: all five messages claimed and confirmed, one after the other. */
  lemma {:induction false} AllMessagesPublish(attemptId: Text, mode: Mode, run: Run, k: nat)
    requires Usable(run) && k <= 5
    ensures Publishable(attemptId, mode, k)
  {
    if k == 0 {
      var r := FreshAttempt(attemptId, mode);
      assert Publishes([r], [], attemptId, mode, 0);
    } else {
      AllMessagesPublish(attemptId, mode, run, k - 1);
      var h, steps :| Publishes(h, steps, attemptId, mode, k - 1);
      PublishOneMore(h, steps, attemptId, mode, run, k - 1);
    }
  }

  lemma PublishOneMore(h: seq<Record>, steps: seq<Step>, attemptId: Text, mode: Mode, run: Run, k: nat)
    requires Usable(run) && k < 5 && Publishes(h, steps, attemptId, mode, k)
    ensures Publishable(attemptId, mode, k + 1)
  {
    var r := h[2 * k];
    ChainInv(h, steps, 2 * k);
    OneMessage(r, run, k);
    var claimed := Stored(r, ClaimOf(run, k));
    ChainExtends(h, steps, ClaimOf(run, k));
    ChainExtends(h + [claimed], steps + [ClaimOf(run, k)], ConfirmOf(run, k));
    var g, all := h + [claimed] + [Stored(claimed, ConfirmOf(run, k))], steps + [ClaimOf(run, k)] + [ConfirmOf(run, k)];
    assert Publishes(g, all, attemptId, mode, k + 1);
  }
}
