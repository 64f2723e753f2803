/** Recovery of the ROUTE_RESERVED publication from one mirror snapshot of the topic. */
module HcsResolver {
  import opened Wrappers
  import opened Utf16
  import opened UtcTime
  import opened Sorting
  import CanonicalJson
  import Record = AttemptRecord

  datatype MessageType = AuctionOpen | BidCommitment | AuctionCloseBarrier | RouteReserved | Unexpected

  datatype Envelope = Envelope(messageType: MessageType, tenderId: Text, runId: Text, payload: CanonicalJson.Json)

  datatype Observed = Observed(
    topicId: Text, sequence: int, consensusTimestamp: Text, envelope: Envelope, envelopeHash: Text,
    transactionId: Option<Text>)

  datatype Binding = Binding(topicId: Text, auctionRunId: Text, routeReservedRunId: Text, tenderId: Text)

  datatype Publication = Publication(
    topicId: Text, sequence: int, transactionId: Option<Text>, consensusTimestamp: Text, envelopeHash: Text)

  datatype Resolution = Ambiguous | Found(publication: Publication)

  const LAST: int := 5

  function ExpectedType(sequence: int): MessageType {
    if sequence == 1 then AuctionOpen
    else if sequence == 2 || sequence == 3 then BidCommitment
    else if sequence == 4 then AuctionCloseBarrier
    else RouteReserved
  }

  /** On the topic, at a position of the window, with the hash of its own envelope and a valid time. */
  predicate WellPlaced(hash: Envelope -> Text, b: Binding, m: Observed) {
    && m.topicId == b.topicId && 1 <= m.sequence <= LAST
    && hash(m.envelope) == m.envelopeHash && IsUtc(m.consensusTimestamp)
  }

  /** What the message at its position should say. */
  predicate AsExpected(b: Binding, m: Observed) {
    && m.envelope.messageType == ExpectedType(m.sequence) && m.envelope.tenderId == b.tenderId
    && m.envelope.runId == (if m.sequence == LAST then b.routeReservedRunId else b.auctionRunId)
  }

  function SequenceOf(m: Observed): int { m.sequence }

  /** Five messages, one at each position, each the expected one. */
  ghost predicate Pristine(hash: Envelope -> Text, b: Binding, messages: seq<Observed>) {
    && |messages| == LAST && DistinctBy(messages, SequenceOf)
    && forall m :: m in messages ==> WellPlaced(hash, b, m) && AsExpected(b, m)
  }

  /** The window is pristine and `m`, at its end, alone has the wanted hash. */
  ghost predicate Resolves(
    hash: Envelope -> Text, b: Binding, topicId: Text, wanted: Text, messages: seq<Observed>, m: Observed)
  {
    && topicId == b.topicId && Pristine(hash, b, messages)
    && m in messages && m.sequence == LAST && m.envelopeHash == wanted
    && forall x :: x in messages && x != m ==> x.envelopeHash != wanted
  }

  function PublicationOf(m: Observed): Publication {
    Publication(m.topicId, m.sequence,
                if Record.NonBlank(m.transactionId) then Some(Trim(m.transactionId.value)) else None,
                m.consensusTimestamp, m.envelopeHash)
  }

  /** What the resolver should answer. */
  ghost function Answer(hash: Envelope -> Text, b: Binding, topicId: Text, wanted: Text, messages: seq<Observed>): Resolution {
    if exists m :: Resolves(hash, b, topicId, wanted, messages, m) then
      var m :| Resolves(hash, b, topicId, wanted, messages, m);
      Found(PublicationOf(m))
    else Ambiguous
  }

  lemma SameSequence(messages: seq<Observed>, x: Observed, y: Observed)
    requires DistinctBy(messages, SequenceOf) && x in messages && y in messages && x.sequence == y.sequence
    ensures x == y
  {
    var i :| 0 <= i < |messages| && messages[i] == x;
    var j :| 0 <= j < |messages| && messages[j] == y;
    assert SequenceOf(messages[i]) == SequenceOf(messages[j]);
  }

  lemma AnswerIsFound(
    hash: Envelope -> Text, b: Binding, topicId: Text, wanted: Text, messages: seq<Observed>, m: Observed)
    requires Resolves(hash, b, topicId, wanted, messages, m)
    ensures Answer(hash, b, topicId, wanted, messages) == Found(PublicationOf(m))
  {
    forall x | Resolves(hash, b, topicId, wanted, messages, x) ensures x == m {
      SameSequence(messages, x, m);
    }
  }

  lemma ResolvesPermutes(
    hash: Envelope -> Text, b: Binding, topicId: Text, wanted: Text, messages: seq<Observed>, messages': seq<Observed>,
    m: Observed)
    requires multiset(messages) == multiset(messages') && Resolves(hash, b, topicId, wanted, messages, m)
    ensures Resolves(hash, b, topicId, wanted, messages', m)
  {
    SameMembers(messages, messages');
    assert |messages| == |multiset(messages)| == |messages'|;
    DistinctPermutes(messages, messages', SequenceOf);
  }

  /** A snapshot in another order gets the same answer. */
  lemma AnswerForgetsOrder(
    hash: Envelope -> Text, b: Binding, topicId: Text, wanted: Text, messages: seq<Observed>, messages': seq<Observed>)
    requires multiset(messages) == multiset(messages')
    ensures Answer(hash, b, topicId, wanted, messages) == Answer(hash, b, topicId, wanted, messages')
  {
    if m :| Resolves(hash, b, topicId, wanted, messages, m) {
      ResolvesPermutes(hash, b, topicId, wanted, messages, messages', m);
      AnswerIsFound(hash, b, topicId, wanted, messages, m);
      AnswerIsFound(hash, b, topicId, wanted, messages', m);
    } else if m :| Resolves(hash, b, topicId, wanted, messages', m) {
      ResolvesPermutes(hash, b, topicId, wanted, messages', messages, m);
    }
  }

  /** A pristine window has a message at every position. */
  lemma PristineCoversWindow(hash: Envelope -> Text, b: Binding, messages: seq<Observed>, sequence: int)
    requires Pristine(hash, b, messages) && 1 <= sequence <= LAST
    ensures exists m :: m in messages && m.sequence == sequence
  {
    PositionsSize(messages);
    PositionsInWindow(hash, b, messages);
    FiveOfFive(Positions(messages), sequence);
  }

  lemma PositionsInWindow(hash: Envelope -> Text, b: Binding, messages: seq<Observed>)
    requires Pristine(hash, b, messages)
    ensures forall n :: n in Positions(messages) ==> 1 <= n <= 5
  {
  }

  lemma FiveOfFive(seen: set<int>, n: int)
    requires |seen| == 5 && (forall i :: i in seen ==> 1 <= i <= 5) && 1 <= n <= 5
    ensures n in seen
  {
    var window := {1, 2, 3, 4, 5};
    forall i | i in seen ensures i in window { assert i == 1 || i == 2 || i == 3 || i == 4 || i == 5; }
    CanonicalJson.SubsetOfSameSize(seen, window);
    assert n in window;
  }

  function Positions(messages: seq<Observed>): set<int> { set m | m in messages :: m.sequence }

  lemma {:induction false} PositionsSize(messages: seq<Observed>)
    requires DistinctBy(messages, SequenceOf)
    ensures |Positions(messages)| == |messages|
  {
    if messages != [] {
      var init, last := messages[..|messages| - 1], messages[|messages| - 1];
      PositionsSize(init);
      assert messages == init + [last];
      assert Positions(messages) == Positions(init) + {last.sequence};
      forall m | m in init ensures m.sequence != last.sequence { SameSequenceIndex(messages, m); }
      assert last.sequence !in Positions(init);
    }
  }

  lemma SameSequenceIndex(messages: seq<Observed>, m: Observed)
    requires DistinctBy(messages, SequenceOf) && messages != [] && m in messages[..|messages| - 1]
    ensures m.sequence != messages[|messages| - 1].sequence
  {
    var i :| 0 <= i < |messages| - 1 && messages[i] == m;
    assert SequenceOf(messages[i]) != SequenceOf(messages[|messages| - 1]);
  }

  // --- the resolver as it runs -----------------------------------------------------------------------------

  function Matching(messages: seq<Observed>, wanted: Text): seq<Observed> {
    if messages == [] then []
    else
      var init, last := messages[..|messages| - 1], messages[|messages| - 1];
      Matching(init, wanted) + (if last.envelopeHash == wanted then [last] else [])
  }

  lemma {:induction false} MatchingMembers(messages: seq<Observed>, wanted: Text)
    ensures forall m :: m in Matching(messages, wanted) <==> m in messages && m.envelopeHash == wanted
  {
    if messages != [] {
      var init, last := messages[..|messages| - 1], messages[|messages| - 1];
      MatchingMembers(init, wanted);
      assert messages == init + [last];
    }
  }

  lemma {:induction false} MatchingDistinct(messages: seq<Observed>, wanted: Text)
    requires DistinctBy(messages, SequenceOf)
    ensures DistinctBy(Matching(messages, wanted), SequenceOf)
  {
    if messages != [] {
      var init, last := messages[..|messages| - 1], messages[|messages| - 1];
      MatchingDistinct(init, wanted);
      MatchingMembers(init, wanted);
      var before := Matching(init, wanted);
      forall i | 0 <= i < |before| ensures SequenceOf(before[i]) != SequenceOf(last) {
        assert before[i] in before;
        SameSequenceIndex(messages, before[i]);
      }
      DistinctAppend(before, last, SequenceOf);
    }
  }

  lemma EqualIsNotDistinct(messages: seq<Observed>)
    requires forall i, j :: 0 <= i < j < |messages| ==> messages[i] == messages[j]
    ensures |messages| >= 2 ==> !DistinctBy(messages, SequenceOf)
  {
    if |messages| >= 2 { assert SequenceOf(messages[0]) == SequenceOf(messages[1]); }
  }

  /** One match that is the last message, exactly when the last message alone has the hash. */
  lemma SingleMatch(messages: seq<Observed>, wanted: Text, last: Observed)
    requires DistinctBy(messages, SequenceOf) && last in messages
    ensures Matching(messages, wanted) == [last] <==>
      (last.envelopeHash == wanted && forall x :: x in messages && x != last ==> x.envelopeHash != wanted)
  {
    var matches := Matching(messages, wanted);
    MatchingMembers(messages, wanted);
    MatchingDistinct(messages, wanted);
    if last.envelopeHash == wanted && forall x :: x in messages && x != last ==> x.envelopeHash != wanted {
      assert last in matches;
      forall i | 0 <= i < |matches| ensures matches[i] == last { assert matches[i] in matches; }
      EqualIsNotDistinct(matches);
      assert matches == [last];
    }
    if matches == [last] { assert last in matches; }
  }

  /** The table by sequence number after `i` messages. */
  ghost predicate Indexed(hash: Envelope -> Text, b: Binding, messages: seq<Observed>, table: map<int, Observed>) {
    && DistinctBy(messages, SequenceOf)
    && (forall m :: m in messages ==> WellPlaced(hash, b, m) && m.sequence in table && table[m.sequence] == m)
    && (forall n :: n in table ==> table[n] in messages && table[n].sequence == n)
  }

  lemma IndexedOneMore(hash: Envelope -> Text, b: Binding, messages: seq<Observed>, table: map<int, Observed>, m: Observed)
    requires Indexed(hash, b, messages, table) && WellPlaced(hash, b, m) && m.sequence !in table
    ensures Indexed(hash, b, messages + [m], table[m.sequence := m])
  {
    NewPosition(hash, b, messages, table, m);
    forall x | x in messages + [m] ensures x in messages || x == m {}
  }

  lemma NewPosition(hash: Envelope -> Text, b: Binding, messages: seq<Observed>, table: map<int, Observed>, m: Observed)
    requires Indexed(hash, b, messages, table) && m.sequence !in table
    ensures DistinctBy(messages + [m], SequenceOf)
  {
    forall k | 0 <= k < |messages| ensures SequenceOf(messages[k]) != SequenceOf(m) { assert messages[k] in messages; }
    DistinctAppend(messages, m, SequenceOf);
  }

  /** The first loop: every message is well placed, no two at one position. */
  method IndexBySequence(hash: Envelope -> Text, b: Binding, messages: seq<Observed>) returns (r: Option<map<int, Observed>>)
    ensures r.Some? ==> Indexed(hash, b, messages, r.value)
    ensures r.None? ==> !Pristine(hash, b, messages)
  {
    var table: map<int, Observed> := map[];
    for i := 0 to |messages|
      invariant Indexed(hash, b, messages[..i], table)
    {
      var m := messages[i];
      assert messages[..i + 1] == messages[..i] + [m];
      if m.topicId != b.topicId || m.sequence < 1 || m.sequence > LAST || m.sequence in table
         || hash(m.envelope) != m.envelopeHash || !IsUtc(m.consensusTimestamp)
      {
        NotPristine(hash, b, messages, i, table);
        return None;
      }
      IndexedOneMore(hash, b, messages[..i], table, m);
      table := table[m.sequence := m];
    }
    assert messages[..|messages|] == messages;
    return Some(table);
  }

  lemma NotPristine(hash: Envelope -> Text, b: Binding, messages: seq<Observed>, i: nat, table: map<int, Observed>)
    requires i < |messages| && Indexed(hash, b, messages[..i], table)
    requires !WellPlaced(hash, b, messages[i]) || messages[i].sequence in table
    ensures !Pristine(hash, b, messages)
  {
    assert messages[i] in messages;
    if messages[i].sequence in table {
      var earlier := table[messages[i].sequence];
      var k :| 0 <= k < i && messages[..i][k] == earlier;
      assert SequenceOf(messages[k]) == SequenceOf(messages[i]);
    }
  }

  /** The second loop: the message of each position is the expected one. */
  method CheckPositions(b: Binding, table: map<int, Observed>) returns (ok: bool)
    requires forall n :: n in table ==> table[n].sequence == n
    ensures ok <==> forall n :: 1 <= n <= LAST ==> n in table && AsExpected(b, table[n])
  {
    for sequence := 1 to LAST + 1
      invariant forall n :: 1 <= n < sequence ==> n in table && AsExpected(b, table[n])
    {
      if sequence !in table || table[sequence].envelope.messageType != ExpectedType(sequence)
         || table[sequence].envelope.tenderId != b.tenderId
         || table[sequence].envelope.runId != (if sequence == LAST then b.routeReservedRunId else b.auctionRunId)
      {
        return false;
      }
    }
    return true;
  }

  lemma PositionsDecide(hash: Envelope -> Text, b: Binding, messages: seq<Observed>, table: map<int, Observed>)
    requires |messages| == LAST && Indexed(hash, b, messages, table)
    ensures Pristine(hash, b, messages) <==> forall n :: 1 <= n <= LAST ==> n in table && AsExpected(b, table[n])
  {
    if forall n :: 1 <= n <= LAST ==> n in table && AsExpected(b, table[n]) {
      AllPositionsPass(hash, b, messages, table);
    } else {
      var n :| 1 <= n <= LAST && !(n in table && AsExpected(b, table[n]));
      PositionFails(hash, b, messages, table, n);
    }
  }

  lemma AllPositionsPass(hash: Envelope -> Text, b: Binding, messages: seq<Observed>, table: map<int, Observed>)
    requires |messages| == LAST && Indexed(hash, b, messages, table)
    requires forall n :: 1 <= n <= LAST ==> n in table && AsExpected(b, table[n])
    ensures Pristine(hash, b, messages) && LAST in table
  {
    forall m | m in messages ensures WellPlaced(hash, b, m) && AsExpected(b, m) {
      assert table[m.sequence] == m;
    }
  }

  lemma PositionFails(hash: Envelope -> Text, b: Binding, messages: seq<Observed>, table: map<int, Observed>, n: int)
    requires Indexed(hash, b, messages, table) && 1 <= n <= LAST
    requires n !in table || !AsExpected(b, table[n])
    ensures !Pristine(hash, b, messages)
  {
    if Pristine(hash, b, messages) { PristineCoversWindow(hash, b, messages, n); }
  }

  /** The last message of a pristine window; None when the window is anything else. */
  method PristineEnd(hash: Envelope -> Text, b: Binding, messages: seq<Observed>) returns (last: Option<Observed>)
    ensures last.Some? <==> Pristine(hash, b, messages)
    ensures last.Some? ==> last.value in messages && last.value.sequence == LAST
  {
    if |messages| != LAST { return None; }
    var table := IndexBySequence(hash, b, messages);
    if table.None? { return None; }
    var pristine := CheckPositions(b, table.value);
    PositionsDecide(hash, b, messages, table.value);
    if !pristine { return None; }
    return Some(table.value[LAST]);
  }

  /** `resolveRouteReservedFromMirror`. */
  method ResolveRouteReserved(hash: Envelope -> Text, b: Binding, topicId: Text, wanted: Text, messages: seq<Observed>)
    returns (r: Resolution)
    ensures r == Answer(hash, b, topicId, wanted, messages)
  {
    if topicId != b.topicId { return Ambiguous; }
    var last := PristineEnd(hash, b, messages);
    if last.None? { return Ambiguous; }
    var matches := Matching(messages, wanted);
    MatchDecides(hash, b, topicId, wanted, messages, last.value);
    if |matches| != 1 { return Ambiguous; }
    if matches[0] != last.value { return Ambiguous; }
    return Found(PublicationOf(last.value));
  }

  lemma MatchDecides(hash: Envelope -> Text, b: Binding, topicId: Text, wanted: Text, messages: seq<Observed>, last: Observed)
    requires topicId == b.topicId && Pristine(hash, b, messages) && last in messages && last.sequence == LAST
    ensures Answer(hash, b, topicId, wanted, messages)
         == if Matching(messages, wanted) == [last] then Found(PublicationOf(last)) else Ambiguous
    ensures (exists m :: Resolves(hash, b, topicId, wanted, messages, m)) <==> Matching(messages, wanted) == [last]
  {
    SingleMatch(messages, wanted, last);
    if m :| Resolves(hash, b, topicId, wanted, messages, m) { SameSequence(messages, m, last); }
    if Matching(messages, wanted) == [last] { AnswerIsFound(hash, b, topicId, wanted, messages, last); }
  }

  // --- the window of an attempt is found -----------------------------------------------------------------------

  /** The message type that each label of an outbox is published under. */
  function TypeOf(m: Record.MessageLabel): MessageType {
    match m
    case AuctionOpen => AuctionOpen
    case BidCommitmentAlpha => BidCommitment
    case BidCommitmentBeta => BidCommitment
    case AuctionCloseBarrier => AuctionCloseBarrier
    case RouteReserved => RouteReserved
  }

  /** The five messages of an attempt as the mirror shows them, in their positions. */
  ghost predicate Published(hash: Envelope -> Text, b: Binding, w: seq<Observed>) {
    && |w| == 5
    && forall i :: 0 <= i < 5 ==>
         && w[i].topicId == b.topicId && w[i].sequence == i + 1 && IsUtc(w[i].consensusTimestamp)
         && w[i].envelopeHash == hash(w[i].envelope)
         && w[i].envelope.messageType == TypeOf(Record.LabelAt(i)) && w[i].envelope.tenderId == b.tenderId
         && w[i].envelope.runId == if i < 4 then b.auctionRunId else b.routeReservedRunId
  }

  lemma PublishedIsPristine(hash: Envelope -> Text, b: Binding, w: seq<Observed>)
    requires Published(hash, b, w)
    ensures Pristine(hash, b, w)
  {
    forall m | m in w ensures WellPlaced(hash, b, m) && AsExpected(b, m) {
      var i :| 0 <= i < |w| && w[i] == m;
      PublishedAt(hash, b, w, i);
    }
    assert DistinctBy(w, SequenceOf);
  }

  lemma PublishedAt(hash: Envelope -> Text, b: Binding, w: seq<Observed>, i: nat)
    requires Published(hash, b, w) && i < 5
    ensures WellPlaced(hash, b, w[i]) && AsExpected(b, w[i])
  {
    assert ExpectedType(i + 1) == TypeOf(Record.LabelAt(i));
  }

  /** The window of the five labels, in any order, is FOUND when its last hash is the wanted one and no other is. */
  lemma PublishedIsFound(hash: Envelope -> Text, b: Binding, w: seq<Observed>, snapshot: seq<Observed>)
    requires Published(hash, b, w) && multiset(snapshot) == multiset(w)
    requires forall i :: 0 <= i < 4 ==> w[i].envelopeHash != w[4].envelopeHash
    ensures Answer(hash, b, b.topicId, w[4].envelopeHash, snapshot)
         == Found(Publication(b.topicId, 5,
                    if Record.NonBlank(w[4].transactionId) then Some(Trim(w[4].transactionId.value)) else None,
                    w[4].consensusTimestamp, w[4].envelopeHash))
  {
    PublishedIsPristine(hash, b, w);
    assert w[4] in w;
    forall x | x in w && x != w[4] ensures x.envelopeHash != w[4].envelopeHash {
      var i :| 0 <= i < |w| && w[i] == x;
    }
    AnswerIsFound(hash, b, b.topicId, w[4].envelopeHash, w, w[4]);
    AnswerForgetsOrder(hash, b, b.topicId, w[4].envelopeHash, w, snapshot);
  }

  // --- an answer is enough to confirm the message ------------------------------------------------------------

  lemma TimestampIsNotBlank(t: Text)
    requires IsUtc(t)
    ensures Record.NonBlank(Some(t))
  {
    AcceptedExactly(t);
    assert IsDigit(t[0..4][0]);
    assert t[|t| - 1] == LETTER_Z;
  }

  /**
   Whatever the resolver finds for the claimed hash of an unconfirmed ROUTE_RESERVED message
   confirms that message, with or without a transaction id, and without another submission.
   */
  lemma FoundConfirms(
    hash: Envelope -> Text, b: Binding, wanted: Text, messages: seq<Observed>, r: Record.Record)
    requires Record.Inv(r) && Record.InFlight(r.outbox[4]) && r.outbox[4].envelopeHash == Some(wanted)
    requires !Record.Truthy(r.outbox[4].expectedTopic) || r.outbox[4].expectedTopic == Some(b.topicId)
    requires b.topicId != Record.HISTORICAL_TOPIC
    requires Answer(hash, b, b.topicId, wanted, messages).Found?
    ensures var p := Answer(hash, b, b.topicId, wanted, messages).publication;
            var step := Record.ConfirmMessage(
              Record.RouteReserved, p.topicId, p.sequence, p.transactionId, p.consensusTimestamp, p.envelopeHash,
              Record.MirrorResolver);
            && Record.Apply(r, step).Some?
            && var m := Record.Apply(r, step).value.outbox[4];
               && m.status.Confirmed? && m.sequence == Some(LAST) && m.transactionId == p.transactionId
               && m.consensusTimestamp == Some(p.consensusTimestamp) && m.expectedTopic == Some(b.topicId)
  {
    var m :| Resolves(hash, b, b.topicId, wanted, messages, m);
    AnswerIsFound(hash, b, b.topicId, wanted, messages, m);
    TimestampIsNotBlank(m.consensusTimestamp);
    if Record.NonBlank(m.transactionId) { TrimIdempotent(m.transactionId.value); }
    Record.IndexIsPosition(r.outbox, Record.RouteReserved);
  }
}
