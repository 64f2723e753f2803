/** Structural reconciliation of the evidence, before any bid is judged. */
module Reconciliation {
  import opened Wrappers
  import opened Utf16
  import opened UtcTime
  import opened CanonicalJson
  import opened Sorting
  import opened AuctionTypes

  /** An entry of the private-bid or receipt map: `objectId` is the identity of the stored object. */
  datatype Entry = Entry(bidId: Text, objectId: nat, evidence: Json)

  datatype EntryKind = BidEntries | ReceiptEntries
  {
    /** The property of the evidence that holds the signed body. */
    function Part(): string { if BidEntries? then "bid" else "receipt" }

    function DuplicateCode(): ReconciliationErrorCode {
      if BidEntries? then DuplicateFullBid else DuplicateAcceptanceReceipt
    }
  }

  datatype ReconciledSet = ReconciledSet(
    commitments: seq<Commitment>, fullBids: map<Text, Json>, receipts: map<Text, Json>)

  // --- the identity key -----------------------------------------------------------------------

  const BAR: CodeUnit := 124

  function KeyPrefix(c: Commitment): Text {
    c.tenderId + [BAR] + c.bidId + [BAR] + c.carrierId + [BAR] + c.bidHash + [BAR]
    + c.acceptanceReceiptHash + [BAR] + PrintNumber(c.bidVersion)
  }

  /** The fields of a commitment joined by bars. */
  function IdentityKey(c: Commitment): Text {
    KeyPrefix(c) + [BAR] + PrintNumber(c.hcsSequence) + [BAR] + c.consensusTimestamp
  }

  /** Splitting at the last bar is unambiguous, whatever the part before it contains. */
  lemma LastFieldUnique(a: Text, x: Text, b: Text, y: Text)
    requires BAR !in x && BAR !in y
    requires a + [BAR] + x == b + [BAR] + y
    ensures a == b && x == y
  {
    var s, t := a + [BAR] + x, b + [BAR] + y;
    assert s[|a|] == BAR && t[|b|] == BAR;
    assert forall i :: |a| < i < |s| ==> s[i] == x[i - |a| - 1];
    assert forall i :: |b| < i < |t| ==> t[i] == y[i - |b| - 1];
    assert |a| == |b|;
    assert s[..|a|] == a && t[..|b|] == b && s[|a| + 1..] == x && t[|b| + 1..] == y;
  }

  lemma NoBarInDigits(t: Text)
    requires AllDigits(t)
    ensures BAR !in t
  {
  }

  lemma {:induction false} NoBarInTimestamp(t: Timestamp)
    ensures BAR !in t
  {
    AcceptedExactly(t);
    Pieces(t);
    NoBarInDigits(t[0..4]);
    NoBarInDigits(t[5..7]);
    NoBarInDigits(t[8..10]);
    NoBarInDigits(t[11..13]);
    NoBarInDigits(t[14..16]);
    NoBarInDigits(t[17..19]);
    assert BAR !in t[..19];
    if |t| == 20 {
      assert t == t[..19] + [LETTER_Z];
    } else {
      NoBarInDigits(t[20..|t| - 1]);
      assert t == t[..19] + [DOT] + t[20..|t| - 1] + [LETTER_Z];
    }
  }

  /** No accepted timestamp contains a bar. */
  ghost predicate BarFree(o: Oracles) {
    forall t :: o.IsUtc(t) ==> BAR !in t
  }

  /** The clock in use: the instants of src/domain/time.ts. */
  function Clock(t: Text): Option<int> { if IsUtc(t) then Some(EpochNanoseconds(t)) else None }

  lemma ClockBarFree(o: Oracles)
    requires forall t :: o.utc(t) == Clock(t)
    ensures BarFree(o)
  {
    forall t | o.IsUtc(t) ensures BAR !in t {
      assert Clock(t).Some?;
      NoBarInTimestamp(t);
    }
  }

  /** Equal identity keys come from equal sequence numbers, even when ids contain bars. */
  lemma KeyDeterminesSequence(o: Oracles, c: Commitment, d: Commitment)
    requires BarFree(o) && ValidCommitment(o, c) && ValidCommitment(o, d)
    requires IdentityKey(c) == IdentityKey(d)
    ensures c.hcsSequence == d.hcsSequence
  {
    var m, n := PrintNumber(c.hcsSequence), PrintNumber(d.hcsSequence);
    NoBarInDigits(m);
    NoBarInDigits(n);
    assert o.IsUtc(c.consensusTimestamp) && o.IsUtc(d.consensusTimestamp);
    LastFieldUnique(KeyPrefix(c) + [BAR] + m, c.consensusTimestamp, KeyPrefix(d) + [BAR] + n, d.consensusTimestamp);
    LastFieldUnique(KeyPrefix(c), m, KeyPrefix(d), n);
    assert DigitsValue(m) == DigitsValue(n);
  }

  // --- what reconciliation demands and delivers ----------------------------------------------

  function SequenceOf(c: Commitment): int { c.hcsSequence }

  function BidIdOf(c: Commitment): Text { c.bidId }

  /** Order by consensus sequence, then by bid id. */
  predicate CommitmentLeq(a: Commitment, b: Commitment) {
    a.hcsSequence < b.hcsSequence || (a.hcsSequence == b.hcsSequence && !Less(b.bidId, a.bidId))
  }

  ghost predicate AllParse(o: Oracles, raws: seq<RawCommitment>) {
    forall i :: 0 <= i < |raws| ==> ParseCommitment(o, raws[i]).Some?
  }

  function Contents(raws: seq<RawCommitment>): (cs: seq<Commitment>)
    requires forall i :: 0 <= i < |raws| ==> raws[i].Shaped?
    ensures |cs| == |raws| && forall i :: 0 <= i < |raws| ==> cs[i] == raws[i].commitment
  {
    seq(|raws|, i requires 0 <= i < |raws| => raws[i].commitment)
  }

  /** The signed body can be dereferenced, and its bid id is the key of the entry. */
  predicate EntryConsistent(kind: EntryKind, e: Entry) {
    match Field(e.evidence, kind.Part())
    case None => false
    case Some(body) => body != Null && Field(body, "bidId") == Some(Str(e.bidId))
  }

  function EntryKey(e: Entry): Text { e.bidId }

  ghost predicate EntriesSound(kind: EntryKind, entries: seq<Entry>) {
    DistinctBy(entries, EntryKey) && forall i :: 0 <= i < |entries| ==> EntryConsistent(kind, entries[i])
  }

  ghost predicate CommitmentsSound(o: Oracles, raws: seq<RawCommitment>) {
    AllParse(o, raws) && DistinctBy(Contents(raws), SequenceOf) && DistinctBy(Contents(raws), BidIdOf)
  }

  /** Exactly the inputs that reconciliation accepts; the order of the lists plays no part. */
  ghost predicate Reconcilable(o: Oracles, raws: seq<RawCommitment>, bids: seq<Entry>, receipts: seq<Entry>) {
    CommitmentsSound(o, raws) && EntriesSound(BidEntries, bids) && EntriesSound(ReceiptEntries, receipts)
  }

  function EntryMap(entries: seq<Entry>): map<Text, Json> {
    if entries == [] then map[]
    else EntryMap(entries[..|entries| - 1])[entries[|entries| - 1].bidId := entries[|entries| - 1].evidence]
  }

  function Reconciled(raws: seq<RawCommitment>, bids: seq<Entry>, receipts: seq<Entry>): ReconciledSet
    requires forall i :: 0 <= i < |raws| ==> raws[i].Shaped?
  {
    ReconciledSet(Sort(Contents(raws), CommitmentLeq), EntryMap(bids), EntryMap(receipts))
  }

  /** Two references to one object see one content. */
  ghost predicate IdentityMeansContent(entries: seq<Entry>) {
    forall i, j :: 0 <= i < j < |entries| && entries[i].objectId == entries[j].objectId ==>
      entries[i].evidence == entries[j].evidence
  }

  function Sequences(cs: seq<Commitment>): set<int> { set c | c in cs :: c.hcsSequence }

  function BidIds(cs: seq<Commitment>): set<Text> { set c | c in cs :: c.bidId }

  function IdentityKeys(cs: seq<Commitment>): set<Text> { set c | c in cs :: IdentityKey(c) }

  lemma SeenOneMore(cs: seq<Commitment>, c: Commitment)
    ensures Sequences(cs + [c]) == Sequences(cs) + {c.hcsSequence}
    ensures BidIds(cs + [c]) == BidIds(cs) + {c.bidId}
    ensures IdentityKeys(cs + [c]) == IdentityKeys(cs) + {IdentityKey(c)}
  {
    assert forall x :: x in cs + [c] <==> x in cs || x == c;
  }

  /** The first `|parsed|` commitments are sound, and `parsed` holds them. */
  ghost predicate SoundSoFar(o: Oracles, raws: seq<RawCommitment>, parsed: seq<Commitment>) {
    && |parsed| <= |raws|
    && (forall k :: 0 <= k < |parsed| ==> ParseCommitment(o, raws[k]) == Some(parsed[k]))
    && DistinctBy(parsed, SequenceOf) && DistinctBy(parsed, BidIdOf)
  }

  lemma SoundOneMore(o: Oracles, raws: seq<RawCommitment>, parsed: seq<Commitment>, c: Commitment)
    requires SoundSoFar(o, raws, parsed) && |parsed| < |raws| && ParseCommitment(o, raws[|parsed|]) == Some(c)
    requires c.hcsSequence !in Sequences(parsed) && c.bidId !in BidIds(parsed)
    ensures SoundSoFar(o, raws, parsed + [c])
  {
    DistinctAppend(parsed, c, SequenceOf);
    DistinctAppend(parsed, c, BidIdOf);
  }

  method ReconcileCommitments(o: Oracles, raws: seq<RawCommitment>)
    returns (r: Result<seq<Commitment>, ReconciliationErrorCode>)
    requires BarFree(o)
    ensures r.Ok? <==> CommitmentsSound(o, raws)
    ensures r.Ok? ==> r.value == Sort(Contents(raws), CommitmentLeq)
    ensures r.Err? ==> r.error != DuplicateCommitment
  {
    var parsed: seq<Commitment> := [];
    var seenSequences: set<int> := {};
    var seenBidIds: set<Text> := {};
    var seenKeys: set<Text> := {};
    while |parsed| < |raws|
      invariant SoundSoFar(o, raws, parsed)
      invariant seenSequences == Sequences(parsed) && seenBidIds == BidIds(parsed)
      invariant seenKeys == IdentityKeys(parsed)
      decreases |raws| - |parsed|
    {
      var attempt := ParseCommitment(o, raws[|parsed|]);
      if attempt.None? {
        return Err(InvalidClosureProof);
      }
      var commitment := attempt.value;
      if commitment.hcsSequence in seenSequences {
        RepeatIsUnsound(o, raws, parsed, commitment);
        return Err(DuplicateHcsSequence);
      }
      if commitment.bidId in seenBidIds {
        RepeatIsUnsound(o, raws, parsed, commitment);
        return Err(DuplicateBidId);
      }
      KeyIsNew(o, raws, parsed, commitment);
      if IdentityKey(commitment) in seenKeys {
        return Err(DuplicateCommitment);
      }
      SeenOneMore(parsed, commitment);
      SoundOneMore(o, raws, parsed, commitment);
      seenSequences := seenSequences + {commitment.hcsSequence};
      seenBidIds := seenBidIds + {commitment.bidId};
      seenKeys := seenKeys + {IdentityKey(commitment)};
      parsed := parsed + [commitment];
    }
    AllSound(o, raws, parsed);
    r := Ok(Sort(parsed, CommitmentLeq));
  }

  lemma AllSound(o: Oracles, raws: seq<RawCommitment>, parsed: seq<Commitment>)
    requires SoundSoFar(o, raws, parsed) && |parsed| == |raws|
    ensures CommitmentsSound(o, raws) && parsed == Contents(raws)
  {
    assert forall k :: 0 <= k < |raws| ==> ParseCommitment(o, raws[k]).Some? && parsed[k] == raws[k].commitment;
    assert parsed == Contents(raws);
  }

  /** A list in which a later commitment repeats a sequence or a bid id is unsound. */
  lemma RepeatIsUnsound(o: Oracles, raws: seq<RawCommitment>, parsed: seq<Commitment>, c: Commitment)
    requires SoundSoFar(o, raws, parsed) && |parsed| < |raws| && ParseCommitment(o, raws[|parsed|]) == Some(c)
    requires c.hcsSequence in Sequences(parsed) || c.bidId in BidIds(parsed)
    ensures !CommitmentsSound(o, raws)
  {
    if AllParse(o, raws) {
      var d :| d in parsed && (d.hcsSequence == c.hcsSequence || d.bidId == c.bidId);
      var k :| 0 <= k < |parsed| && parsed[k] == d;
      var cs := Contents(raws);
      assert ParseCommitment(o, raws[k]) == Some(d);
      assert cs[k] == d && cs[|parsed|] == c;
      assert SequenceOf(cs[k]) == SequenceOf(cs[|parsed|]) || BidIdOf(cs[k]) == BidIdOf(cs[|parsed|]);
    }
  }

  lemma KeyIsNew(o: Oracles, raws: seq<RawCommitment>, parsed: seq<Commitment>, c: Commitment)
    requires BarFree(o) && ValidCommitment(o, c) && SoundSoFar(o, raws, parsed)
    requires c.hcsSequence !in Sequences(parsed)
    ensures IdentityKey(c) !in IdentityKeys(parsed)
  {
    forall d | d in parsed ensures IdentityKey(d) != IdentityKey(c) {
      var k :| 0 <= k < |parsed| && parsed[k] == d;
      assert ParseCommitment(o, raws[k]) == Some(d);
      if IdentityKey(d) == IdentityKey(c) {
        KeyDeterminesSequence(o, d, c);
      }
    }
  }

  // --- private bids and receipts ----------------------------------------------------------------

  /** What the key check reports: a TypeError when the signed body has no properties to read. */
  function EntryError(kind: EntryKind, e: Entry): Option<ReconciliationErrorCode> {
    match Field(e.evidence, kind.Part())
    case None => Some(UncaughtError)
    case Some(body) =>
      if body == Null then Some(UncaughtError)
      else if Field(body, "bidId") == Some(Str(e.bidId)) then None
      else Some(AmbiguousBidAssignment)
  }

  /** The first failure that duplicate keys and key consistency alone would report. */
  function EntriesError(kind: EntryKind, entries: seq<Entry>): (r: Option<ReconciliationErrorCode>)
    ensures r != Some(DuplicateCommitment)
  {
    if entries == [] then None
    else
      var init, last := entries[..|entries| - 1], entries[|entries| - 1];
      match EntriesError(kind, init)
      case Some(e) => Some(e)
      case None => if last.bidId in EntryMap(init) then Some(kind.DuplicateCode()) else EntryError(kind, last)
  }

  lemma {:induction false} EntryMapKeys(entries: seq<Entry>)
    ensures forall k :: k in EntryMap(entries) <==> exists e :: e in entries && e.bidId == k
  {
    if entries != [] {
      var init, last := entries[..|entries| - 1], entries[|entries| - 1];
      EntryMapKeys(init);
      assert entries == init + [last];
      assert forall e :: e in entries <==> e in init || e == last;
    }
  }

  /** The key of the last entry differs from every earlier one. */
  lemma LastKeyNew(entries: seq<Entry>)
    requires entries != [] && DistinctBy(entries, EntryKey)
    ensures DistinctBy(entries[..|entries| - 1], EntryKey)
    ensures forall e :: e in entries[..|entries| - 1] ==> e.bidId != entries[|entries| - 1].bidId
  {
    var init := entries[..|entries| - 1];
    forall e | e in init ensures e.bidId != entries[|entries| - 1].bidId {
      var i :| 0 <= i < |init| && init[i] == e;
      assert EntryKey(entries[i]) != EntryKey(entries[|entries| - 1]);
    }
  }

  lemma {:induction false} EntryMapContents(entries: seq<Entry>)
    requires DistinctBy(entries, EntryKey)
    ensures forall e :: e in entries ==> e.bidId in EntryMap(entries) && EntryMap(entries)[e.bidId] == e.evidence
  {
    if entries != [] {
      var init, last := entries[..|entries| - 1], entries[|entries| - 1];
      LastKeyNew(entries);
      EntryMapContents(init);
      assert entries == init + [last];
      assert forall e :: e in entries <==> e in init || e == last;
    }
  }

  lemma {:induction false} NoErrorIffSound(kind: EntryKind, entries: seq<Entry>)
    ensures EntriesError(kind, entries).None? <==> EntriesSound(kind, entries)
  {
    if entries != [] {
      var init, last := entries[..|entries| - 1], entries[|entries| - 1];
      NoErrorIffSound(kind, init);
      EntryMapKeys(init);
      assert entries == init + [last];
      if EntriesError(kind, entries).None? {
        forall i | 0 <= i < |init| ensures EntryKey(init[i]) != EntryKey(last) {
          assert init[i] in init;
        }
        DistinctAppend(init, last, EntryKey);
      }
      if EntriesSound(kind, entries) {
        LastKeyNew(entries);
        assert EntriesSound(kind, init);
      }
    }
  }

  lemma {:induction false} ErrorPersists(kind: EntryKind, entries: seq<Entry>, n: nat)
    requires n <= |entries| && EntriesError(kind, entries[..n]).Some?
    ensures EntriesError(kind, entries) == EntriesError(kind, entries[..n])
  {
    if n == |entries| {
      assert entries[..n] == entries;
    } else {
      assert entries[..|entries| - 1][..n] == entries[..n];
      ErrorPersists(kind, entries[..|entries| - 1], n);
    }
  }

  /**
   A second reference to an object that was already entered under another key fails the key
   check, with the very code of the identity check.
   */
  lemma SharedObjectMismatches(kind: EntryKind, entries: seq<Entry>, i: nat, k: nat)
    requires IdentityMeansContent(entries) && k < i < |entries|
    requires entries[k].objectId == entries[i].objectId && entries[k].bidId != entries[i].bidId
    requires EntryConsistent(kind, entries[k])
    ensures EntryError(kind, entries[i]) == Some(AmbiguousBidAssignment)
  {
  }

  lemma EarlierEntry(kind: EntryKind, entries: seq<Entry>, i: nat, k: nat)
    requires k < i <= |entries| && EntriesError(kind, entries[..i]).None?
    ensures EntryConsistent(kind, entries[k]) && entries[k].bidId in EntryMap(entries[..i])
  {
    NoErrorIffSound(kind, entries[..i]);
    EntryMapKeys(entries[..i]);
    assert entries[..i][k] == entries[k];
    assert entries[k] in entries[..i];
  }

  /** What the entry at `i` does to entries that were sound before it. */
  lemma EntryDecides(kind: EntryKind, entries: seq<Entry>, i: nat)
    requires i < |entries| && EntriesError(kind, entries[..i]).None?
    ensures entries[i].bidId in EntryMap(entries[..i]) ==> EntriesError(kind, entries) == Some(kind.DuplicateCode())
    ensures entries[i].bidId !in EntryMap(entries[..i]) && EntryError(kind, entries[i]).Some? ==>
      EntriesError(kind, entries) == EntryError(kind, entries[i])
    ensures entries[i].bidId !in EntryMap(entries[..i]) && EntryError(kind, entries[i]).None? ==>
      EntriesError(kind, entries[..i + 1]).None?
    ensures EntryMap(entries[..i + 1]) == EntryMap(entries[..i])[entries[i].bidId := entries[i].evidence]
  {
    assert entries[..i + 1][..i] == entries[..i];
    if EntriesError(kind, entries[..i + 1]).Some? { ErrorPersists(kind, entries, i + 1); }
  }

  /** A bid object seen before, under another key, makes the entry at `i` fail. */
  lemma SeenObjectFails(kind: EntryKind, entries: seq<Entry>, i: nat, k: nat)
    requires IdentityMeansContent(entries) && k < i < |entries| && EntriesError(kind, entries[..i]).None?
    requires entries[k].objectId == entries[i].objectId && entries[i].bidId !in EntryMap(entries[..i])
    ensures EntryError(kind, entries[i]) == Some(AmbiguousBidAssignment)
  {
    EarlierEntry(kind, entries, i, k);
    SharedObjectMismatches(kind, entries, i, k);
  }

  /** The loops over private bids and receipts: the identity check never changes the outcome. */
  method ReconcileEntries(kind: EntryKind, entries: seq<Entry>)
    returns (r: Result<map<Text, Json>, ReconciliationErrorCode>)
    requires IdentityMeansContent(entries)
    ensures r == match EntriesError(kind, entries) case None => Ok(EntryMap(entries)) case Some(e) => Err(e)
  {
    var byBidId: map<Text, Json> := map[];
    var seenObjects: set<nat> := {};
    for i := 0 to |entries|
      invariant EntriesError(kind, entries[..i]).None? && byBidId == EntryMap(entries[..i])
      invariant forall x :: x in seenObjects ==> exists k :: 0 <= k < i && entries[k].objectId == x
    {
      var e := entries[i];
      EntryDecides(kind, entries, i);
      if e.bidId in byBidId { return Err(kind.DuplicateCode()); }
      if kind.BidEntries? && e.objectId in seenObjects {
        var k :| 0 <= k < i && entries[k].objectId == e.objectId;
        SeenObjectFails(kind, entries, i, k);
        return Err(AmbiguousBidAssignment);
      }
      seenObjects := seenObjects + {e.objectId};
      var error := EntryError(kind, e);
      if error.Some? { return Err(error.value); }
      byBidId := byBidId[e.bidId := e.evidence];
    }
    assert entries[..|entries|] == entries;
    r := Ok(byBidId);
  }

  /** `validateReconciliationInputs`. */
  method ValidateReconciliationInputs(
    o: Oracles, raws: seq<RawCommitment>, bids: seq<Entry>, receipts: seq<Entry>)
    returns (r: Result<ReconciledSet, ReconciliationErrorCode>)
    requires BarFree(o) && IdentityMeansContent(bids) && IdentityMeansContent(receipts)
    ensures r.Ok? <==> Reconcilable(o, raws, bids, receipts)
    ensures r.Ok? ==> r.value == Reconciled(raws, bids, receipts)
    ensures r.Err? ==> r.error != DuplicateCommitment
  {
    var commitments := ReconcileCommitments(o, raws);
    if commitments.Err? { return Err(commitments.error); }
    NoErrorIffSound(BidEntries, bids);
    NoErrorIffSound(ReceiptEntries, receipts);
    var fullBids := ReconcileEntries(BidEntries, bids);
    if fullBids.Err? { return Err(fullBids.error); }
    var acceptances := ReconcileEntries(ReceiptEntries, receipts);
    if acceptances.Err? { return Err(acceptances.error); }
    r := Ok(ReconciledSet(commitments.value, fullBids.value, acceptances.value));
  }

  lemma CommitmentOrder()
    ensures TotalPreorder(CommitmentLeq)
    ensures Antisymmetric(CommitmentLeq, SequenceOf)
  {
    forall a: Commitment, b: Commitment ensures CommitmentLeq(a, b) || CommitmentLeq(b, a) {
      LessTrichotomy(a.bidId, b.bidId);
    }
    forall a: Commitment, b: Commitment, c: Commitment | CommitmentLeq(a, b) && CommitmentLeq(b, c)
      ensures CommitmentLeq(a, c)
    {
      if a.hcsSequence == b.hcsSequence == c.hcsSequence {
        NotLessTransitive(a.bidId, b.bidId, c.bidId);
      }
    }
  }

  /**
   What reconciled commitments are: the input in some order, valid, strictly increasing in
   sequence, with unique bid ids; and maps whose entries are the given ones.
   */
  lemma ReconciledFacts(o: Oracles, raws: seq<RawCommitment>, bids: seq<Entry>, receipts: seq<Entry>)
    requires Reconcilable(o, raws, bids, receipts)
    ensures var cs := Reconciled(raws, bids, receipts).commitments;
            && multiset(cs) == multiset(Contents(raws))
            && (forall c :: c in cs ==> ValidCommitment(o, c))
            && (forall i, j :: 0 <= i < j < |cs| ==> cs[i].hcsSequence < cs[j].hcsSequence && cs[i].bidId != cs[j].bidId)
    ensures forall e :: e in bids ==>
              e.bidId in EntryMap(bids) && EntryMap(bids)[e.bidId] == e.evidence && EntryConsistent(BidEntries, e)
    ensures forall e :: e in receipts ==>
              e.bidId in EntryMap(receipts) && EntryMap(receipts)[e.bidId] == e.evidence
              && EntryConsistent(ReceiptEntries, e)
  {
    SortedCommitments(o, raws);
    EntryMapContents(bids);
    EntryMapContents(receipts);
  }

  lemma SortedCommitments(o: Oracles, raws: seq<RawCommitment>)
    requires CommitmentsSound(o, raws)
    ensures var cs := Sort(Contents(raws), CommitmentLeq);
            && multiset(cs) == multiset(Contents(raws))
            && (forall c :: c in cs ==> ValidCommitment(o, c))
            && (forall i, j :: 0 <= i < j < |cs| ==> cs[i].hcsSequence < cs[j].hcsSequence && cs[i].bidId != cs[j].bidId)
  {
    var given := Contents(raws);
    var cs := Sort(given, CommitmentLeq);
    CommitmentOrder();
    SortPermutes(given, CommitmentLeq);
    SortSorts(given, CommitmentLeq);
    DistinctPermutes(given, cs, SequenceOf);
    DistinctPermutes(given, cs, BidIdOf);
    forall c | c in cs ensures ValidCommitment(o, c) {
      assert c in given;
      var i :| 0 <= i < |given| && given[i] == c;
      assert ParseCommitment(o, raws[i]).Some?;
    }
    forall i, j | 0 <= i < j < |cs| ensures cs[i].hcsSequence < cs[j].hcsSequence && cs[i].bidId != cs[j].bidId {
      assert CommitmentLeq(cs[i], cs[j]);
      assert SequenceOf(cs[i]) != SequenceOf(cs[j]) && BidIdOf(cs[i]) != BidIdOf(cs[j]);
    }
  }

  // --- independence of the input order -------------------------------------------------------

  function RawSequence(raw: RawCommitment): int { if raw.Shaped? then raw.commitment.hcsSequence else 0 }

  function RawBidId(raw: RawCommitment): Text { if raw.Shaped? then raw.commitment.bidId else [] }

  lemma SoundByRaw(o: Oracles, raws: seq<RawCommitment>)
    ensures CommitmentsSound(o, raws)
       <==> AllParse(o, raws) && DistinctBy(raws, RawSequence) && DistinctBy(raws, RawBidId)
  {
    if AllParse(o, raws) {
      var cs := Contents(raws);
      forall i | 0 <= i < |raws| ensures RawSequence(raws[i]) == SequenceOf(cs[i]) && RawBidId(raws[i]) == BidIdOf(cs[i]) {
        assert ParseCommitment(o, raws[i]).Some?;
      }
      assert DistinctBy(raws, RawSequence) <==> DistinctBy(cs, SequenceOf);
      assert DistinctBy(raws, RawBidId) <==> DistinctBy(cs, BidIdOf);
    }
  }

  lemma SoundPermutes(o: Oracles, raws: seq<RawCommitment>, raws': seq<RawCommitment>)
    requires multiset(raws) == multiset(raws') && CommitmentsSound(o, raws)
    ensures CommitmentsSound(o, raws')
    ensures Sort(Contents(raws), CommitmentLeq) == Sort(Contents(raws'), CommitmentLeq)
  {
    SoundByRaw(o, raws);
    SoundByRaw(o, raws');
    SameMembers(raws, raws');
    forall i | 0 <= i < |raws'| ensures ParseCommitment(o, raws'[i]).Some? {
      assert raws'[i] in raws;
    }
    DistinctPermutes(raws, raws', RawSequence);
    DistinctPermutes(raws, raws', RawBidId);
    ContentsMembers(raws);
    ContentsMembers(raws');
    CommitmentOrder();
    SortForgetsOrder(Contents(raws), Contents(raws'), CommitmentLeq, SequenceOf);
  }

  lemma ContentsMembers(raws: seq<RawCommitment>)
    requires forall i :: 0 <= i < |raws| ==> raws[i].Shaped?
    ensures forall c :: c in Contents(raws) <==> Shaped(c) in raws
  {
    var cs := Contents(raws);
    forall c ensures c in cs <==> Shaped(c) in raws {
      if c in cs {
        var i :| 0 <= i < |cs| && cs[i] == c;
        assert raws[i] == Shaped(c);
      }
      if Shaped(c) in raws {
        var i :| 0 <= i < |raws| && raws[i] == Shaped(c);
        assert cs[i] == c;
      }
    }
  }

  lemma EntriesPermute(kind: EntryKind, entries: seq<Entry>, entries': seq<Entry>)
    requires multiset(entries) == multiset(entries') && EntriesSound(kind, entries)
    ensures EntriesSound(kind, entries') && EntryMap(entries) == EntryMap(entries')
  {
    SameMembers(entries, entries');
    DistinctPermutes(entries, entries', EntryKey);
    forall i | 0 <= i < |entries'| ensures EntryConsistent(kind, entries'[i]) {
      assert entries'[i] in entries;
    }
    EntryMapKeys(entries);
    EntryMapKeys(entries');
    EntryMapContents(entries);
    EntryMapContents(entries');
    SameMap(EntryMap(entries), EntryMap(entries'), entries);
  }

  lemma SameMap(m: map<Text, Json>, n: map<Text, Json>, entries: seq<Entry>)
    requires forall k :: k in m <==> exists e :: e in entries && e.bidId == k
    requires forall k :: k in n <==> k in m
    requires forall e :: e in entries ==> e.bidId in m && m[e.bidId] == e.evidence
    requires forall e :: e in entries ==> e.bidId in n && n[e.bidId] == e.evidence
    ensures m == n
  {
    forall k | k in m ensures m[k] == n[k] {
      var e :| e in entries && e.bidId == k;
    }
  }

  /** Reordering the three lists changes neither whether they reconcile nor what they reconcile to. */
  lemma ReconciliationForgetsOrder(
    o: Oracles, raws: seq<RawCommitment>, bids: seq<Entry>, receipts: seq<Entry>,
    raws': seq<RawCommitment>, bids': seq<Entry>, receipts': seq<Entry>)
    requires multiset(raws) == multiset(raws') && multiset(bids) == multiset(bids')
    requires multiset(receipts) == multiset(receipts')
    ensures Reconcilable(o, raws, bids, receipts) <==> Reconcilable(o, raws', bids', receipts')
    ensures Reconcilable(o, raws, bids, receipts) ==>
      Reconciled(raws, bids, receipts) == Reconciled(raws', bids', receipts')
  {
    if Reconcilable(o, raws, bids, receipts) {
      SoundPermutes(o, raws, raws');
      EntriesPermute(BidEntries, bids, bids');
      EntriesPermute(ReceiptEntries, receipts, receipts');
    }
    if Reconcilable(o, raws', bids', receipts') {
      SoundPermutes(o, raws', raws);
      EntriesPermute(BidEntries, bids', bids);
      EntriesPermute(ReceiptEntries, receipts', receipts);
    }
  }

  // --- the sequence window ----------------------------------------------------------------------

  function Range(start: int, end: int): seq<int>
    decreases end - start
  {
    if end < start then [] else Range(start, end - 1) + [end]
  }

  lemma {:induction false} RangeFacts(start: int, end: int)
    requires start <= end + 1
    ensures |Range(start, end)| == end - start + 1
    ensures forall n :: n in Range(start, end) <==> start <= n <= end
    ensures forall n :: start <= n <= end ==> multiset(Range(start, end))[n] == 1
    decreases end - start
  {
    if start <= end {
      RangeFacts(start, end - 1);
      var r := Range(start, end - 1);
      assert forall n :: n in r + [end] <==> n in r || n == end;
      assert end !in r;
      assert multiset(r)[end] == 0;
    }
  }

  /** The numbers of a list as a set, which is smaller than the list when one is repeated. */
  function AsSet(s: seq<int>): set<int> { set x | x in s }

  lemma {:induction false} SetSize(s: seq<int>)
    ensures |AsSet(s)| <= |s|
    ensures |AsSet(s)| == |s| ==> forall x :: x in s ==> multiset(s)[x] == 1
  {
    if s != [] {
      var init, last := s[..|s| - 1], s[|s| - 1];
      SetSize(init);
      assert s == init + [last];
      assert AsSet(s) == AsSet(init) + {last};
      if last in init {
        assert AsSet(s) == AsSet(init);
      } else {
        assert multiset(init)[last] == 0;
      }
    }
  }

  lemma SameCounts(s: seq<int>, t: seq<int>)
    requires forall x :: x in s <==> x in t
    requires forall x :: x in s ==> multiset(s)[x] == 1 && multiset(t)[x] == 1
    ensures multiset(s) == multiset(t)
  {
    forall x ensures multiset(s)[x] == multiset(t)[x] {
      if x !in s {
        assert x !in multiset(s) && x !in multiset(t);
      }
    }
  }

  lemma {:induction false} PermutationSize(s: seq<int>)
    requires forall x :: x in s ==> multiset(s)[x] == 1
    ensures |AsSet(s)| == |s|
  {
    if s != [] {
      var init, last := s[..|s| - 1], s[|s| - 1];
      assert s == init + [last];
      assert last in s && multiset(s)[last] == multiset(init)[last] + 1;
      forall x | x in init ensures multiset(init)[x] == 1 { assert x in s; }
      PermutationSize(init);
      assert AsSet(s) == AsSet(init) + {last};
    }
  }

  /** `isSequenceRangeComplete`: every number of the window occurs exactly once. */
  method IsSequenceRangeComplete(start: int, end: int, observed: seq<int>) returns (complete: bool)
    ensures complete <==> WindowComplete(start, end, observed)
  {
    if !(-MAX_SAFE_INTEGER <= start <= MAX_SAFE_INTEGER) || !(-MAX_SAFE_INTEGER <= end <= MAX_SAFE_INTEGER)
       || start < 1 || end < start {
      return false;
    }
    RangeFacts(start, end);
    var expected := end - start + 1;
    if |observed| != expected {
      assert |multiset(observed)| != |multiset(Range(start, end))|;
      return false;
    }
    var distinct := AsSet(observed);
    if |distinct| != expected {
      RepeatedIsIncomplete(start, end, observed);
      return false;
    }
    for s := start to end + 1
      invariant forall n :: start <= n < s ==> n in observed
    {
      if s !in distinct {
        MissingIsIncomplete(start, end, observed, s);
        return false;
      }
    }
    CompleteWindow(start, end, observed);
    return true;
  }

  /** The window is well formed and `observed` is its numbers in some order. */
  predicate WindowComplete(start: int, end: int, observed: seq<int>) {
    1 <= start <= end <= MAX_SAFE_INTEGER && multiset(observed) == multiset(Range(start, end))
  }

  lemma RepeatedIsIncomplete(start: int, end: int, observed: seq<int>)
    requires start <= end && |AsSet(observed)| != |observed|
    ensures multiset(observed) != multiset(Range(start, end))
  {
    RangeFacts(start, end);
    if multiset(observed) == multiset(Range(start, end)) {
      SameMembers(observed, Range(start, end));
      PermutationSize(observed);
    }
  }

  lemma MissingIsIncomplete(start: int, end: int, observed: seq<int>, n: int)
    requires start <= n <= end && n !in observed
    ensures multiset(observed) != multiset(Range(start, end))
  {
    RangeFacts(start, end);
    if multiset(observed) == multiset(Range(start, end)) {
      SameMembers(observed, Range(start, end));
    }
  }

  lemma CompleteWindow(start: int, end: int, observed: seq<int>)
    requires start <= end && |observed| == |AsSet(observed)| == end - start + 1
    requires forall n :: start <= n <= end ==> n in observed
    ensures multiset(observed) == multiset(Range(start, end))
  {
    RangeFacts(start, end);
    SetSize(observed);
    SetSize(Range(start, end));
    var window := AsSet(Range(start, end));
    PermutationSize(Range(start, end));
    forall n | n in window ensures n in AsSet(observed) { assert n in Range(start, end); }
    SubsetOfSameSize(window, AsSet(observed));
    forall x ensures x in observed <==> x in Range(start, end) {
      assert x in observed <==> x in AsSet(observed);
      assert x in Range(start, end) <==> x in window;
    }
    SameCounts(observed, Range(start, end));
  }
}
