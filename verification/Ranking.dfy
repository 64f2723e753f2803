/** LOWEST_QUALIFIED_PRICE_V1: the order of qualified bids and the winner it gives. */
module Ranking {
  import opened Wrappers
  import opened Utf16
  import opened CanonicalJson
  import opened Sorting
  import opened AuctionTypes
  import opened Eligibility

  datatype RankedBid = RankedBid(
    bidId: Text, carrierId: Text, freightPriceCents: SafeInt, estimatedDelivery: Text,
    consensusTimestamp: Text, hcsSequence: SafeInt, bidHash: Text)

  /** `compareRankedBids`. */
  function CompareRankedBids(o: Oracles, a: RankedBid, b: RankedBid): int {
    if a.freightPriceCents != b.freightPriceCents then a.freightPriceCents - b.freightPriceCents
    else if o.Ns(a.estimatedDelivery) < o.Ns(b.estimatedDelivery) then -1
    else if o.Ns(a.estimatedDelivery) > o.Ns(b.estimatedDelivery) then 1
    else if o.Ns(a.consensusTimestamp) < o.Ns(b.consensusTimestamp) then -1
    else if o.Ns(a.consensusTimestamp) > o.Ns(b.consensusTimestamp) then 1
    else Compare(a.bidId, b.bidId)
  }

  /** Lower price, then earlier delivery, then earlier consensus, then lower bid id. */
  predicate RanksBefore(o: Oracles, a: RankedBid, b: RankedBid) {
    || a.freightPriceCents < b.freightPriceCents
    || (a.freightPriceCents == b.freightPriceCents && (
        || o.Ns(a.estimatedDelivery) < o.Ns(b.estimatedDelivery)
        || (o.Ns(a.estimatedDelivery) == o.Ns(b.estimatedDelivery) && (
            || o.Ns(a.consensusTimestamp) < o.Ns(b.consensusTimestamp)
            || (o.Ns(a.consensusTimestamp) == o.Ns(b.consensusTimestamp) && Less(a.bidId, b.bidId))))))
  }

  lemma CompareIsRankOrder(o: Oracles, a: RankedBid, b: RankedBid)
    ensures CompareRankedBids(o, a, b) < 0 <==> RanksBefore(o, a, b)
    ensures CompareRankedBids(o, a, b) <= 0 <==> !RanksBefore(o, b, a)
    ensures a.bidId != b.bidId ==> (RanksBefore(o, a, b) <==> !RanksBefore(o, b, a))
  {
    LessTrichotomy(a.bidId, b.bidId);
  }

  lemma RankTransitive(o: Oracles, a: RankedBid, b: RankedBid, c: RankedBid)
    requires !RanksBefore(o, b, a) && !RanksBefore(o, c, b)
    ensures !RanksBefore(o, c, a)
  {
    if !Less(b.bidId, a.bidId) && !Less(c.bidId, b.bidId) {
      NotLessTransitive(a.bidId, b.bidId, c.bidId);
    }
  }

  function RankOrder(o: Oracles): (RankedBid, RankedBid) -> bool {
    (a, b) => CompareRankedBids(o, a, b) <= 0
  }

  lemma RankOrderTotal(o: Oracles)
    ensures TotalPreorder(RankOrder(o))
  {
    var leq := RankOrder(o);
    forall a, b ensures leq(a, b) || leq(b, a) {
      CompareIsRankOrder(o, a, b);
      CompareIsRankOrder(o, b, a);
    }
    forall a, b, c | leq(a, b) && leq(b, c) ensures leq(a, c) {
      CompareIsRankOrder(o, a, b);
      CompareIsRankOrder(o, b, c);
      CompareIsRankOrder(o, a, c);
      RankTransitive(o, a, b, c);
    }
  }

  /** The entry of a result in the ranking; only rankable results with all their data have one. */
  function Entry(r: EligibilityResult): Option<RankedBid> {
    if IsRankable(r) && r.freightPriceCents.Some? && r.estimatedDelivery.Some? && r.bidHash.Some? then
      Some(RankedBid(r.bidId, r.carrierId, r.freightPriceCents.value, r.estimatedDelivery.value,
                     r.consensusTimestamp, r.hcsSequence, r.bidHash.value))
    else None
  }

  function Entries(results: seq<EligibilityResult>): seq<RankedBid> {
    if results == [] then []
    else
      var init, last := results[..|results| - 1], results[|results| - 1];
      Entries(init) + (if Entry(last).Some? then [Entry(last).value] else [])
  }

  /** `rankQualifiedBids`. */
  function RankQualified(o: Oracles, results: seq<EligibilityResult>): seq<RankedBid> {
    Sort(Entries(results), RankOrder(o))
  }

  method RankQualifiedBids(o: Oracles, results: seq<EligibilityResult>) returns (ranked: seq<RankedBid>)
    ensures ranked == RankQualified(o, results)
  {
    var qualified: seq<RankedBid> := [];
    for i := 0 to |results|
      invariant qualified == Entries(results[..i])
    {
      assert results[..i + 1][..i] == results[..i];
      var result := results[i];
      if !IsRankable(result) { continue; }
      if result.freightPriceCents.None? || result.estimatedDelivery.None? || result.bidHash.None? { continue; }
      qualified := qualified + [RankedBid(
        result.bidId, result.carrierId, result.freightPriceCents.value, result.estimatedDelivery.value,
        result.consensusTimestamp, result.hcsSequence, result.bidHash.value)];
    }
    assert results[..|results|] == results;
    ranked := Sort(qualified, RankOrder(o));
  }

  /** `selectWinner`. */
  function SelectWinner(o: Oracles, results: seq<EligibilityResult>): Option<RankedBid> {
    var ranked := RankQualified(o, results);
    if ranked == [] then None else Some(ranked[0])
  }

  lemma {:induction false} EntriesMembers(results: seq<EligibilityResult>)
    ensures forall e :: e in Entries(results) <==> exists r :: r in results && Entry(r) == Some(e)
  {
    if results != [] {
      var init, last := results[..|results| - 1], results[|results| - 1];
      EntriesMembers(init);
      assert results == init + [last];
      assert forall r :: r in results <==> r in init || r == last;
    }
  }

  /** The winner is an entry that no other entry ranks before; there is none exactly without entries. */
  lemma {:induction false} WinnerIsFirst(o: Oracles, results: seq<EligibilityResult>)
    ensures SelectWinner(o, results).None? <==> forall r :: r in results ==> Entry(r).None?
    ensures SelectWinner(o, results).Some? ==>
      (var w := SelectWinner(o, results).value;
       && (exists r :: r in results && Entry(r) == Some(w))
       && (forall r :: r in results && Entry(r).Some? ==> !RanksBefore(o, Entry(r).value, w)))
  {
    var entries := Entries(results);
    var ranked := RankQualified(o, results);
    EntriesMembers(results);
    SortPermutes(entries, RankOrder(o));
    RankOrderTotal(o);
    SortSorts(entries, RankOrder(o));
    assert forall r :: r in results && Entry(r).Some? ==> Entry(r).value in entries;
    if ranked != [] {
      assert ranked[0] in entries;
      forall r | r in results && Entry(r).Some? ensures !RanksBefore(o, Entry(r).value, ranked[0]) {
        var e := Entry(r).value;
        assert e in entries && e in ranked;
        var i :| 0 <= i < |ranked| && ranked[i] == e;
        CompareIsRankOrder(o, ranked[0], e);
        if i > 0 { assert RankOrder(o)(ranked[0], ranked[i]); }
      }
    }
  }

  // --- the winner of an auction -----------------------------------------------------------------------

  /** What a commitment is ranked by, read from its private bid. */
  function Offer(o: Oracles, k: Case, c: Commitment): RankedBid
    requires BidOf(o, k).Some?
  {
    var b := BidOf(o, k).value;
    RankedBid(c.bidId, c.carrierId, b.freightPriceCents, b.estimatedDelivery, c.consensusTimestamp,
              c.hcsSequence, o.bidHash(b))
  }

  lemma EntryIsOffer(o: Oracles, s: Setting, c: Commitment, bids: map<Text, Json>, receipts: map<Text, Json>)
    requires ValidCommitment(o, c)
    ensures var k := CaseOf(s, c, bids, receipts);
            && (Entry(Evaluate(o, k)).Some? <==> Eligible(o, k))
            && (Eligible(o, k) ==> Entry(Evaluate(o, k)).value == Offer(o, k, c))
  {
    RankableExactly(o, CaseOf(s, c, bids, receipts));
    ResultIdentity(o, s, c, bids, receipts);
  }

  /** `c` is eligible and every other eligible commitment ranks after it. */
  ghost predicate IsWinner(
    o: Oracles, s: Setting, cs: seq<Commitment>, bids: map<Text, Json>, receipts: map<Text, Json>, c: Commitment)
  {
    && c in cs && Eligible(o, CaseOf(s, c, bids, receipts))
    && forall d :: d in cs && d != c && Eligible(o, CaseOf(s, d, bids, receipts)) ==>
         RanksBefore(o, Offer(o, CaseOf(s, c, bids, receipts), c), Offer(o, CaseOf(s, d, bids, receipts), d))
  }

  lemma DistinctOffers(o: Oracles, cs: seq<Commitment>, c: Commitment, d: Commitment)
    requires Ordered(o, cs) && c in cs && d in cs && c != d
    ensures c.bidId != d.bidId
  {
    var i :| 0 <= i < |cs| && cs[i] == c;
    var j :| 0 <= j < |cs| && cs[j] == d;
  }

  /** Results and commitments correspond. */
  lemma ResultsOfCommitments(
    o: Oracles, s: Setting, cs: seq<Commitment>, bids: map<Text, Json>, receipts: map<Text, Json>)
    requires Ordered(o, cs)
    ensures var rs := EvaluateAll(o, s, cs, bids, receipts);
            && (forall c :: c in cs ==> Evaluate(o, CaseOf(s, c, bids, receipts)) in rs)
            && (forall r :: r in rs ==> exists c :: c in cs && r == Evaluate(o, CaseOf(s, c, bids, receipts)))
  {
    var rs := EvaluateAll(o, s, cs, bids, receipts);
    EvaluateAllInOrder(o, s, cs, bids, receipts);
    forall c | c in cs ensures Evaluate(o, CaseOf(s, c, bids, receipts)) in rs {
      var i :| 0 <= i < |cs| && cs[i] == c;
      assert rs[i] in rs;
    }
    forall r | r in rs ensures exists c :: c in cs && r == Evaluate(o, CaseOf(s, c, bids, receipts)) {
      var i :| 0 <= i < |rs| && rs[i] == r;
      assert cs[i] in cs;
    }
  }

  lemma NoWinnerExactly(
    o: Oracles, s: Setting, cs: seq<Commitment>, bids: map<Text, Json>, receipts: map<Text, Json>)
    requires Ordered(o, cs)
    ensures (forall r :: r in EvaluateAll(o, s, cs, bids, receipts) ==> Entry(r).None?)
       <==> (forall c :: c in cs ==> !Eligible(o, CaseOf(s, c, bids, receipts)))
  {
    ResultsOfCommitments(o, s, cs, bids, receipts);
    forall c | c in cs ensures
      Entry(Evaluate(o, CaseOf(s, c, bids, receipts))).Some? <==> Eligible(o, CaseOf(s, c, bids, receipts))
    {
      EntryIsOffer(o, s, c, bids, receipts);
    }
  }

  /**
   The selected winner is the first of the eligible commitments by price, delivery, consensus
   time and bid id; there is none exactly when no commitment is eligible.
   */
  lemma {:induction false} WinnerExactly(
    o: Oracles, s: Setting, cs: seq<Commitment>, bids: map<Text, Json>, receipts: map<Text, Json>)
    requires Ordered(o, cs)
    ensures var w := SelectWinner(o, EvaluateAll(o, s, cs, bids, receipts));
            && (w.None? <==> forall c :: c in cs ==> !Eligible(o, CaseOf(s, c, bids, receipts)))
            && (w.Some? ==> exists c :: IsWinner(o, s, cs, bids, receipts, c)
                                         && w.value == Offer(o, CaseOf(s, c, bids, receipts), c))
  {
    var rs := EvaluateAll(o, s, cs, bids, receipts);
    WinnerIsFirst(o, rs);
    NoWinnerExactly(o, s, cs, bids, receipts);
    ResultsOfCommitments(o, s, cs, bids, receipts);
    if SelectWinner(o, rs).Some? {
      var w := SelectWinner(o, rs).value;
      var r :| r in rs && Entry(r) == Some(w);
      var c :| c in cs && r == Evaluate(o, CaseOf(s, c, bids, receipts));
      WinnerOfCommitments(o, s, cs, bids, receipts, c, w);
    }
  }

  lemma WinnerOfCommitments(
    o: Oracles, s: Setting, cs: seq<Commitment>, bids: map<Text, Json>, receipts: map<Text, Json>,
    c: Commitment, w: RankedBid)
    requires Ordered(o, cs) && c in cs && Entry(Evaluate(o, CaseOf(s, c, bids, receipts))) == Some(w)
    requires forall d :: d in cs && Entry(Evaluate(o, CaseOf(s, d, bids, receipts))).Some? ==>
               !RanksBefore(o, Entry(Evaluate(o, CaseOf(s, d, bids, receipts))).value, w)
    ensures IsWinner(o, s, cs, bids, receipts, c) && w == Offer(o, CaseOf(s, c, bids, receipts), c)
  {
    EntryIsOffer(o, s, c, bids, receipts);
    forall d | d in cs && d != c && Eligible(o, CaseOf(s, d, bids, receipts))
      ensures RanksBefore(o, Offer(o, CaseOf(s, c, bids, receipts), c), Offer(o, CaseOf(s, d, bids, receipts), d))
    {
      EntryIsOffer(o, s, d, bids, receipts);
      DistinctOffers(o, cs, c, d);
      CompareIsRankOrder(o, w, Offer(o, CaseOf(s, d, bids, receipts), d));
    }
  }

  /** No auction has two winners. */
  lemma WinnerUnique(
    o: Oracles, s: Setting, cs: seq<Commitment>, bids: map<Text, Json>, receipts: map<Text, Json>,
    c: Commitment, d: Commitment)
    requires IsWinner(o, s, cs, bids, receipts, c) && IsWinner(o, s, cs, bids, receipts, d)
    ensures c == d
  {
    if c != d {
      var x, y := Offer(o, CaseOf(s, c, bids, receipts), c), Offer(o, CaseOf(s, d, bids, receipts), d);
      LessTrichotomy(x.bidId, y.bidId);
    }
  }
}
