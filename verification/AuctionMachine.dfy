/** The auction state machine, and what holds in every run of it. */
module AuctionMachine {
  import opened Wrappers
  import opened Utf16
  import opened CanonicalJson
  import opened Sorting
  import opened AuctionTypes
  import opened Reconciliation
  import opened Eligibility
  import opened Ranking
  import opened AuctionDocuments
  import opened DecisionManifest
  import opened ClosureProof

  datatype AuctionState =
    | Draft | Open | Bidding | ReconciliationPending | Closed | WinnerSelected | NoQualifiedBid | IncompleteHcsWindow

  datatype Context = Context(
    state: AuctionState, auctionEndsAt: Text, closureProof: Option<ProofValue>,
    decisionManifest: Option<Manifest>, now: Text)

  function Legal(from: AuctionState): seq<AuctionState> {
    match from
    case Draft => [Open]
    case Open => [Bidding]
    case Bidding => [ReconciliationPending]
    case ReconciliationPending => [Closed, IncompleteHcsWindow]
    case Closed => [WinnerSelected, NoQualifiedBid]
    case WinnerSelected => []
    case NoQualifiedBid => []
    case IncompleteHcsWindow => []
  }

  predicate IsTerminalState(s: AuctionState) { s == WinnerSelected || s == NoQualifiedBid || s == IncompleteHcsWindow }

  // --- transitions; None stands for a throw -------------------------------------------------------------

  function CreateAuctionMachine(o: Oracles, auctionEndsAt: Text): Option<Context> {
    if o.IsUtc(auctionEndsAt) then Some(Context(Draft, auctionEndsAt, None, None, auctionEndsAt)) else None
  }

  function TransitionToOpen(ctx: Context): Option<Context> {
    if Open in Legal(ctx.state) then Some(ctx.(state := Open)) else None
  }

  function TransitionToBidding(ctx: Context): Option<Context> {
    if Bidding in Legal(ctx.state) then Some(ctx.(state := Bidding)) else None
  }

  function TransitionToReconciliation(o: Oracles, ctx: Context, now: Text): Option<Context> {
    if ReconciliationPending !in Legal(ctx.state) then None
    else if !o.IsUtc(now) then None
    else if !o.BeforeOrEqualUtc(ctx.auctionEndsAt, now) then None
    else Some(ctx.(state := ReconciliationPending, now := now))
  }

  function TransitionToClosed(o: Oracles, registry: seq<Proof>, ctx: Context, v: ProofValue): Option<Context> {
    if Closed !in Legal(ctx.state) then None
    else if !IsVerified(registry, v) then None
    else
      var p := registry[v.id];
      if !WindowComplete(p.startSequence, p.endSequence, p.observed) then None
      else if p.tenderId != p.manifest.body.tenderId then None
      else if p.tenderVersion != p.manifest.body.tenderVersion then None
      else if p.auctionEndsAt != ctx.auctionEndsAt then None
      else if !o.BeforeOrEqualUtc(ctx.auctionEndsAt, p.evaluationTimestamp) then None
      else if !o.BeforeOrEqualUtc(ctx.auctionEndsAt, p.closeBarrierConsensusTimestamp) then None
      else Some(ctx.(state := Closed, closureProof := Some(v), decisionManifest := Some(p.manifest),
                     now := p.evaluationTimestamp))
  }

  function TransitionToIncompleteHcsWindow(registry: seq<Proof>, ctx: Context, v: ProofValue): Option<Context> {
    if IncompleteHcsWindow !in Legal(ctx.state) then None
    else if !IsVerified(registry, v) then None
    else
      var p := registry[v.id];
      if WindowComplete(p.startSequence, p.endSequence, p.observed) then None
      else Some(ctx.(state := IncompleteHcsWindow, closureProof := Some(v), decisionManifest := Some(p.manifest)))
  }

  predicate HasRankable(results: seq<EligibilityResult>) {
    exists k :: 0 <= k < |results| && IsRankable(results[k])
  }

  predicate HasQualifiedEntry(m: Manifest, bidId: Text) {
    exists k :: 0 <= k < |m.body.commitments|
                && m.body.commitments[k].bidId == bidId && m.body.commitments[k].decision == Qualified
  }

  function TransitionToWinnerSelected(o: Oracles, registry: seq<Proof>, ctx: Context): Option<Context> {
    if WinnerSelected !in Legal(ctx.state) then None
    else if ctx.closureProof.None? || !IsVerified(registry, ctx.closureProof.value) then None
    else
      var p := registry[ctx.closureProof.value.id];
      var winner := SelectWinner(o, p.results);
      if winner.None? then None
      else if p.manifest.body.winningBidId != Some(winner.value.bidId) then None
      else if p.manifest.body.winningBidHash != Some(winner.value.bidHash) then None
      else if !HasRankable(p.results) then None
      else if !HasQualifiedEntry(p.manifest, winner.value.bidId) then None
      else Some(ctx.(state := WinnerSelected, decisionManifest := Some(p.manifest)))
  }

  function TransitionToNoQualifiedBid(o: Oracles, registry: seq<Proof>, ctx: Context): Option<Context> {
    if NoQualifiedBid !in Legal(ctx.state) then None
    else if ctx.closureProof.None? || !IsVerified(registry, ctx.closureProof.value) then None
    else
      var p := registry[ctx.closureProof.value.id];
      if SelectWinner(o, p.results).Some? then None
      else if p.manifest.body.winningBidId.Some? || p.manifest.body.winningBidHash.Some? then None
      else if HasRankable(p.results) then None
      else Some(ctx.(state := NoQualifiedBid, decisionManifest := Some(p.manifest)))
  }

  // --- runs ------------------------------------------------------------------------------------------------

  /** A call: of the proof factory, or of a transition with any arguments. */
  datatype Event =
    | MakeProof(input: ClosureInput)
    | ToOpen
    | ToBidding
    | ToReconciliation(now: Text)
    | ToClosed(value: ProofValue)
    | ToIncomplete(value: ProofValue)
    | ToWinnerSelected
    | ToNoQualifiedBid

  datatype World = World(registry: seq<Proof>, ctx: Context)

  /** The transition that an event asks for; None when it throws or is no transition. */
  function Transition(o: Oracles, w: World, e: Event): Option<Context> {
    match e
    case MakeProof(_) => None
    case ToOpen => TransitionToOpen(w.ctx)
    case ToBidding => TransitionToBidding(w.ctx)
    case ToReconciliation(now) => TransitionToReconciliation(o, w.ctx, now)
    case ToClosed(v) => TransitionToClosed(o, w.registry, w.ctx, v)
    case ToIncomplete(v) => TransitionToIncompleteHcsWindow(w.registry, w.ctx, v)
    case ToWinnerSelected => TransitionToWinnerSelected(o, w.registry, w.ctx)
    case ToNoQualifiedBid => TransitionToNoQualifiedBid(o, w.registry, w.ctx)
  }

  /** The world after one call; a call that throws changes nothing. */
  ghost function Step(o: Oracles, rulesHash: Text, w: World, e: Event): World {
    match e
    case MakeProof(c) =>
      if Closable(o, c) then w.(registry := w.registry + [ProofOf(o, rulesHash, c)]) else w
    case _ =>
      match Transition(o, w, e)
      case Some(ctx) => w.(ctx := ctx)
      case None => w
  }

  ghost function Run(o: Oracles, rulesHash: Text, w: World, events: seq<Event>): World {
    if events == [] then w
    else Step(o, rulesHash, Run(o, rulesHash, w, events[..|events| - 1]), events[|events| - 1])
  }

  /** A fresh machine, before any proof is made. */
  function World0(o: Oracles, auctionEndsAt: Text): World
    requires o.IsUtc(auctionEndsAt)
  {
    World([], CreateAuctionMachine(o, auctionEndsAt).value)
  }

  // --- the invariant -----------------------------------------------------------------------------------------

  predicate PastClosing(s: AuctionState) { s == Closed || s == WinnerSelected || s == NoQualifiedBid }

  /** Before reconciliation has begun. */
  predicate Early(s: AuctionState) { s == Draft || s == Open || s == Bidding }

  /** An authentic proof of the right auction, over a complete window, at the right times. */
  ghost predicate ClosedBy(o: Oracles, auctionEndsAt: Text, p: Proof) {
    && WindowComplete(p.startSequence, p.endSequence, p.observed)
    && p.auctionEndsAt == auctionEndsAt
    && o.BeforeOrEqualUtc(auctionEndsAt, p.closeBarrierConsensusTimestamp)
    && o.BeforeOrEqualUtc(auctionEndsAt, p.evaluationTimestamp)
  }

  ghost predicate AllBacked(o: Oracles, rulesHash: Text, registry: seq<Proof>) {
    forall k :: 0 <= k < |registry| ==> Backed(o, rulesHash, registry[k])
  }

  /** What the context says is what its authentic proof says. */
  ghost predicate ContextSound(o: Oracles, auctionEndsAt: Text, registry: seq<Proof>, ctx: Context) {
    && ctx.auctionEndsAt == auctionEndsAt
    && (!Early(ctx.state) ==> o.BeforeOrEqualUtc(auctionEndsAt, ctx.now))
    && (PastClosing(ctx.state) || ctx.state == IncompleteHcsWindow ==> ctx.closureProof.Some?)
    && (ctx.closureProof.Some? ==>
          && IsVerified(registry, ctx.closureProof.value)
          && var p := registry[ctx.closureProof.value.id];
             && ctx.decisionManifest == Some(p.manifest)
             && (PastClosing(ctx.state) ==> ClosedBy(o, auctionEndsAt, p))
             && (ctx.state == WinnerSelected ==> p.manifest.body.winningBidId.Some?)
             && (ctx.state == NoQualifiedBid ==> p.manifest.body.winningBidId.None?)
             && (ctx.state == IncompleteHcsWindow ==> !WindowComplete(p.startSequence, p.endSequence, p.observed)))
  }

  ghost predicate Inv(o: Oracles, rulesHash: Text, auctionEndsAt: Text, w: World) {
    AllBacked(o, rulesHash, w.registry) && ContextSound(o, auctionEndsAt, w.registry, w.ctx)
  }

  lemma TransitionKeepsSound(o: Oracles, auctionEndsAt: Text, w: World, e: Event)
    requires ContextSound(o, auctionEndsAt, w.registry, w.ctx) && Transition(o, w, e).Some?
    ensures ContextSound(o, auctionEndsAt, w.registry, Transition(o, w, e).value)
  {
  }

  lemma StepKeepsInv(o: Oracles, rulesHash: Text, auctionEndsAt: Text, w: World, e: Event)
    requires Inv(o, rulesHash, auctionEndsAt, w)
    ensures Inv(o, rulesHash, auctionEndsAt, Step(o, rulesHash, w, e))
  {
    if e.MakeProof? {
      if Closable(o, e.input) { assert Backed(o, rulesHash, ProofOf(o, rulesHash, e.input)); }
    } else if Transition(o, w, e).Some? {
      TransitionKeepsSound(o, auctionEndsAt, w, e);
    }
  }

  lemma {:induction false} RunKeepsInv(o: Oracles, rulesHash: Text, auctionEndsAt: Text, events: seq<Event>)
    requires o.IsUtc(auctionEndsAt)
    ensures Inv(o, rulesHash, auctionEndsAt, Run(o, rulesHash, World0(o, auctionEndsAt), events))
  {
    if events != [] {
      var init := events[..|events| - 1];
      RunKeepsInv(o, rulesHash, auctionEndsAt, init);
      StepKeepsInv(o, rulesHash, auctionEndsAt, Run(o, rulesHash, World0(o, auctionEndsAt), init), events[|events| - 1]);
    }
  }

  // --- what backs a proof ----------------------------------------------------------------------------------------

  /** The winner fields of a proof and its own results agree; nothing else can be ranked. */
  ghost predicate WinnerAgrees(o: Oracles, p: Proof) {
    var w := SelectWinner(o, p.results);
    && (w.Some? <==> HasRankable(p.results))
    && p.manifest.body.winningBidId == (if w.Some? then Some(w.value.bidId) else None)
    && p.manifest.body.winningBidHash == (if w.Some? then Some(w.value.bidHash) else None)
    && p.manifest.body.commitments == EntriesOf(p.results)
  }

  lemma {:induction false} ProofWinner(o: Oracles, rulesHash: Text, c: ClosureInput)
    requires Closable(o, c)
    ensures WinnerAgrees(o, ProofOf(o, rulesHash, c))
  {
    var i := AuctionOf(c);
    ReconciledOrdered(o, i);
    var r := Reconciled(i.commitments, i.bids, i.receipts);
    OrderedUnique(o, SettingOf(i), r.commitments, r.fullBids, r.receipts);
    EvaluateAllInOrder(o, SettingOf(i), r.commitments, r.fullBids, r.receipts);
    WinnerConsistentWithResults(o, SettingOf(i), r.commitments, r.fullBids, r.receipts);
    var rs := ResultsOf(o, i);
    assert HasRankable(rs) <==> exists x :: x in rs && IsRankable(x);
  }

  lemma WinnerHasEntry(o: Oracles, m: Manifest, results: seq<EligibilityResult>)
    requires SelectWinner(o, results).Some? && m.body.commitments == EntriesOf(results)
    ensures HasQualifiedEntry(m, SelectWinner(o, results).value.bidId)
  {
    WinnerIsFirst(o, results);
    var w := SelectWinner(o, results).value;
    var r :| r in results && Ranking.Entry(r) == Some(w);
    var k :| 0 <= k < |results| && results[k] == r;
    assert m.body.commitments[k] == EntryOf(r);
  }

  /** Which exit a closed context has depends on the proof's own results alone. */
  lemma ExitOf(o: Oracles, registry: seq<Proof>, ctx: Context)
    requires ctx.state == Closed && ctx.closureProof.Some? && IsVerified(registry, ctx.closureProof.value)
    requires WinnerAgrees(o, registry[ctx.closureProof.value.id])
    ensures var p := registry[ctx.closureProof.value.id];
            && (TransitionToWinnerSelected(o, registry, ctx).Some? <==> SelectWinner(o, p.results).Some?)
            && (TransitionToNoQualifiedBid(o, registry, ctx).Some? <==> SelectWinner(o, p.results).None?)
  {
    var p := registry[ctx.closureProof.value.id];
    if SelectWinner(o, p.results).Some? { WinnerHasEntry(o, p.manifest, p.results); }
  }

  lemma BackedWinner(o: Oracles, rulesHash: Text, p: Proof)
    requires Backed(o, rulesHash, p)
    ensures WinnerAgrees(o, p)
  {
    var c :| Closable(o, c) && p == ProofOf(o, rulesHash, c);
    ProofWinner(o, rulesHash, c);
  }

  lemma ClosedWinner(o: Oracles, rulesHash: Text, auctionEndsAt: Text, w: World)
    requires Inv(o, rulesHash, auctionEndsAt, w) && w.ctx.state == Closed
    ensures w.ctx.closureProof.Some? && IsVerified(w.registry, w.ctx.closureProof.value)
    ensures WinnerAgrees(o, w.registry[w.ctx.closureProof.value.id])
  {
    BackedWinner(o, rulesHash, w.registry[w.ctx.closureProof.value.id]);
  }

  lemma ExactlyOneExit(o: Oracles, w: World)
    requires w.ctx.state == Closed && w.ctx.closureProof.Some? && IsVerified(w.registry, w.ctx.closureProof.value)
    requires WinnerAgrees(o, w.registry[w.ctx.closureProof.value.id])
    ensures Transition(o, w, ToWinnerSelected).Some? <==> Transition(o, w, ToNoQualifiedBid).None?
  {
    ExitOf(o, w.registry, w.ctx);
  }

  // --- theorems over all runs ---------------------------------------------------------------------------------

  /**
   However the calls are interleaved: a closed or decided auction rests on an authentic proof with a
   complete window, the machine's own deadline, and barrier and evaluation not before it.
   */
  lemma {:induction false} ClosedIsProved(o: Oracles, rulesHash: Text, auctionEndsAt: Text, events: seq<Event>)
    requires o.IsUtc(auctionEndsAt)
    ensures var w := Run(o, rulesHash, World0(o, auctionEndsAt), events);
            PastClosing(w.ctx.state) ==>
              && w.ctx.closureProof.Some? && IsVerified(w.registry, w.ctx.closureProof.value)
              && var p := w.registry[w.ctx.closureProof.value.id];
                 && Backed(o, rulesHash, p) && ClosedBy(o, auctionEndsAt, p)
                 && w.ctx.decisionManifest == Some(p.manifest)
    ensures var w := Run(o, rulesHash, World0(o, auctionEndsAt), events);
            Early(w.ctx.state) || o.BeforeOrEqualUtc(auctionEndsAt, w.ctx.now)
  {
    RunKeepsInv(o, rulesHash, auctionEndsAt, events);
  }

  /** From a closed auction exactly one of the two decisions can be taken. */
  lemma {:induction false} ClosedHasExactlyOneExit(o: Oracles, rulesHash: Text, auctionEndsAt: Text, events: seq<Event>)
    requires o.IsUtc(auctionEndsAt)
    requires Run(o, rulesHash, World0(o, auctionEndsAt), events).ctx.state == Closed
    ensures var w := Run(o, rulesHash, World0(o, auctionEndsAt), events);
            Transition(o, w, ToWinnerSelected).Some? <==> Transition(o, w, ToNoQualifiedBid).None?
  {
    RunKeepsInv(o, rulesHash, auctionEndsAt, events);
    ClosedWinner(o, rulesHash, auctionEndsAt, Run(o, rulesHash, World0(o, auctionEndsAt), events));
    ExactlyOneExit(o, Run(o, rulesHash, World0(o, auctionEndsAt), events));
  }

  /** No calls change the context of an auction in a terminal state. */
  lemma {:induction false} TerminalIsAbsorbing(o: Oracles, rulesHash: Text, w: World, events: seq<Event>)
    requires IsTerminalState(w.ctx.state)
    ensures Run(o, rulesHash, w, events).ctx == w.ctx
  {
    if events != [] {
      TerminalIsAbsorbing(o, rulesHash, w, events[..|events| - 1]);
    }
  }

  /** A state with no legal successor is a terminal one. */
  lemma TerminalExactly(s: AuctionState)
    ensures IsTerminalState(s) <==> Legal(s) == []
  {
  }

  /** The evidence of a closed auction, position by position. */
  ghost predicate WindowAccountsForAll(c: ClosureInput) {
    && (forall n :: c.startSequence <= n <= c.endSequence ==> multiset(c.observed)[n] == 1)
    && (forall n :: n in c.observed ==> c.startSequence <= n <= c.endSequence)
    && (forall k :: 0 <= k < |c.commitments| ==>
          c.commitments[k].Shaped?
          && c.startSequence <= c.commitments[k].commitment.hcsSequence <= c.endSequence)
  }

  lemma CompleteWindowAccounts(o: Oracles, c: ClosureInput)
    requires Closable(o, c) && WindowComplete(c.startSequence, c.endSequence, c.observed)
    ensures WindowAccountsForAll(c)
  {
    RangeFacts(c.startSequence, c.endSequence);
    SameMembers(c.observed, Range(c.startSequence, c.endSequence));
    assert multiset(c.observed) == multiset(Range(c.startSequence, c.endSequence));
  }

  /**
   In every run that gets past closing, each window position was observed exactly once, every
   evaluated commitment lies in the window, and the published manifest names the best
   eligible commitment, or nobody exactly when no commitment is eligible.
   */
  lemma {:induction false} ClosedAuctionIsRight(o: Oracles, rulesHash: Text, auctionEndsAt: Text, events: seq<Event>)
    requires o.IsUtc(auctionEndsAt)
    requires PastClosing(Run(o, rulesHash, World0(o, auctionEndsAt), events).ctx.state)
    ensures exists c ::
      Closable(o, c) && c.auctionEndsAt == auctionEndsAt && WindowAccountsForAll(c)
      && Decides(o, c, Run(o, rulesHash, World0(o, auctionEndsAt), events).ctx)
  {
    RunKeepsInv(o, rulesHash, auctionEndsAt, events);
    var w := Run(o, rulesHash, World0(o, auctionEndsAt), events);
    var p := w.registry[w.ctx.closureProof.value.id];
    var c :| Closable(o, c) && p == ProofOf(o, rulesHash, c);
    CompleteWindowAccounts(o, c);
    ManifestWinner(o, rulesHash, AuctionOf(c));
    assert Decides(o, c, w.ctx);
  }

  /** Manifest and state give the right answer for the evidence. */
  ghost predicate Decides(o: Oracles, c: ClosureInput, ctx: Context)
    requires Closable(o, c)
  {
    && ctx.decisionManifest.Some?
    && var m := ctx.decisionManifest.value.body;
       && (m.winningBidId.None? <==> NoneEligible(o, AuctionOf(c)))
       && (m.winningBidId.Some? ==> exists x ::
             AwardedTo(o, AuctionOf(c), x) && m.winningBidId == Some(x.bidId) && m.winningBidHash == Some(x.bidHash))
       && (ctx.state == WinnerSelected ==> !NoneEligible(o, AuctionOf(c)))
       && (ctx.state == NoQualifiedBid ==> NoneEligible(o, AuctionOf(c)))
  }

  // --- what can be closed, and that it is decided -----------------------------------------------------------------

  lemma BackedTender(o: Oracles, rulesHash: Text, p: Proof)
    requires Backed(o, rulesHash, p)
    ensures p.tenderId == p.manifest.body.tenderId && p.tenderVersion == p.manifest.body.tenderVersion
  {
    var c :| Closable(o, c) && p == ProofOf(o, rulesHash, c);
  }

  lemma ClosesBy(o: Oracles, registry: seq<Proof>, ctx: Context, v: ProofValue)
    requires ctx.state == ReconciliationPending
    requires IsVerified(registry, v) ==>
      var p := registry[v.id];
      p.tenderId == p.manifest.body.tenderId && p.tenderVersion == p.manifest.body.tenderVersion
    ensures TransitionToClosed(o, registry, ctx, v).Some?
       <==> IsVerified(registry, v) && ClosedBy(o, ctx.auctionEndsAt, registry[v.id])
  {
  }

  /**
   A pending auction is closed by exactly the authentic proofs over a complete window for its own deadline,
   with barrier and evaluation not before it, and given up by exactly the authentic proofs over another window.
   */
  lemma ClosesExactly(o: Oracles, rulesHash: Text, auctionEndsAt: Text, w: World, v: ProofValue)
    requires Inv(o, rulesHash, auctionEndsAt, w) && w.ctx.state == ReconciliationPending
    ensures Transition(o, w, ToClosed(v)).Some?
       <==> IsVerified(w.registry, v) && ClosedBy(o, auctionEndsAt, w.registry[v.id])
    ensures Transition(o, w, ToIncomplete(v)).Some?
       <==> (IsVerified(w.registry, v)
             && !WindowComplete(w.registry[v.id].startSequence, w.registry[v.id].endSequence, w.registry[v.id].observed))
  {
    if IsVerified(w.registry, v) { BackedTender(o, rulesHash, w.registry[v.id]); }
    ClosesBy(o, w.registry, w.ctx, v);
  }

  lemma RunOneMore(o: Oracles, rulesHash: Text, w: World, events: seq<Event>, e: Event)
    ensures Run(o, rulesHash, w, events + [e]) == Step(o, rulesHash, Run(o, rulesHash, w, events), e)
  {
    assert (events + [e])[..|events|] == events;
  }

  /** A proof is made and the machine is taken as far as reconciliation. */
  function Opening(c: ClosureInput): seq<Event> {
    [MakeProof(c)] + [ToOpen] + [ToBidding] + [ToReconciliation(c.now)]
  }

  function Pending(auctionEndsAt: Text, now: Text): Context { Context(ReconciliationPending, auctionEndsAt, None, None, now) }

  lemma {:induction false} OpeningRuns(o: Oracles, rulesHash: Text, c: ClosureInput)
    requires Closable(o, c)
    ensures Run(o, rulesHash, World0(o, c.auctionEndsAt), Opening(c))
         == World([ProofOf(o, rulesHash, c)], Pending(c.auctionEndsAt, c.now))
  {
    var w := World0(o, c.auctionEndsAt);
    MakeStep(o, rulesHash, c, w);
    RunOneMore(o, rulesHash, w, [], MakeProof(c));
    assert [] + [MakeProof(c)] == [MakeProof(c)];
    assert w.registry + [ProofOf(o, rulesHash, c)] == [ProofOf(o, rulesHash, c)];
    EarlyRun(o, rulesHash, w, [MakeProof(c)], [ProofOf(o, rulesHash, c)], c.auctionEndsAt, c.now);
  }

  lemma {:induction false} EarlyRun(
    o: Oracles, rulesHash: Text, w: World, events: seq<Event>, registry: seq<Proof>, auctionEndsAt: Text, now: Text)
    requires o.IsUtc(auctionEndsAt) && o.IsUtc(now) && o.BeforeOrEqualUtc(auctionEndsAt, now)
    requires Run(o, rulesHash, w, events) == World(registry, CreateAuctionMachine(o, auctionEndsAt).value)
    ensures Run(o, rulesHash, w, events + [ToOpen] + [ToBidding] + [ToReconciliation(now)])
         == World(registry, Pending(auctionEndsAt, now))
  {
    RunOneMore(o, rulesHash, w, events, ToOpen);
    RunOneMore(o, rulesHash, w, events + [ToOpen], ToBidding);
    RunOneMore(o, rulesHash, w, events + [ToOpen] + [ToBidding], ToReconciliation(now));
    EarlySteps(o, rulesHash, registry, auctionEndsAt, now);
  }

  lemma {:induction false} MakeStep(o: Oracles, rulesHash: Text, c: ClosureInput, w: World)
    requires Closable(o, c)
    ensures Step(o, rulesHash, w, MakeProof(c)) == World(w.registry + [ProofOf(o, rulesHash, c)], w.ctx)
  {
  }

  /** The three transitions before the proof is presented. */
  lemma EarlySteps(o: Oracles, rulesHash: Text, registry: seq<Proof>, auctionEndsAt: Text, now: Text)
    requires o.IsUtc(auctionEndsAt) && o.IsUtc(now) && o.BeforeOrEqualUtc(auctionEndsAt, now)
    ensures var w := World(registry, CreateAuctionMachine(o, auctionEndsAt).value);
            Step(o, rulesHash, Step(o, rulesHash, Step(o, rulesHash, w, ToOpen), ToBidding), ToReconciliation(now))
              == World(registry, Pending(auctionEndsAt, now))
  {
  }

  lemma {:induction false} CloseStep(o: Oracles, rulesHash: Text, p: Proof, auctionEndsAt: Text, now: Text)
    requires ClosedBy(o, auctionEndsAt, p)
    requires p.tenderId == p.manifest.body.tenderId && p.tenderVersion == p.manifest.body.tenderVersion
    ensures var w := World([p], Pending(auctionEndsAt, now));
            Step(o, rulesHash, w, ToClosed(Made(0)))
              == World([p], Context(Closed, auctionEndsAt, Some(Made(0)), Some(p.manifest), p.evaluationTimestamp))
  {
    ClosesBy(o, [p], Pending(auctionEndsAt, now), Made(0));
  }

  lemma {:induction false} IncompleteStep(o: Oracles, rulesHash: Text, p: Proof, auctionEndsAt: Text, now: Text)
    requires !WindowComplete(p.startSequence, p.endSequence, p.observed)
    ensures Step(o, rulesHash, World([p], Pending(auctionEndsAt, now)), ToIncomplete(Made(0))).ctx.state == IncompleteHcsWindow
  {
  }

  /** Both decisions are tried; one of them takes place. */
  lemma {:induction false} DecideSteps(o: Oracles, rulesHash: Text, p: Proof, auctionEndsAt: Text, now: Text)
    requires WinnerAgrees(o, p)
    ensures var w := World([p], Context(Closed, auctionEndsAt, Some(Made(0)), Some(p.manifest), now));
            var t := Step(o, rulesHash, Step(o, rulesHash, w, ToWinnerSelected), ToNoQualifiedBid);
            && t.registry == [p] && t.ctx.decisionManifest == Some(p.manifest)
            && t.ctx.state == if p.manifest.body.winningBidId.Some? then WinnerSelected else NoQualifiedBid
  {
    var w := World([p], Context(Closed, auctionEndsAt, Some(Made(0)), Some(p.manifest), now));
    ExitOf(o, [p], w.ctx);
  }

  /** The run that decides an auction from its evidence. */
  function Deciding(c: ClosureInput): seq<Event> {
    Opening(c) + [ToClosed(Made(0))] + [ToWinnerSelected] + [ToNoQualifiedBid]
  }

  /**
   Every input that the factory accepts, with a complete window and an evaluation that is not early, closes its
   auction and decides it: for a winner exactly when some commitment is eligible.
   */
  lemma {:induction false} EveryClosableAuctionIsDecided(o: Oracles, rulesHash: Text, c: ClosureInput)
    requires Closable(o, c) && WindowComplete(c.startSequence, c.endSequence, c.observed)
    requires o.BeforeOrEqualUtc(c.auctionEndsAt, c.evaluationTime)
    ensures forall k :: 0 <= k < |c.commitments| ==> c.commitments[k].Shaped?
    ensures var w := Run(o, rulesHash, World0(o, c.auctionEndsAt), Deciding(c));
            && w.ctx.state == (if NoneEligible(o, AuctionOf(c)) then NoQualifiedBid else WinnerSelected)
            && w.ctx.decisionManifest == Built(o, rulesHash, AuctionOf(c))
  {
    var w, p := World0(o, c.auctionEndsAt), ProofOf(o, rulesHash, c);
    OpeningRuns(o, rulesHash, c);
    RunOneMore(o, rulesHash, w, Opening(c), ToClosed(Made(0)));
    RunOneMore(o, rulesHash, w, Opening(c) + [ToClosed(Made(0))], ToWinnerSelected);
    RunOneMore(o, rulesHash, w, Opening(c) + [ToClosed(Made(0))] + [ToWinnerSelected], ToNoQualifiedBid);
    ProofIsRight(o, rulesHash, c);
    CloseStep(o, rulesHash, p, c.auctionEndsAt, c.now);
    ProofWinner(o, rulesHash, c);
    DecideSteps(o, rulesHash, p, c.auctionEndsAt, c.evaluationTime);
    ManifestWinner(o, rulesHash, AuctionOf(c));
  }

  /** With any other window the same run up to reconciliation ends in INCOMPLETE_HCS_WINDOW. */
  lemma {:induction false} IncompleteWindowIsMarked(o: Oracles, rulesHash: Text, c: ClosureInput)
    requires Closable(o, c) && !WindowComplete(c.startSequence, c.endSequence, c.observed)
    ensures Run(o, rulesHash, World0(o, c.auctionEndsAt), Opening(c) + [ToIncomplete(Made(0))]).ctx.state
         == IncompleteHcsWindow
  {
    OpeningRuns(o, rulesHash, c);
    RunOneMore(o, rulesHash, World0(o, c.auctionEndsAt), Opening(c), ToIncomplete(Made(0)));
    ProofIsRight(o, rulesHash, c);
    IncompleteStep(o, rulesHash, ProofOf(o, rulesHash, c), c.auctionEndsAt, c.now);
  }
}
