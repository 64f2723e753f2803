/**
 The deadline checks of the final demo, which compare `Date.parse` milliseconds, set against
 the nanosecond rule that decides an auction.
 */
module Timing {
  import opened Wrappers
  import opened Utf16
  import opened UtcTime

  /** `Date.parse` of an accepted timestamp: fraction digits past the third are ignored. */
  function DateParse(t: Timestamp): int {
    AcceptedExactly(t);
    CivilSeconds(CivilOf(t)) * 1000 + DigitsValue(PadNine(Fraction(t))[..3])
  }

  lemma {:induction false} DigitsSplit(t: Text, k: nat)
    requires AllDigits(t) && k <= |t|
    ensures DigitsValue(t) == DigitsValue(t[..k]) * Power10(|t| - k) + DigitsValue(t[k..])
    decreases |t| - k
  {
    if k == |t| {
      assert t[..k] == t && t[k..] == [];
    } else {
      DigitsSplit(t, k + 1);
      DigitsFront(t[k..]);
      assert t[k..][1..] == t[k + 1..];
      assert t[..k + 1][..k] == t[..k];
      Regroup(DigitsValue(t[..k]), t[k] - DIGIT_0, Power10(|t| - k - 1));
    }
  }

  lemma Regroup(a: nat, b: nat, p: nat)
    ensures (10 * a + b) * p == a * (10 * p) + b * p
  {
  }

  /** Truncation to milliseconds is the floor of the nanosecond count. */
  lemma {:induction false} MillisecondsAreFloor(t: Timestamp)
    ensures DateParse(t) == EpochNanoseconds(t) / 1_000_000
  {
    AcceptedExactly(t);
    var f := PadNine(Fraction(t));
    DigitsSplit(f, 3);
    DigitsBound(f[3..]);
    assert Power10(6) == 1000 * Power10(3) && Power10(3) == 1000;
    Floor(CivilSeconds(CivilOf(t)), DigitsValue(f[..3]), DigitsValue(f[3..]));
  }

  lemma Floor(s: int, high: nat, low: nat)
    requires low < 1_000_000
    ensures (s * 1_000_000_000 + (high * 1_000_000 + low)) / 1_000_000 == s * 1000 + high
  {
    assert s * 1_000_000_000 + (high * 1_000_000 + low) == 1_000_000 * (s * 1000 + high) + low;
  }

  /** `Date.parse` as a whole, with None for NaN: on accepted timestamps it is DateParse, elsewhere anything. */
  ghost predicate ParsesTimestamps(parse: Text -> Option<int>) {
    forall t: Timestamp :: parse(t) == Some(DateParse(t))
  }

  /** `assertCommitmentBeforeDeadline` does not throw. */
  predicate CommitmentAccepted(parse: Text -> Option<int>, consensus: Text, auctionEndsAt: Text) {
    parse(consensus).Some? && parse(auctionEndsAt).Some? && !(parse(consensus).value > parse(auctionEndsAt).value)
  }

  /** `assertBarrierAfterDeadline` does not throw. */
  predicate BarrierAccepted(parse: Text -> Option<int>, barrier: Text, auctionEndsAt: Text) {
    parse(barrier).Some? && parse(auctionEndsAt).Some? && !(parse(barrier).value < parse(auctionEndsAt).value)
  }

  lemma FloorOrder(x: int, y: int)
    ensures x / 1_000_000 < y / 1_000_000 ==> x < y
    ensures x / 1_000_000 == y / 1_000_000 ==> -1_000_000 < x - y < 1_000_000
  {
  }

  /** Of two accepted instants, what their milliseconds say. */
  lemma MillisecondOrder(a: Timestamp, b: Timestamp)
    ensures DateParse(a) < DateParse(b) ==> Before(a, b)
    ensures DateParse(a) == DateParse(b) ==> -1_000_000 < EpochNanoseconds(a) - EpochNanoseconds(b) < 1_000_000
  {
    MillisecondsAreFloor(a);
    MillisecondsAreFloor(b);
    FloorOrder(EpochNanoseconds(a), EpochNanoseconds(b));
  }

  /**
   The coarse check accepts a commitment exactly when it is timely by the nanosecond rule or
   shares the deadline's millisecond: nothing timely is refused, and a late commitment that
   slips through is late by less than a millisecond. An unparseable text is refused.
   */
  lemma {:induction false} CommitmentCheckExactly(parse: Text -> Option<int>, consensus: Text, auctionEndsAt: Text)
    requires ParsesTimestamps(parse)
    ensures IsUtc(consensus) && IsUtc(auctionEndsAt) ==>
      (CommitmentAccepted(parse, consensus, auctionEndsAt)
       <==> BeforeOrEqual(consensus, auctionEndsAt) || DateParse(consensus) == DateParse(auctionEndsAt))
    ensures IsUtc(consensus) && IsUtc(auctionEndsAt) ==>
      CommitmentAccepted(parse, consensus, auctionEndsAt) && !BeforeOrEqual(consensus, auctionEndsAt) ==>
      0 < EpochNanoseconds(consensus) - EpochNanoseconds(auctionEndsAt) < 1_000_000
    ensures parse(consensus).None? || parse(auctionEndsAt).None? ==> !CommitmentAccepted(parse, consensus, auctionEndsAt)
  {
    if IsUtc(consensus) && IsUtc(auctionEndsAt) {
      MillisecondOrder(consensus, auctionEndsAt);
      MillisecondOrder(auctionEndsAt, consensus);
    }
  }

  /** The same for the close barrier, which must not precede the deadline. */
  lemma {:induction false} BarrierCheckExactly(parse: Text -> Option<int>, barrier: Text, auctionEndsAt: Text)
    requires ParsesTimestamps(parse)
    ensures IsUtc(barrier) && IsUtc(auctionEndsAt) ==>
      (BarrierAccepted(parse, barrier, auctionEndsAt)
       <==> BeforeOrEqual(auctionEndsAt, barrier) || DateParse(barrier) == DateParse(auctionEndsAt))
    ensures IsUtc(barrier) && IsUtc(auctionEndsAt) ==>
      BarrierAccepted(parse, barrier, auctionEndsAt) && !BeforeOrEqual(auctionEndsAt, barrier) ==>
      0 < EpochNanoseconds(auctionEndsAt) - EpochNanoseconds(barrier) < 1_000_000
    ensures parse(barrier).None? || parse(auctionEndsAt).None? ==> !BarrierAccepted(parse, barrier, auctionEndsAt)
  {
    if IsUtc(barrier) && IsUtc(auctionEndsAt) {
      MillisecondOrder(barrier, auctionEndsAt);
      MillisecondOrder(auctionEndsAt, barrier);
    }
  }

  // --- a late commitment and an early barrier that pass --------------------------------------------------------

  /** 1970-01-01T00:00:00.0000001Z, a hundred nanoseconds after EPOCH. */
  const JUST_AFTER: Text := EPOCH[..19] + [DOT, 48, 48, 48, 48, 48, 48, 49, LETTER_Z]

  lemma JustAfterMatches()
    ensures Matches(EPOCH) && Matches(JUST_AFTER) && CivilOf(JUST_AFTER) == CivilOf(EPOCH)
    ensures Fraction(EPOCH) == [] && Fraction(JUST_AFTER) == [48, 48, 48, 48, 48, 48, 49]
  {
    EpochMatches();
    assert JUST_AFTER[..19] == EPOCH[..19];
    Slices(JUST_AFTER, EPOCH);
    assert JUST_AFTER[20..27] == [48, 48, 48, 48, 48, 48, 49];
  }

  lemma {:induction false} PadNineContents(f: Text)
    requires AllDigits(f) && |f| <= 9
    ensures forall i :: 0 <= i < |f| ==> PadNine(f)[i] == f[i]
    ensures forall i :: |f| <= i < 9 ==> PadNine(f)[i] == 48
    decreases 9 - |f|
  {
    if |f| < 9 {
      PadNineContents(f + [DIGIT_0]);
      assert forall i :: 0 <= i < |f| ==> (f + [DIGIT_0])[i] == f[i];
    }
  }

  lemma JustAfterNanoseconds()
    ensures Matches(EPOCH) && Matches(JUST_AFTER) && Nanoseconds(EPOCH) == 0 && Nanoseconds(JUST_AFTER) == 100
  {
    JustAfterMatches();
    var zeros, digits := PadNine(Fraction(EPOCH)), PadNine(Fraction(JUST_AFTER));
    PadNineContents(Fraction(EPOCH));
    PadNineContents(Fraction(JUST_AFTER));
    ZerosValue(zeros);
    assert digits == [48, 48, 48, 48, 48, 48, 49, 48, 48];
    assert digits[..8] == [48, 48, 48, 48, 48, 48, 49, 48] && digits[..8][..7] == [48, 48, 48, 48, 48, 48, 49];
    assert digits[..8][..7][..6] == [48, 48, 48, 48, 48, 48];
    ZerosValue(digits[..8][..7][..6]);
    assert DigitsValue(digits[..8][..7]) == 1;
    assert DigitsValue(digits[..8]) == 10;
  }

  lemma JustAfterInstant()
    ensures IsUtc(EPOCH) && IsUtc(JUST_AFTER)
    ensures EpochNanoseconds(EPOCH) == CivilSeconds(CivilOf(EPOCH)) * 1_000_000_000
    ensures EpochNanoseconds(JUST_AFTER) == CivilSeconds(CivilOf(EPOCH)) * 1_000_000_000 + 100
  {
    EpochAccepted();
    JustAfterMatches();
    JustAfterNanoseconds();
    AcceptedExactly(EPOCH);
    AcceptedExactly(JUST_AFTER);
  }

  lemma SameFloor(seconds: int)
    ensures (seconds * 1_000_000_000) / 1_000_000 == (seconds * 1_000_000_000 + 100) / 1_000_000
  {
    Floor(seconds, 0, 0);
    Floor(seconds, 0, 100);
  }

  lemma {:induction false} SharedMillisecond(a: Timestamp, b: Timestamp)
    requires EpochNanoseconds(a) / 1_000_000 == EpochNanoseconds(b) / 1_000_000
    ensures DateParse(a) == DateParse(b)
  {
    MillisecondsAreFloor(a);
    MillisecondsAreFloor(b);
  }

  /** Instants a hundred nanoseconds apart, the first on a full second: both coarse checks accept the wrong order. */
  lemma {:induction false} CoarseChecksPass(parse: Text -> Option<int>, a: Timestamp, b: Timestamp, seconds: int)
    requires ParsesTimestamps(parse)
    requires EpochNanoseconds(a) == seconds * 1_000_000_000 && EpochNanoseconds(b) == seconds * 1_000_000_000 + 100
    ensures CommitmentAccepted(parse, b, a) && BarrierAccepted(parse, a, b) && !BeforeOrEqual(b, a)
  {
    SameFloor(seconds);
    SharedMillisecond(a, b);
  }

  /** A commitment that the auction calls late passes the coarse check. */
  lemma {:induction false} LateCommitmentPasses(parse: Text -> Option<int>)
    requires ParsesTimestamps(parse)
    ensures IsUtc(EPOCH) && IsUtc(JUST_AFTER)
    ensures CommitmentAccepted(parse, JUST_AFTER, EPOCH) && !BeforeOrEqual(JUST_AFTER, EPOCH)
  {
    JustAfterInstant();
    CoarseChecksPass(parse, EPOCH, JUST_AFTER, CivilSeconds(CivilOf(EPOCH)));
  }

  /** A barrier that precedes the deadline passes the coarse check. */
  lemma {:induction false} EarlyBarrierPasses(parse: Text -> Option<int>)
    requires ParsesTimestamps(parse)
    ensures IsUtc(EPOCH) && IsUtc(JUST_AFTER)
    ensures BarrierAccepted(parse, EPOCH, JUST_AFTER) && !BeforeOrEqual(JUST_AFTER, EPOCH)
  {
    JustAfterInstant();
    CoarseChecksPass(parse, EPOCH, JUST_AFTER, CivilSeconds(CivilOf(EPOCH)));
  }
}
