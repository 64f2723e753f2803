/** What the store's history is, for callers that apply the steps of an attempt to records they have read. */
module AttemptHistory {
  import opened Wrappers
  import opened Utf16
  import opened AttemptRecord
  import opened AttemptStore
  import opened StoreMachine

  // --- callers that apply a step to a record they have got from the store ---------------------------------------------

  /** The record to be stored: a fresh attempt, or a step applied to a record that was there to read. */
  predicate KnownAttempt(commits: seq<Commit>, attempt: Record, step: Option<Step>, base: Option<Record>) {
    if step.None? then base.None? && IsFresh(attempt)
    else base.Some? && CommittedRecord(commits, base.value) && Apply(base.value, step.value) == Some(attempt)
  }

  predicate Known(commits: seq<Commit>, call: Call) {
    KnownAttempt(commits, call.op.next, call.step, call.base) && (call.step.Some? ==> call.op.Cas?)
  }

  /**
   Calls of the store directly, against any version, and calls of `persistAttempt`, which gets the
   version to compare with by itself; always with a known record.
   */
  predicate KnownMove(s: Store, m: Move) {
    && (m.action.Begin? ==> Known(s.commits, m.action.call))
    && (m.action.Persist? ==> KnownAttempt(s.commits, m.action.attempt, m.action.step, m.action.base))
  }

  ghost predicate KnownScript(s: Store, script: seq<Move>) {
    forall k :: 0 <= k < |script| ==> KnownMove(Run(s, script[..k]), script[k])
  }

  predicate HasCall(p: Process) { p.Opening? || p.Stamping? || p.Deciding? || Writing(p) }

  predicate ProcessKnown(commits: seq<Commit>, p: Process) {
    && (HasCall(p) ==> Known(commits, p.call))
    && (p.Persisting? ==> KnownAttempt(commits, p.attempt, p.step, p.base))
  }

  ghost predicate AllKnown(s: Store) {
    && (forall i :: 0 <= i < |s.procs| ==> ProcessKnown(s.commits, s.procs[i]))
    && (forall k :: 0 <= k < |s.commits| ==> Known(s.commits, s.commits[k].call))
  }

  lemma CommittedLasts(commits: seq<Commit>, c: Commit, r: Record)
    requires CommittedRecord(commits, r)
    ensures CommittedRecord(commits + [c], r)
  {
    var k :| 0 <= k < |commits| && commits[k].record == r;
    assert (commits + [c])[k].record == r;
  }

  lemma KnownLasts(commits: seq<Commit>, c: Commit, attempt: Record, step: Option<Step>, base: Option<Record>)
    requires KnownAttempt(commits, attempt, step, base)
    ensures KnownAttempt(commits + [c], attempt, step, base)
  {
    if step.Some? { CommittedLasts(commits, c, base.value); }
  }

  lemma RenameKeepsKnown(s: Store, i: nat)
    requires AllKnown(s) && i < |s.procs| && Do(s, i, Rename).Some?
    ensures AllKnown(Do(s, i, Rename).value)
  {
    var t, c := Do(s, i, Rename).value, Commit(s.procs[i].call, s.procs[i].next);
    forall j | 0 <= j < |t.procs| ensures ProcessKnown(t.commits, t.procs[j]) {
      var p := s.procs[j];
      assert ProcessKnown(s.commits, p);
      if HasCall(p) { KnownLasts(s.commits, c, p.call.op.next, p.call.step, p.call.base); }
      if p.Persisting? { KnownLasts(s.commits, c, p.attempt, p.step, p.base); }
    }
    forall k | 0 <= k < |t.commits| ensures Known(t.commits, t.commits[k].call) {
      assert ProcessKnown(s.commits, s.procs[i]);
      var call := t.commits[k].call;
      assert Known(s.commits, call);
      KnownLasts(s.commits, c, call.op.next, call.step, call.base);
    }
  }

  /** When the file is absent, nothing was committed, so only a fresh attempt can find it so. */
  lemma GetKeepsKnown(s: Store, i: nat)
    requires s.file == FileAfter(s.commits) && i < |s.procs| && ProcessKnown(s.commits, s.procs[i])
    requires Do(s, i, Get).Some?
    ensures ProcessKnown(s.commits, Do(s, i, Get).value.procs[i])
  {
  }

  lemma LockStepKeepsKnown(s: Store, i: nat, a: Action)
    requires i < |s.procs| && ProcessKnown(s.commits, s.procs[i]) && KnownMove(s, Move(i, a))
    requires !OnFiles(a) && !a.Get? && Do(s, i, a).Some?
    ensures ProcessKnown(s.commits, Do(s, i, a).value.procs[i])
  {
  }

  lemma FileStepKeepsKnown(s: Store, i: nat, a: Action)
    requires i < |s.procs| && ProcessKnown(s.commits, s.procs[i])
    requires OnFiles(a) && !a.Rename? && Do(s, i, a).Some?
    ensures ProcessKnown(s.commits, Do(s, i, a).value.procs[i])
  {
  }

  lemma StepKeepsKnown(s: Store, i: nat, a: Action)
    requires StoreMachine.Inv(s) && AllKnown(s) && i < |s.procs| && Do(s, i, a).Some? && KnownMove(s, Move(i, a))
    ensures AllKnown(Do(s, i, a).value)
  {
    if a.Rename? {
      RenameKeepsKnown(s, i);
    } else {
      var t := Do(s, i, a).value;
      StepKeepsCommits(s, i, a);
      assert ProcessKnown(s.commits, s.procs[i]);
      if a.Get? {
        GetKeepsKnown(s, i);
      } else if OnFiles(a) {
        FileStepKeepsKnown(s, i, a);
      } else {
        LockStepKeepsKnown(s, i, a);
      }
      forall j | 0 <= j < |t.procs| ensures ProcessKnown(t.commits, t.procs[j]) {
        if j != i { assert t.procs[j] == s.procs[j] && ProcessKnown(s.commits, s.procs[j]); }
      }
    }
  }

  lemma StepKeepsCommits(s: Store, i: nat, a: Action)
    requires i < |s.procs| && Do(s, i, a).Some? && !a.Rename?
    ensures Do(s, i, a).value.commits == s.commits && |Do(s, i, a).value.procs| == |s.procs|
    ensures forall j :: 0 <= j < |s.procs| && j != i ==> Do(s, i, a).value.procs[j] == s.procs[j]
  {
  }

  lemma KnownPrefix(s: Store, script: seq<Move>)
    requires script != [] && KnownScript(s, script)
    ensures KnownScript(s, script[..|script| - 1]) && KnownMove(Run(s, script[..|script| - 1]), script[|script| - 1])
  {
    var init := script[..|script| - 1];
    forall k | 0 <= k < |init| ensures KnownMove(Run(s, init[..k]), init[k]) {
      assert init[..k] == script[..k];
      assert KnownMove(Run(s, script[..k]), script[k]);
    }
  }

  lemma {:induction false} RunKeepsKnown(n: nat, script: seq<Move>)
    requires KnownScript(Start(n), script)
    ensures StoreMachine.Inv(Run(Start(n), script)) && AllKnown(Run(Start(n), script))
  {
    RunKeepsInv(Start(n), script);
    if script != [] {
      var init, m := script[..|script| - 1], script[|script| - 1];
      KnownPrefix(Start(n), script);
      RunKeepsKnown(n, init);
      var before := Run(Start(n), init);
      if m.who < |before.procs| && Do(before, m.who, m.action).Some? { StepKeepsKnown(before, m.who, m.action); }
    }
  }

  // --- when stale writers fail closed -------------------------------------------------------------------------------

  /** Commit `k` is the step of its caller, made from and applied to the very record that it replaced. */
  ghost predicate CommitSteps(commits: seq<Commit>, k: nat)
    requires k < |commits|
  {
    if k == 0 then IsFresh(commits[0].record)
    else
      && commits[k].call.step.Some? && commits[k].call.base == Some(commits[k - 1].record)
      && var next := Apply(commits[k - 1].record, commits[k].call.step.value);
         next.Some? && commits[k].record == next.value.(version := commits[k - 1].record.version + 1)
  }

  ghost predicate HistorySteps(commits: seq<Commit>) { forall k :: 0 <= k < |commits| ==> CommitSteps(commits, k) }

  /**
   What a caller can see before it compares: the record at hand was made by a step, and its version,
   which steps keep, is the version to compare with.
   */
  predicate Guarded(call: Call) { call.op.Cas? ==> call.step.Some? && call.op.next.version == call.op.expected }

  lemma ApplyKeepsIdentity(r: Record, step: Step)
    requires Apply(r, step).Some?
    ensures var x := Apply(r, step).value; x.attemptId == r.attemptId && x.mode == r.mode && x.version == r.version
  {
  }

  /** A committed record is determined by its version. */
  lemma VersionDetermines(commits: seq<Commit>, r: Record)
    requires Serial(commits) && CommittedRecord(commits, r)
    ensures 1 <= r.version <= |commits| && r == commits[r.version - 1].record
  {
    var k :| 0 <= k < |commits| && commits[k].record == r;
    SerialVersions(commits, k);
  }

  lemma StoredStep(last: Record, expected: int, step: Step)
    requires Apply(last, step).Some? && AtomicCas(Complete(last), expected, Apply(last, step).value).Ok?
    ensures AtomicCas(Complete(last), expected, Apply(last, step).value).value
         == Apply(last, step).value.(version := last.version + 1)
  {
    ApplyKeepsIdentity(last, step);
  }

  /** A commit is a proper step exactly when its call was guarded. */
  lemma CommitStepsExactly(commits: seq<Commit>, k: nat)
    requires Serial(commits) && 0 < k < |commits| && Known(commits, commits[k].call)
    ensures CommitSteps(commits, k) <==> Guarded(commits[k].call)
  {
    var call, last := commits[k].call, commits[k - 1].record;
    SerialVersions(commits, k);
    SerialVersions(commits, k - 1);
    assert FileAfter(commits[..k]) == Complete(last);
    if call.step.Some? {
      ApplyKeepsIdentity(call.base.value, call.step.value);
      VersionDetermines(commits, call.base.value);
      if call.base == Some(last) { StoredStep(last, call.op.expected, call.step.value); }
    }
  }

  lemma FirstCommitIsFresh(commits: seq<Commit>)
    requires Serial(commits) && commits != [] && Known(commits, commits[0].call)
    ensures CommitSteps(commits, 0)
  {
    SerialVersions(commits, 0);
    assert commits[..0] == [];
  }

  /**
   Stale writers fail closed, so that every commit is its caller's step on the record it replaced,
   exactly when every committed compare-and-set carried a record of the version it was compared with.
   */
  lemma {:induction false} StaleWritersExactly(n: nat, script: seq<Move>)
    requires KnownScript(Start(n), script)
    ensures var c := Run(Start(n), script).commits;
            HistorySteps(c) <==> forall k :: 0 < k < |c| ==> Guarded(c[k].call)
  {
    RunKeepsKnown(n, script);
    var c := Run(Start(n), script).commits;
    forall k | 0 <= k < |c| ensures CommitSteps(c, k) <==> k == 0 || Guarded(c[k].call) {
      if k == 0 { FirstCommitIsFresh(c); } else { CommitStepsExactly(c, k); }
    }
  }

  lemma GetGuards(s: Store, i: nat)
    requires StoreMachine.Inv(s) && i < |s.procs| && ProcessKnown(s.commits, s.procs[i])
    requires s.procs[i].Persisting? && s.procs[i].step.Some?
    ensures var t := Next(s, Move(i, Get));
            && s.commits != [] && t.procs[i].Opening? && t.procs[i].call.op.Cas?
            && t.procs[i].call.op.expected == |s.commits|
            && (Guarded(t.procs[i].call) <==> s.procs[i].base == Some(s.commits[|s.commits| - 1].record))
  {
    var p, k := s.procs[i], |s.commits| - 1;
    VersionDetermines(s.commits, p.base.value);
    ApplyKeepsIdentity(p.base.value, p.step.value);
    CommittedIsValid(s.commits, k);
    assert Do(s, i, Get)
        == Some(With(s, i, Opening(Call(Cas(k + 1, p.attempt), p.step, p.base), s.nextToken)).(nextToken := s.nextToken + 1));
  }

  /** `persistAttempt` gets the current version: its call is guarded exactly when the base is still the last record. */
  lemma {:induction false} GetGuardsExactly(n: nat, script: seq<Move>, i: nat)
    requires KnownScript(Start(n), script)
    requires var s := Run(Start(n), script); i < |s.procs| && s.procs[i].Persisting? && s.procs[i].step.Some?
    ensures var s := Run(Start(n), script); var t := Next(s, Move(i, Get));
            && s.commits != [] && t.procs[i].Opening? && t.procs[i].call.op.Cas?
            && t.procs[i].call.op.expected == |s.commits|
            && (Guarded(t.procs[i].call) <==> s.procs[i].base == Some(s.commits[|s.commits| - 1].record))
  {
    RunKeepsKnown(n, script);
    GetGuards(Run(Start(n), script), i);
  }

  /** A known step fits the attempt in the file and passes its validation. */
  lemma KnownStepFits(commits: seq<Commit>, call: Call)
    requires Serial(commits) && Known(commits, call) && call.op.Cas? && call.step.Some?
    ensures commits != [] && ParseOk(call.op.next)
    ensures var last := commits[|commits| - 1].record;
            last.attemptId == call.op.next.attemptId && last.mode == call.op.next.mode
  {
    var base := call.base.value;
    VersionDetermines(commits, base);
    SerialVersions(commits, base.version - 1);
    SerialVersions(commits, |commits| - 1);
    CommittedIsValid(commits, base.version - 1);
    ApplyKeepsIdentity(base, call.step.value);
    StepPassesValidation(base, call.step.value);
  }

  lemma CommittedIsValid(commits: seq<Commit>, k: nat)
    requires Serial(commits) && k < |commits|
    ensures ParseOk(commits[k].record) && commits[k].record.version == k + 1
  {
    SerialVersions(commits, k);
    AtomicAdvances(FileAfter(commits[..k]), commits[k].call.op);
  }

  lemma FittingAccepted(current: Record, expected: int, next: Record)
    requires ParseOk(current) && ParseOk(next) && current.attemptId == next.attemptId && current.mode == next.mode
    ensures AtomicCas(Complete(current), expected, next).Ok? <==> expected == current.version
  {
  }

  lemma KnownStepAccepted(commits: seq<Commit>, call: Call)
    requires Serial(commits) && Known(commits, call) && call.op.Cas? && call.step.Some?
    ensures Atomic(FileAfter(commits), call.op).Ok? <==> call.op.expected == |commits|
  {
    KnownStepFits(commits, call);
    CommittedIsValid(commits, |commits| - 1);
    FittingAccepted(commits[|commits| - 1].record, call.op.expected, call.op.next);
  }

  lemma Decides(s: Store, i: nat)
    requires StoreMachine.Inv(s) && i < |s.procs| && ProcessKnown(s.commits, s.procs[i])
    requires s.procs[i].Deciding? && s.procs[i].call.op.Cas? && s.procs[i].call.step.Some?
    ensures var t := Next(s, Move(i, Decide));
            if s.procs[i].call.op.expected == |s.commits| then t.procs[i].OpeningTemp?
            else t.procs[i] == Releasing(s.procs[i].token, None)
  {
    KnownStepAccepted(s.commits, s.procs[i].call);
  }

  /** Under the lock, a known step is refused exactly when something was committed since its version was got. */
  lemma {:induction false} DecideExactly(n: nat, script: seq<Move>, i: nat)
    requires KnownScript(Start(n), script)
    requires var s := Run(Start(n), script); i < |s.procs| && s.procs[i].Deciding?
    requires var call := Run(Start(n), script).procs[i].call; call.op.Cas? && call.step.Some?
    ensures var s := Run(Start(n), script); var t := Next(s, Move(i, Decide));
            if s.procs[i].call.op.expected == |s.commits| then t.procs[i].OpeningTemp?
            else t.procs[i] == Releasing(s.procs[i].token, None)
  {
    RunKeepsKnown(n, script);
    Decides(Run(Start(n), script), i);
  }

  function Records(commits: seq<Commit>): (h: seq<Record>)
    ensures |h| == |commits| && forall k :: 0 <= k < |h| ==> h[k] == commits[k].record
  {
    seq(|commits|, k requires 0 <= k < |commits| => commits[k].record)
  }

  lemma StepsAreKnown(commits: seq<Commit>)
    requires HistorySteps(commits)
    ensures forall k :: 0 < k < |commits| ==> commits[k].call.step.Some?
  {
    forall k | 0 < k < |commits| ensures commits[k].call.step.Some? { assert CommitSteps(commits, k); }
  }

  /** The steps that the commits after the first were made by. */
  ghost function StepsOf(commits: seq<Commit>): (steps: seq<Step>)
    requires commits != [] && HistorySteps(commits)
    ensures |steps| == |commits| - 1
    ensures forall k :: 0 <= k < |steps| ==> commits[k + 1].call.step == Some(steps[k])
  {
    StepsAreKnown(commits);
    seq(|commits| - 1, k requires 0 <= k < |commits| - 1 => commits[k + 1].call.step.value)
  }

  lemma HistoryIsChain(commits: seq<Commit>)
    requires commits != [] && HistorySteps(commits)
    ensures Chain(Records(commits), StepsOf(commits))
  {
    var h, steps := Records(commits), StepsOf(commits);
    assert CommitSteps(commits, 0);
    forall k | 0 <= k < |steps| ensures StepsThrough(h, steps, k) {
      assert CommitSteps(commits, k + 1);
    }
  }

  /** While every committed compare-and-set was guarded, no claim was committed twice. */
  lemma {:induction false} GuardedClaimsOnce(n: nat, script: seq<Move>, i: nat, j: nat)
    requires KnownScript(Start(n), script)
    requires forall k :: 0 < k < |Run(Start(n), script).commits| ==> Guarded(Run(Start(n), script).commits[k].call)
    requires 0 < i < j < |Run(Start(n), script).commits|
    ensures var c := Run(Start(n), script).commits;
            c[i].call.step.Some? && c[j].call.step.Some? && !SameClaim(c[i].call.step.value, c[j].call.step.value)
  {
    StaleWritersExactly(n, script);
    var c := Run(Start(n), script).commits;
    HistoryIsChain(c);
    AtMostOneClaim(Records(c), StepsOf(c), i - 1, j - 1);
    assert c[i - 1 + 1].call.step == Some(StepsOf(c)[i - 1]) && c[j - 1 + 1].call.step == Some(StepsOf(c)[j - 1]);
  }

  // --- persistAttempt lets a stale claim through, or refuses it -----------------------------------------------------

  /** One whole call of `persistAttempt` that nobody disturbs. */
  function PersistOperations(i: nat, attempt: Record, step: Option<Step>, base: Option<Record>): seq<Move> {
    [Move(i, Persist(attempt, step, base)), Move(i, Get)] + Operations(i)
  }

  predicate PersistsOnly(script: seq<Move>) { forall k :: 0 <= k < |script| ==> !script[k].action.Begin? }

  /** The call that `persistAttempt` makes of the store. */
  function PersistCall(file: FileContent, attempt: Record, step: Option<Step>, base: Option<Record>): Call
    requires file != Partial
  {
    Call(if file == Absent then Create(attempt) else Cas(file.record.version, attempt), step, base)
  }

  lemma GetPhase(s: Store, i: nat, attempt: Record, step: Option<Step>, base: Option<Record>)
    requires i < |s.procs| && s.procs[i] == Idle && s.file != Partial && (s.file.Complete? ==> ParseOk(s.file.record))
    ensures Run(s, [Move(i, Persist(attempt, step, base)), Move(i, Get)])
         == s.(procs := s.procs[i := Opening(PersistCall(s.file, attempt, step, base), s.nextToken)],
               nextToken := s.nextToken + 1)
  {
    var begin, get := Move(i, Persist(attempt, step, base)), Move(i, Get);
    assert [begin, get] == [begin] + [get];
    RunAppend(s, [begin], [get]);
    RunOne(s, begin);
    RunOne(Next(s, begin), get);
  }

  lemma PersistSucceeds(s: Store, i: nat, attempt: Record, step: Option<Step>, base: Option<Record>)
    requires i < |s.procs| && s.procs[i] == Idle && s.file != Partial && (s.file.Complete? ==> ParseOk(s.file.record))
    requires s.lock == NoLock && Atomic(s.file, PersistCall(s.file, attempt, step, base).op).Ok?
    ensures var t := Run(s, PersistOperations(i, attempt, step, base));
            var call := PersistCall(s.file, attempt, step, base);
            var r := Atomic(s.file, call.op).value;
            && t.file == Complete(r) && t.lock == NoLock && t.procs == s.procs
            && t.commits == s.commits + [Commit(call, r)]
  {
    var begin := [Move(i, Persist(attempt, step, base)), Move(i, Get)];
    var call := PersistCall(s.file, attempt, step, base);
    GetPhase(s, i, attempt, step, base);
    RunAppend(s, begin, Operations(i));
    SoloCallSucceeds(Run(s, begin), i, call, s.nextToken);
    assert s.procs[i := Opening(call, s.nextToken)][i := Idle] == s.procs;
  }

  lemma KnownAppend(s: Store, a: seq<Move>, b: seq<Move>)
    requires KnownScript(s, a) && KnownScript(Run(s, a), b)
    ensures KnownScript(s, a + b)
  {
    var all := a + b;
    forall k | 0 <= k < |all| ensures KnownMove(Run(s, all[..k]), all[k]) {
      if k < |a| {
        assert all[..k] == a[..k];
        assert KnownMove(Run(s, a[..k]), a[k]);
      } else {
        assert all[..k] == a + b[..k - |a|];
        RunAppend(s, a, b[..k - |a|]);
        assert KnownMove(Run(Run(s, a), b[..k - |a|]), b[k - |a|]);
      }
    }
  }

  /** Moves that start nothing are always known. */
  lemma KnownOperations(s: Store, script: seq<Move>)
    requires forall k :: 0 <= k < |script| ==> !script[k].action.Begin? && !script[k].action.Persist?
    ensures KnownScript(s, script)
  {
  }

  lemma PersistIsKnown(s: Store, i: nat, attempt: Record, step: Option<Step>, base: Option<Record>)
    requires KnownAttempt(s.commits, attempt, step, base)
    ensures KnownScript(s, [Move(i, Persist(attempt, step, base)), Move(i, Get)])
    ensures KnownScript(s, PersistOperations(i, attempt, step, base))
  {
    var first, get := [Move(i, Persist(attempt, step, base))], [Move(i, Get)];
    assert first[..0] == [];
    assert KnownScript(s, first);
    KnownOperations(Run(s, first), get);
    KnownAppend(s, first, get);
    assert first + get == [Move(i, Persist(attempt, step, base)), Move(i, Get)];
    KnownOperations(Run(s, first + get), Operations(i));
    KnownAppend(s, first + get, Operations(i));
  }

  /** The record of a topic claim on a fresh attempt. */
  function Claim(r: Record, id: Text): Record {
    r.(status := TopicCreateClaimed, topicClaim := TopicClaim(Some(id), TopicStatus.Claimed))
  }

  lemma ClaimIsStep(attemptId: Text, id: Text, v: int)
    requires IsSafeId(attemptId)
    ensures var r := FreshAttempt(attemptId, Live);
            && ParseOk(r) && IsFresh(r) && Apply(r, ClaimTopic(id)) == Some(Claim(r, id))
            && (v >= 1 ==> ParseOk(Claim(r, id).(version := v)))
  {
  }

  /** Process 0 creates the attempt. */
  function CreateScript(attemptId: Text): seq<Move> {
    PersistOperations(0, FreshAttempt(attemptId, Live), None, None)
  }

  function ClaimScript(i: nat, attemptId: Text, id: Text): seq<Move> {
    var r := FreshAttempt(attemptId, Live);
    PersistOperations(i, Claim(r, id), Some(ClaimTopic(id)), Some(r))
  }

  ghost predicate AfterCreate(s: Store, attemptId: Text) {
    && s.file == Complete(FreshAttempt(attemptId, Live)) && s.lock == NoLock && s.procs == [Idle, Idle]
    && |s.commits| == 1 && s.commits[0].record == FreshAttempt(attemptId, Live)
  }

  lemma CreateRuns(attemptId: Text)
    requires IsSafeId(attemptId)
    ensures KnownScript(Start(2), CreateScript(attemptId)) && AfterCreate(Run(Start(2), CreateScript(attemptId)), attemptId)
  {
    var r := FreshAttempt(attemptId, Live);
    ClaimIsStep(attemptId, [], 1);
    PersistIsKnown(Start(2), 0, r, None, None);
    PersistSucceeds(Start(2), 0, r, None, None);
  }

  /** A claim made from the first record is stored over whatever record of the attempt is there. */
  lemma ClaimRuns(s: Store, i: nat, attemptId: Text, id: Text)
    requires IsSafeId(attemptId) && s.lock == NoLock && i < |s.procs| && s.procs[i] == Idle
    requires CommittedRecord(s.commits, FreshAttempt(attemptId, Live))
    requires s.file.Complete? && ParseOk(s.file.record) && s.file.record.attemptId == attemptId && s.file.record.mode == Live
    ensures KnownScript(s, ClaimScript(i, attemptId, id))
    ensures var t := Run(s, ClaimScript(i, attemptId, id)); var r := FreshAttempt(attemptId, Live);
            var stored := Claim(r, id).(version := s.file.record.version + 1);
            && t.file == Complete(stored) && ParseOk(stored) && t.lock == NoLock && t.procs == s.procs
            && t.commits == s.commits + [Commit(PersistCall(s.file, Claim(r, id), Some(ClaimTopic(id)), Some(r)), stored)]
  {
    var r := FreshAttempt(attemptId, Live);
    ClaimIsStep(attemptId, id, s.file.record.version + 1);
    PersistIsKnown(s, i, Claim(r, id), Some(ClaimTopic(id)), Some(r));
    PersistSucceeds(s, i, Claim(r, id), Some(ClaimTopic(id)), Some(r));
  }

  lemma ScriptsPersistOnly(attemptId: Text, a: Text, b: Text)
    ensures PersistsOnly(CreateScript(attemptId)) && PersistsOnly(ClaimScript(0, attemptId, a))
    ensures PersistsOnly(ClaimScript(1, attemptId, b)) && PersistsOnly(GetClaim(attemptId, b))
    ensures PersistsOnly(Operations(1)[..3])
  {
  }

  lemma PersistsOnlyAppend(x: seq<Move>, y: seq<Move>)
    requires PersistsOnly(x) && PersistsOnly(y)
    ensures PersistsOnly(x + y)
  {
  }

  /** Two processes that both start from the first record; the second gets the version after the first's claim. */
  function DoubleClaim(attemptId: Text, a: Text, b: Text): seq<Move> {
    CreateScript(attemptId) + (ClaimScript(0, attemptId, a) + ClaimScript(1, attemptId, b))
  }

  /** Two committed topic claims, the second of them unguarded and over the first. */
  predicate TwoClaims(c: seq<Commit>, a: Text, b: Text) {
    && |c| == 3 && c[1].call.step == Some(ClaimTopic(a)) && c[2].call.step == Some(ClaimTopic(b))
    && Guarded(c[1].call) && !Guarded(c[2].call)
    && c[2].record.topicClaim == TopicClaim(Some(b), TopicStatus.Claimed)
  }

  /** After the first record, the two claims in a row. */
  lemma ClaimTwice(s: Store, attemptId: Text, a: Text, b: Text)
    requires IsSafeId(attemptId) && AfterCreate(s, attemptId)
    ensures KnownScript(s, ClaimScript(0, attemptId, a) + ClaimScript(1, attemptId, b))
    ensures TwoClaims(Run(s, ClaimScript(0, attemptId, a) + ClaimScript(1, attemptId, b)).commits, a, b)
  {
    var r := FreshAttempt(attemptId, Live);
    ClaimIsStep(attemptId, a, 1);
    assert CommittedRecord(s.commits, r);
    ClaimRuns(s, 0, attemptId, a);
    var t := Run(s, ClaimScript(0, attemptId, a));
    CommittedLasts(s.commits, t.commits[1], r);
    ClaimRuns(t, 1, attemptId, b);
    KnownAppend(s, ClaimScript(0, attemptId, a), ClaimScript(1, attemptId, b));
    RunAppend(s, ClaimScript(0, attemptId, a), ClaimScript(1, attemptId, b));
  }

  /** Both topic claims are committed: the stale writer does not fail. */
  lemma PersistCommitsTwoTopicClaims(attemptId: Text, a: Text, b: Text)
    requires IsSafeId(attemptId)
    ensures KnownScript(Start(2), DoubleClaim(attemptId, a, b)) && PersistsOnly(DoubleClaim(attemptId, a, b))
    ensures TwoClaims(Run(Start(2), DoubleClaim(attemptId, a, b)).commits, a, b)
  {
    var claims := ClaimScript(0, attemptId, a) + ClaimScript(1, attemptId, b);
    CreateRuns(attemptId);
    ClaimTwice(Run(Start(2), CreateScript(attemptId)), attemptId, a, b);
    KnownAppend(Start(2), CreateScript(attemptId), claims);
    RunAppend(Start(2), CreateScript(attemptId), claims);
    ScriptsPersistOnly(attemptId, a, b);
    PersistsOnlyAppend(ClaimScript(0, attemptId, a), ClaimScript(1, attemptId, b));
    PersistsOnlyAppend(CreateScript(attemptId), claims);
  }

  /** As before, but process 1 gets the version before the claim of process 0 is stored. */
  function OvertakenClaim(attemptId: Text, a: Text, b: Text): seq<Move> {
    CreateScript(attemptId) + (GetClaim(attemptId, b) + (ClaimScript(0, attemptId, a) + Operations(1)[..3]))
  }

  function GetClaim(attemptId: Text, b: Text): seq<Move> {
    var r := FreshAttempt(attemptId, Live);
    [Move(1, Persist(Claim(r, b), Some(ClaimTopic(b)), Some(r))), Move(1, Get)]
  }

  /** The state after the version was got: process 1 is about to open the lock file. */
  ghost predicate AfterGet(s: Store, attemptId: Text, b: Text) {
    var r := FreshAttempt(attemptId, Live);
    && s.file == Complete(r) && s.lock == NoLock
    && (exists token :: s.procs == [Idle, Opening(Call(Cas(1, Claim(r, b)), Some(ClaimTopic(b)), Some(r)), token)])
    && |s.commits| == 1 && s.commits[0].record == r
  }

  lemma GetRuns(s: Store, attemptId: Text, b: Text)
    requires IsSafeId(attemptId) && AfterCreate(s, attemptId)
    ensures KnownScript(s, GetClaim(attemptId, b)) && AfterGet(Run(s, GetClaim(attemptId, b)), attemptId, b)
  {
    var r := FreshAttempt(attemptId, Live);
    ClaimIsStep(attemptId, b, 1);
    assert CommittedRecord(s.commits, r);
    PersistIsKnown(s, 1, Claim(r, b), Some(ClaimTopic(b)), Some(r));
    GetPhase(s, 1, Claim(r, b), Some(ClaimTopic(b)), Some(r));
  }

  /** One topic claim is committed, and process 1 is about to report a failure. */
  predicate Refused(s: Store, a: Text) {
    && |s.procs| == 2 && s.procs[1].Releasing? && s.procs[1].outcome == None
    && |s.commits| == 2 && s.commits[1].call.step == Some(ClaimTopic(a))
  }

  lemma RefusedAt(s: Store, i: nat, call: Call, token: nat)
    requires i < |s.procs| && s.procs[i] == Opening(call, token) && s.lock == NoLock && Atomic(s.file, call.op).Err?
    ensures var t := Run(s, Operations(i)[..3]);
            t.procs == s.procs[i := Releasing(token, None)] && t.commits == s.commits
  {
    DecidePhase(s, i, call, token);
  }

  lemma OvertakenIsRefused(s: Store, attemptId: Text, a: Text, b: Text)
    requires IsSafeId(attemptId) && AfterGet(s, attemptId, b)
    ensures KnownScript(s, ClaimScript(0, attemptId, a) + Operations(1)[..3])
    ensures Refused(Run(s, ClaimScript(0, attemptId, a) + Operations(1)[..3]), a)
  {
    var r := FreshAttempt(attemptId, Live);
    var call := Call(Cas(1, Claim(r, b)), Some(ClaimTopic(b)), Some(r));
    ClaimIsStep(attemptId, a, 1);
    assert CommittedRecord(s.commits, r);
    ClaimRuns(s, 0, attemptId, a);
    var t := Run(s, ClaimScript(0, attemptId, a));
    var token :| s.procs == [Idle, Opening(call, token)];
    RefusedAt(t, 1, call, token);
    KnownOperations(t, Operations(1)[..3]);
    KnownAppend(s, ClaimScript(0, attemptId, a), Operations(1)[..3]);
    RunAppend(s, ClaimScript(0, attemptId, a), Operations(1)[..3]);
  }

  /** The same two callers in another order: the second is refused, and one claim is committed. */
  lemma PersistRefusesOvertakenClaim(attemptId: Text, a: Text, b: Text)
    requires IsSafeId(attemptId)
    ensures KnownScript(Start(2), OvertakenClaim(attemptId, a, b)) && PersistsOnly(OvertakenClaim(attemptId, a, b))
    ensures Refused(Run(Start(2), OvertakenClaim(attemptId, a, b)), a)
  {
    var rest := ClaimScript(0, attemptId, a) + Operations(1)[..3];
    CreateRuns(attemptId);
    var s := Run(Start(2), CreateScript(attemptId));
    GetRuns(s, attemptId, b);
    OvertakenIsRefused(Run(s, GetClaim(attemptId, b)), attemptId, a, b);
    KnownAppend(s, GetClaim(attemptId, b), rest);
    RunAppend(s, GetClaim(attemptId, b), rest);
    KnownAppend(Start(2), CreateScript(attemptId), GetClaim(attemptId, b) + rest);
    RunAppend(Start(2), CreateScript(attemptId), GetClaim(attemptId, b) + rest);
    OvertakenPersistsOnly(attemptId, a, b);
  }

  lemma OvertakenPersistsOnly(attemptId: Text, a: Text, b: Text)
    ensures PersistsOnly(OvertakenClaim(attemptId, a, b))
  {
    ScriptsPersistOnly(attemptId, a, b);
    PersistsOnlyAppend(ClaimScript(0, attemptId, a), Operations(1)[..3]);
    PersistsOnlyAppend(GetClaim(attemptId, b), ClaimScript(0, attemptId, a) + Operations(1)[..3]);
    PersistsOnlyAppend(CreateScript(attemptId), GetClaim(attemptId, b) + (ClaimScript(0, attemptId, a) + Operations(1)[..3]));
  }

  // --- processes that get, apply a step, and compare-and-set with the version they got ------------------------------

  /** Only guarded calls of the store are begun, and none through `persistAttempt`. */
  ghost predicate DisciplinedScript(s: Store, script: seq<Move>) {
    && KnownScript(s, script)
    && forall k :: 0 <= k < |script| ==> !script[k].action.Persist? && (script[k].action.Begin? ==> Guarded(script[k].action.call))
  }

  ghost predicate AllGuarded(s: Store) {
    && (forall i :: 0 <= i < |s.procs| ==> !s.procs[i].Persisting? && (HasCall(s.procs[i]) ==> Guarded(s.procs[i].call)))
    && (forall k :: 0 <= k < |s.commits| ==> Guarded(s.commits[k].call))
  }

  lemma StepKeepsGuarded(s: Store, i: nat, a: Action)
    requires AllGuarded(s) && i < |s.procs| && Do(s, i, a).Some?
    requires !a.Persist? && (a.Begin? ==> Guarded(a.call))
    ensures AllGuarded(Do(s, i, a).value)
  {
  }

  lemma {:induction false} RunKeepsGuarded(n: nat, script: seq<Move>)
    requires forall k :: 0 <= k < |script| ==>
      !script[k].action.Persist? && (script[k].action.Begin? ==> Guarded(script[k].action.call))
    ensures AllGuarded(Run(Start(n), script))
  {
    if script != [] {
      var init, m := script[..|script| - 1], script[|script| - 1];
      RunKeepsGuarded(n, init);
      var before := Run(Start(n), init);
      if m.who < |before.procs| && Do(before, m.who, m.action).Some? { StepKeepsGuarded(before, m.who, m.action); }
    }
  }

  lemma {:induction false} DisciplinedHistory(n: nat, script: seq<Move>)
    requires DisciplinedScript(Start(n), script)
    ensures HistorySteps(Run(Start(n), script).commits)
  {
    RunKeepsGuarded(n, script);
    StaleWritersExactly(n, script);
  }

  /**
   Among any number of disciplined processes with crashes anywhere, at most one successful
   compare-and-set in the whole history carries a topic claim, and at most one a claim of each message.
   */
  lemma {:induction false} AtMostOneClaimEver(n: nat, script: seq<Move>, i: nat, j: nat)
    requires DisciplinedScript(Start(n), script)
    requires 0 < i < j < |Run(Start(n), script).commits|
    ensures var c := Run(Start(n), script).commits;
            c[i].call.step.Some? && c[j].call.step.Some? && !SameClaim(c[i].call.step.value, c[j].call.step.value)
  {
    RunKeepsGuarded(n, script);
    GuardedClaimsOnce(n, script, i, j);
  }

  /** The topic of an attempt, once stored, is the same in every later record. */
  lemma {:induction false} TopicIsStable(n: nat, script: seq<Move>, i: nat, j: nat)
    requires DisciplinedScript(Start(n), script)
    requires i <= j < |Run(Start(n), script).commits| && Run(Start(n), script).commits[i].record.topicId.Some?
    ensures var c := Run(Start(n), script).commits; c[j].record.topicId == c[i].record.topicId
  {
    DisciplinedHistory(n, script);
    var c := Run(Start(n), script).commits;
    HistoryIsChain(c);
    TopicNeverChanges(Records(c), StepsOf(c), i, j);
  }

  /** The stored outbox is always a confirmed prefix, at most one message in flight, and untouched messages. */
  lemma {:induction false} StoredOutboxIsOrdered(n: nat, script: seq<Move>)
    requires DisciplinedScript(Start(n), script)
    ensures var s := Run(Start(n), script);
            s.file.Complete? ==> AttemptRecord.Inv(s.file.record) && InOrder(s.file.record.outbox)
  {
    DisciplinedHistory(n, script);
    RunKeepsInv(Start(n), script);
    var c := Run(Start(n), script).commits;
    if c != [] {
      HistoryIsChain(c);
      ChainInv(Records(c), StepsOf(c), |c| - 1);
    }
  }

  /** A stored record that may be started again has no claim behind it in the whole history. */
  lemma {:induction false} RestartForgetsNothing(n: nat, script: seq<Move>, i: nat)
    requires DisciplinedScript(Start(n), script)
    requires var s := Run(Start(n), script); 0 < i < |s.commits| && s.file.Complete? && SafeToStart(Some(s.file.record))
    ensures var c := Run(Start(n), script).commits;
            && c[i].call.step.Some?
            && var step := c[i].call.step.value; !step.ClaimTopic? && !step.ClaimMessage? && !step.RecordPayment?
  {
    DisciplinedHistory(n, script);
    RunKeepsInv(Start(n), script);
    var c := Run(Start(n), script).commits;
    HistoryIsChain(c);
    SafeToStartMeansUnclaimed(Records(c), StepsOf(c), |c| - 1, i - 1);
    assert c[i - 1 + 1].call.step == Some(StepsOf(c)[i - 1]);
  }
}
