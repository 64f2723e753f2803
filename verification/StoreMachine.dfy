/**
 Any number of processes on one attempt store, interleaved at each file operation, with crashes
 and restarts anywhere.
 */
module StoreMachine {
  import opened Wrappers
  import opened Utf16
  import opened AttemptRecord
  import opened AttemptStore

  /**
   An operation, with the record that the caller started from and the step that it made its record by,
   if any. The store never looks at `base` and `step`.
   */
  datatype Call = Call(op: Op, step: Option<Step>, base: Option<Record>)

  /** Where a process stands. A token is drawn afresh for each call. */
  datatype Process =
    | Idle
    | Persisting(attempt: Record, step: Option<Step>, base: Option<Record>)
    | Opening(call: Call, token: nat)
    | Stamping(call: Call, token: nat)
    | Deciding(call: Call, token: nat)
    | OpeningTemp(call: Call, token: nat, next: Record)
    | FillingTemp(call: Call, token: nat, next: Record)
    | Renaming(call: Call, token: nat, next: Record)
    | Releasing(token: nat, outcome: Option<Record>)
    | Unlinking(token: nat, outcome: Option<Record>)
    | Crashed

  /** The lock file on disk: who created it, and the token written into it once it is written. */
  datatype Lock = NoLock | Lock(maker: nat, text: Option<nat>)

  datatype Commit = Commit(call: Call, record: Record)

  /** `commits` is the log of the records that were moved into place. */
  datatype Store = Store(
    procs: seq<Process>, lock: Lock, file: FileContent, temps: map<nat, FileContent>, nextToken: nat,
    commits: seq<Commit>)

  datatype Action =
    | Begin(call: Call) | Persist(attempt: Record, step: Option<Step>, base: Option<Record>) | Get | OpenLock | GiveUp | Stamp | StampFails | Decide | OpenTemp | FillTemp | Rename
    | WriteFails | ReadLock | Unlink | ReleaseFails | Crash | Restart

  predicate HasToken(p: Process) { !p.Idle? && !p.Persisting? && !p.Crashed? }

  /** Between creating the lock file and removing it. */
  predicate Holding(p: Process) { HasToken(p) && !p.Opening? }

  predicate Writing(p: Process) { p.OpeningTemp? || p.FillingTemp? || p.Renaming? }

  function With(s: Store, i: nat, p: Process): Store
    requires i < |s.procs|
  {
    s.(procs := s.procs[i := p])
  }

  // --- one file operation of process i; None when it is not the turn of that operation -------------------

  function DoLock(s: Store, i: nat, a: Action): Option<Store>
    requires i < |s.procs|
  {
    var p := s.procs[i];
    match a
    case Begin(call) =>
      if !p.Idle? then None else Some(With(s, i, Opening(call, s.nextToken)).(nextToken := s.nextToken + 1))
    case Persist(attempt, step, base) =>
      if !p.Idle? then None else Some(With(s, i, Persisting(attempt, step, base)))
    case Get =>
      // `persistAttempt` reads the record, outside the lock, for the version to compare with.
      if !p.Persisting? then None
      else if s.file == Partial || (s.file.Complete? && !ParseOk(s.file.record)) then Some(With(s, i, Idle))
      else
        var op := if s.file == Absent then Create(p.attempt) else Cas(s.file.record.version, p.attempt);
        Some(With(s, i, Opening(Call(op, p.step, p.base), s.nextToken)).(nextToken := s.nextToken + 1))
    case OpenLock =>
      if !p.Opening? || s.lock.Lock? then None
      else Some(With(s, i, Stamping(p.call, p.token)).(lock := Lock(p.token, None)))
    case GiveUp =>
      if !p.Opening? then None else Some(With(s, i, Idle))
    case Stamp =>
      // The metadata goes to the file that this process created, wherever the path now leads.
      if !p.Stamping? then None
      else
        var written := if s.lock.Lock? && s.lock.maker == p.token then s.lock.(text := Some(p.token)) else s.lock;
        Some(With(s, i, Deciding(p.call, p.token)).(lock := written))
    case StampFails =>
      if !p.Stamping? then None else Some(With(s, i, Idle))
    case ReadLock =>
      if !p.Releasing? then None
      else if s.lock.Lock? && s.lock.text == Some(p.token) then Some(With(s, i, Unlinking(p.token, p.outcome)))
      else Some(With(s, i, Idle))
    case Unlink =>
      // The path is removed, whoever created the file it leads to.
      if !p.Unlinking? then None else Some(With(s, i, Idle).(lock := NoLock))
    case ReleaseFails =>
      if !p.Releasing? && !p.Unlinking? then None else Some(With(s, i, Idle))
    case Crash => Some(With(s, i, Crashed))
    case Restart => if !p.Crashed? then None else Some(With(s, i, Idle))
    case _ => None
  }

  function DoFile(s: Store, i: nat, a: Action): Option<Store>
    requires i < |s.procs|
  {
    var p := s.procs[i];
    match a
    case Decide =>
      if !p.Deciding? then None
      else
        var decision := Atomic(s.file, p.call.op);
        Some(With(s, i, if decision.Ok? then OpeningTemp(p.call, p.token, decision.value) else Releasing(p.token, None)))
    case OpenTemp =>
      if !p.OpeningTemp? then None
      else Some(With(s, i, FillingTemp(p.call, p.token, p.next)).(temps := s.temps[p.token := Partial]))
    case FillTemp =>
      if !p.FillingTemp? then None
      else Some(With(s, i, Renaming(p.call, p.token, p.next)).(temps := s.temps[p.token := Complete(p.next)]))
    case Rename =>
      if !p.Renaming? || p.token !in s.temps then None
      else Some(With(s, i, Releasing(p.token, Some(p.next))).(
        file := s.temps[p.token], temps := s.temps - {p.token}, commits := s.commits + [Commit(p.call, p.next)]))
    case WriteFails =>
      if !Writing(p) then None else Some(With(s, i, Releasing(p.token, None)))
    case _ => None
  }

  predicate OnFiles(a: Action) { a.Decide? || a.OpenTemp? || a.FillTemp? || a.Rename? || a.WriteFails? }

  function Do(s: Store, i: nat, a: Action): Option<Store>
    requires i < |s.procs|
  {
    if OnFiles(a) then DoFile(s, i, a) else DoLock(s, i, a)
  }

  // --- the invariant ------------------------------------------------------------------------------------------

  /** Tokens are drawn from below `nextToken` and no two processes use one. */
  ghost predicate TokensDistinct(s: Store) {
    && (forall i :: 0 <= i < |s.procs| && HasToken(s.procs[i]) ==> s.procs[i].token < s.nextToken)
    && (forall i, j :: 0 <= i < j < |s.procs| && HasToken(s.procs[i]) && HasToken(s.procs[j]) ==>
          s.procs[i].token != s.procs[j].token)
  }

  /** A process that thinks it holds the lock created the lock file that is there. */
  ghost predicate LockSound(s: Store) {
    && (s.lock.Lock? && s.lock.text.Some? ==> s.lock.text.value == s.lock.maker)
    && (forall i :: 0 <= i < |s.procs| && Holding(s.procs[i]) ==>
          s.lock.Lock? && s.lock.maker == s.procs[i].token)
  }

  function FileAfter(commits: seq<Commit>): FileContent {
    if commits == [] then Absent else Complete(commits[|commits| - 1].record)
  }

  /** Every commit is an atomic operation on what the commits before it left. */
  ghost predicate Serial(commits: seq<Commit>) {
    forall k :: 0 <= k < |commits| ==> Atomic(FileAfter(commits[..k]), commits[k].call.op) == Ok(commits[k].record)
  }

  /** A process that is about to write has decided on the record file as it still is. */
  ghost predicate WritersSound(s: Store) {
    forall i :: 0 <= i < |s.procs| && Writing(s.procs[i]) ==> WriterSound(s, s.procs[i])
  }

  predicate WriterSound(s: Store, p: Process)
    requires Writing(p)
  {
    && Atomic(s.file, p.call.op) == Ok(p.next)
    && (p.Renaming? ==> p.token in s.temps && s.temps[p.token] == Complete(p.next))
  }

  predicate CommittedRecord(commits: seq<Commit>, r: Record) {
    exists k :: 0 <= k < |commits| && commits[k].record == r
  }

  /** A call that is about to report success has committed. */
  ghost predicate OutcomesSound(s: Store) {
    forall i :: 0 <= i < |s.procs| && (s.procs[i].Releasing? || s.procs[i].Unlinking?) && s.procs[i].outcome.Some? ==>
      CommittedRecord(s.commits, s.procs[i].outcome.value)
  }

  ghost predicate Inv(s: Store) {
    TokensDistinct(s) && LockSound(s) && s.file == FileAfter(s.commits) && Serial(s.commits) && WritersSound(s)
    && OutcomesSound(s)
  }

  /** At most one process is between creating and removing the lock file. */
  lemma NoOtherHolder(s: Store, i: nat)
    requires TokensDistinct(s) && LockSound(s) && i < |s.procs| && Holding(s.procs[i])
    ensures forall j :: 0 <= j < |s.procs| && j != i ==> !Holding(s.procs[j])
  {
  }

  lemma LockStepKeepsTokens(s: Store, i: nat, a: Action)
    requires TokensDistinct(s) && i < |s.procs| && !OnFiles(a) && Do(s, i, a).Some?
    ensures TokensDistinct(Do(s, i, a).value)
  {
  }

  lemma FileStepKeepsTokens(s: Store, i: nat, a: Action)
    requires TokensDistinct(s) && i < |s.procs| && OnFiles(a) && Do(s, i, a).Some?
    ensures TokensDistinct(Do(s, i, a).value)
  {
  }

  lemma LockStepKeepsLock(s: Store, i: nat, a: Action)
    requires TokensDistinct(s) && LockSound(s) && i < |s.procs| && !OnFiles(a) && Do(s, i, a).Some?
    ensures LockSound(Do(s, i, a).value)
  {
    if Holding(s.procs[i]) { NoOtherHolder(s, i); }
  }

  lemma FileStepKeepsLock(s: Store, i: nat, a: Action)
    requires LockSound(s) && i < |s.procs| && OnFiles(a) && Do(s, i, a).Some?
    ensures LockSound(Do(s, i, a).value)
  {
  }

  lemma LockStepKeepsFiles(s: Store, i: nat, a: Action)
    requires Inv(s) && i < |s.procs| && !OnFiles(a) && Do(s, i, a).Some?
    ensures var t := Do(s, i, a).value;
            && t.file == s.file && t.temps == s.temps && t.commits == s.commits
            && WritersSound(t) && OutcomesSound(t)
  {
    var t := Do(s, i, a).value;
    forall j | 0 <= j < |t.procs| && Writing(t.procs[j]) ensures WriterSound(t, t.procs[j]) {
      assert t.procs[j] == s.procs[j];
      assert WriterSound(s, s.procs[j]);
    }
  }

  lemma SerialOneMore(commits: seq<Commit>, c: Commit)
    requires Serial(commits) && Atomic(FileAfter(commits), c.call.op) == Ok(c.record)
    ensures Serial(commits + [c])
  {
    var all := commits + [c];
    forall k | 0 <= k < |all| ensures Atomic(FileAfter(all[..k]), all[k].call.op) == Ok(all[k].record) {
      if k < |commits| {
        assert all[..k] == commits[..k];
      } else {
        assert all[..k] == commits;
      }
    }
  }

  /** Only the process that moves its file writes, and the others that write are none. */
  lemma RenameKeepsFiles(s: Store, i: nat)
    requires Inv(s) && i < |s.procs| && Do(s, i, Rename).Some?
    ensures var t := Do(s, i, Rename).value;
            && t.file == FileAfter(t.commits) && Serial(t.commits) && WritersSound(t)
            && t.commits == s.commits + [Commit(s.procs[i].call, s.procs[i].next)]
            && Atomic(s.file, s.procs[i].call.op) == Ok(s.procs[i].next)
  {
    var p, t := s.procs[i], Do(s, i, Rename).value;
    assert WriterSound(s, p);
    SerialOneMore(s.commits, Commit(p.call, p.next));
    NoOtherHolder(s, i);
  }

  lemma RenameKeepsOutcomes(s: Store, i: nat)
    requires Inv(s) && i < |s.procs| && Do(s, i, Rename).Some?
    ensures OutcomesSound(Do(s, i, Rename).value)
  {
    var t := Do(s, i, Rename).value;
    assert t.commits[|s.commits|].record == s.procs[i].next;
    forall j | 0 <= j < |t.procs| && (t.procs[j].Releasing? || t.procs[j].Unlinking?) && t.procs[j].outcome.Some?
      ensures CommittedRecord(t.commits, t.procs[j].outcome.value)
    {
      if j != i {
        var k :| 0 <= k < |s.commits| && s.commits[k].record == t.procs[j].outcome.value;
        assert t.commits[k] == s.commits[k];
      }
    }
  }

  lemma TempStepKeepsFiles(s: Store, i: nat, a: Action)
    requires Inv(s) && i < |s.procs| && OnFiles(a) && !a.Rename? && Do(s, i, a).Some?
    ensures var t := Do(s, i, a).value;
            t.file == s.file && t.commits == s.commits && WritersSound(t) && OutcomesSound(t)
  {
    var t := Do(s, i, a).value;
    forall j | 0 <= j < |t.procs| && Writing(t.procs[j]) ensures WriterSound(t, t.procs[j]) {
      if j == i {
        assert a.Decide? || WriterSound(s, s.procs[i]);
      } else {
        assert WriterSound(s, s.procs[j]);
        assert s.procs[i].token != s.procs[j].token;
      }
    }
  }

  /** Every file operation of every process keeps the invariant. */
  lemma StepKeepsInv(s: Store, i: nat, a: Action)
    requires Inv(s) && i < |s.procs| && Do(s, i, a).Some?
    ensures Inv(Do(s, i, a).value)
  {
    if !OnFiles(a) {
      LockStepKeepsTokens(s, i, a);
      LockStepKeepsLock(s, i, a);
      LockStepKeepsFiles(s, i, a);
    } else {
      FileStepKeepsTokens(s, i, a);
      FileStepKeepsLock(s, i, a);
      if a.Rename? {
        RenameKeepsFiles(s, i);
        RenameKeepsOutcomes(s, i);
      } else {
        TempStepKeepsFiles(s, i, a);
      }
    }
  }

  // --- runs ---------------------------------------------------------------------------------------------------

  datatype Move = Move(who: nat, action: Action)

  /** `n` processes on an empty directory. */
  function Start(n: nat): Store { Store(seq(n, _ => Idle), NoLock, Absent, map[], 0, []) }

  /** The store after one move; a move that is not possible changes nothing. */
  function Next(s: Store, m: Move): Store {
    if m.who < |s.procs| && Do(s, m.who, m.action).Some? then Do(s, m.who, m.action).value else s
  }

  function Run(s: Store, script: seq<Move>): Store {
    if script == [] then s else Next(Run(s, script[..|script| - 1]), script[|script| - 1])
  }

  lemma {:induction false} RunKeepsInv(s: Store, script: seq<Move>)
    requires Inv(s)
    ensures Inv(Run(s, script))
  {
    if script != [] {
      var before, m := Run(s, script[..|script| - 1]), script[|script| - 1];
      RunKeepsInv(s, script[..|script| - 1]);
      if m.who < |before.procs| && Do(before, m.who, m.action).Some? { StepKeepsInv(before, m.who, m.action); }
    }
  }

  /** However the processes interleave and crash, at most one holds the lock. */
  lemma {:induction false} MutualExclusion(n: nat, script: seq<Move>, i: nat, j: nat)
    requires var s := Run(Start(n), script); i < j < |s.procs|
    ensures var s := Run(Start(n), script); !(Holding(s.procs[i]) && Holding(s.procs[j]))
  {
    RunKeepsInv(Start(n), script);
  }

  /** The record file is absent or one complete, valid record: the last one that was committed. */
  lemma {:induction false} FileIsAbsentOrComplete(n: nat, script: seq<Move>)
    ensures var s := Run(Start(n), script);
            && s.file == FileAfter(s.commits)
            && (s.file.Complete? ==> ParseOk(s.file.record))
  {
    RunKeepsInv(Start(n), script);
    var commits := Run(Start(n), script).commits;
    if commits != [] {
      var k := |commits| - 1;
      AtomicAdvances(FileAfter(commits[..k]), commits[k].call.op);
    }
  }

  lemma {:induction false} SerialVersions(commits: seq<Commit>, k: nat)
    requires Serial(commits) && k < |commits|
    ensures commits[k].record.version == k + 1
    ensures commits[k].record.attemptId == commits[0].record.attemptId && commits[k].record.mode == commits[0].record.mode
    ensures if k == 0 then commits[k].call.op.Create? else commits[k].call.op.Cas? && commits[k].call.op.expected == k
  {
    AtomicAdvances(FileAfter(commits[..k]), commits[k].call.op);
    if k > 0 {
      SerialVersions(commits, k - 1);
      assert commits[..k][k - 1] == commits[k - 1];
    }
  }

  /**
   The committed versions are 1, 2, 3 and so on, one attempt id and one mode throughout; the first
   commit is a create, and the commit after version `k` is a compare-and-set that expected `k`.
   */
  lemma {:induction false} VersionsFormAChain(n: nat, script: seq<Move>, k: nat)
    requires k < |Run(Start(n), script).commits|
    ensures var c := Run(Start(n), script).commits;
            && c[k].record.version == k + 1
            && c[k].record.attemptId == c[0].record.attemptId && c[k].record.mode == c[0].record.mode
            && if k == 0 then c[k].call.op.Create? else c[k].call.op.Cas? && c[k].call.op.expected == k
  {
    RunKeepsInv(Start(n), script);
    SerialVersions(Run(Start(n), script).commits, k);
  }

  /** Under the lock a call goes on to write exactly when its operation may succeed on the record that is there. */
  lemma {:induction false} WritesExactly(n: nat, script: seq<Move>, i: nat)
    requires var s := Run(Start(n), script); i < |s.procs| && s.procs[i].Deciding?
    ensures var s := Run(Start(n), script); var t := Next(s, Move(i, Decide)); var op := s.procs[i].call.op;
            t.procs[i].OpeningTemp? <==>
              (if op.Create? then s.commits == [] && ParseOk(op.next.(version := 1))
               else s.commits != [] && Succeeds(s.commits[|s.commits| - 1].record, op.expected, op.next))
  {
    RunKeepsInv(Start(n), script);
    AtomicExactly(Run(Start(n), script).file, Run(Start(n), script).procs[i].call.op);
  }

  /** What is committed is what the caller gave, in every field but the version, which is the next one. */
  lemma {:induction false} CommitsAreGiven(n: nat, script: seq<Move>, k: nat)
    requires k < |Run(Start(n), script).commits|
    ensures var c := Run(Start(n), script).commits; StoredAs(c[k].record, c[k].call.op.next, k + 1)
  {
    RunKeepsInv(Start(n), script);
    var c := Run(Start(n), script).commits;
    SerialVersions(c, k);
    AtomicExactly(FileAfter(c[..k]), c[k].call.op);
  }

  /** No two successful compare-and-sets, of whatever processes, expected the same version. */
  lemma {:induction false} UniqueSuccessor(n: nat, script: seq<Move>, i: nat, j: nat)
    requires var c := Run(Start(n), script).commits; i < j < |c| && c[i].call.op.Cas?
    ensures var c := Run(Start(n), script).commits;
            c[j].call.op.Cas? && c[i].call.op.expected != c[j].call.op.expected
  {
    VersionsFormAChain(n, script, i);
    VersionsFormAChain(n, script, j);
  }

  /** A call that reports a record has put exactly that record into the history. */
  lemma {:induction false} SuccessMeansCommitted(n: nat, script: seq<Move>, i: nat)
    requires var s := Run(Start(n), script); i < |s.procs|
    requires var p := Run(Start(n), script).procs[i]; (p.Releasing? || p.Unlinking?) && p.outcome.Some?
    ensures var s := Run(Start(n), script); CommittedRecord(s.commits, s.procs[i].outcome.value)
  {
    RunKeepsInv(Start(n), script);
  }

  /**
   Refinement: a file operation of any process leaves the record file alone or is, as a whole,
   the atomic operation that this process was called for.
   */
  lemma {:induction false} StepsAreAtomic(n: nat, script: seq<Move>, m: Move)
    ensures var s := Run(Start(n), script); var t := Next(s, m);
            || (t.file == s.file && t.commits == s.commits)
            || (&& m.who < |s.procs| && Writing(s.procs[m.who])
                && var call := s.procs[m.who].call;
                   && Atomic(s.file, call.op).Ok?
                   && t.file == After(s.file, Atomic(s.file, call.op))
                   && t.commits == s.commits + [Commit(call, Atomic(s.file, call.op).value)])
  {
    RunKeepsInv(Start(n), script);
    var s := Run(Start(n), script);
    if m.who < |s.procs| && Do(s, m.who, m.action).Some? { StepIsAtomic(s, m.who, m.action); }
  }

  lemma StepIsAtomic(s: Store, i: nat, a: Action)
    requires Inv(s) && i < |s.procs| && Do(s, i, a).Some?
    ensures var t := Do(s, i, a).value;
            || (t.file == s.file && t.commits == s.commits)
            || (&& Writing(s.procs[i])
                && var call := s.procs[i].call;
                   && Atomic(s.file, call.op).Ok?
                   && t.file == After(s.file, Atomic(s.file, call.op))
                   && t.commits == s.commits + [Commit(call, Atomic(s.file, call.op).value)])
  {
    if !OnFiles(a) {
      LockStepKeepsFiles(s, i, a);
    } else if a.Rename? {
      RenameKeepsFiles(s, i);
    } else {
      TempStepKeepsFiles(s, i, a);
    }
  }

  // --- a call that nobody disturbs ------------------------------------------------------------------------------------

  /** The file operations of a call, in order, after it has drawn its token. */
  function Operations(i: nat): seq<Move> {
    [Move(i, OpenLock), Move(i, Stamp), Move(i, Decide), Move(i, OpenTemp), Move(i, FillTemp), Move(i, Rename),
     Move(i, ReadLock), Move(i, Unlink)]
  }

  lemma {:induction false} RunLast(s: Store, script: seq<Move>)
    requires script != []
    ensures Run(s, script) == Next(Run(s, script[..|script| - 1]), script[|script| - 1])
  {
  }

  lemma {:induction false} RunAppend(s: Store, a: seq<Move>, b: seq<Move>)
    ensures Run(s, a + b) == Run(Run(s, a), b)
    decreases |b|
  {
    if b == [] {
      assert a + b == a;
    } else {
      var init, all := b[..|b| - 1], a + b;
      RunAppend(s, a, init);
      assert all[..|all| - 1] == a + init && all[|all| - 1] == b[|b| - 1];
      RunLast(s, all);
      RunLast(Run(s, a), b);
    }
  }

  lemma RunOne(s: Store, m: Move)
    ensures Run(s, [m]) == Next(s, m)
  {
    assert [m][..0] == [];
  }

  /** The store after the record is in place and before the lock is released. */
  function Written(s: Store, i: nat, call: Call, token: nat, r: Record): Store
    requires i < |s.procs|
  {
    s.(procs := s.procs[i := Releasing(token, Some(r))], lock := Lock(token, Some(token)), file := Complete(r),
       temps := s.temps - {token}, commits := s.commits + [Commit(call, r)])
  }

  lemma DecidePhase(s: Store, i: nat, call: Call, token: nat)
    requires i < |s.procs| && s.procs[i] == Opening(call, token) && s.lock == NoLock
    ensures Run(s, Operations(i)[..3])
         == Next(s.(procs := s.procs[i := Deciding(call, token)], lock := Lock(token, Some(token))), Move(i, Decide))
  {
    var ops := Operations(i);
    var s1 := Next(s, ops[0]);
    var s2 := Next(s1, ops[1]);
    assert s2 == s.(procs := s.procs[i := Deciding(call, token)], lock := Lock(token, Some(token)));
    assert ops[..3][..2] == ops[..2] && ops[..2][..1] == ops[..1] && ops[..1][..0] == [];
    assert Run(s, ops[..1]) == s1 && Run(s, ops[..2]) == s2;
  }

  /** The store with the temporary file complete. */
  function Filled(s: Store, i: nat, call: Call, token: nat, r: Record): Store
    requires i < |s.procs|
  {
    s.(procs := s.procs[i := Renaming(call, token, r)], temps := s.temps[token := Complete(r)])
  }

  lemma {:induction false} FillPhase(s: Store, i: nat, call: Call, token: nat, r: Record)
    requires i < |s.procs| && s.procs[i] == OpeningTemp(call, token, r)
    ensures Run(s, [Move(i, OpenTemp), Move(i, FillTemp)]) == Filled(s, i, call, token, r)
  {
    var open, fill := Move(i, OpenTemp), Move(i, FillTemp);
    assert [open, fill] == [open] + [fill];
    RunAppend(s, [open], [fill]);
    RunOne(s, open);
    RunOne(Next(s, open), fill);
    assert s.temps[token := Partial][token := Complete(r)] == s.temps[token := Complete(r)];
  }

  lemma {:induction false} RenamePhase(s: Store, i: nat, call: Call, token: nat, r: Record)
    requires i < |s.procs| && s.lock == Lock(token, Some(token))
    ensures Run(Filled(s, i, call, token, r), [Move(i, Rename)]) == Written(s, i, call, token, r)
  {
    RunOne(Filled(s, i, call, token, r), Move(i, Rename));
    assert s.temps[token := Complete(r)] - {token} == s.temps - {token};
  }

  lemma {:induction false} WritePhase(s: Store, i: nat, call: Call, token: nat, r: Record)
    requires i < |s.procs| && s.procs[i] == OpeningTemp(call, token, r) && s.lock == Lock(token, Some(token))
    ensures Run(s, Operations(i)[3..6]) == Written(s, i, call, token, r)
  {
    FillPhase(s, i, call, token, r);
    RenamePhase(s, i, call, token, r);
    RunAppend(s, [Move(i, OpenTemp), Move(i, FillTemp)], [Move(i, Rename)]);
    assert Operations(i)[3..6] == [Move(i, OpenTemp), Move(i, FillTemp)] + [Move(i, Rename)];
  }

  lemma ReleasePhase(s: Store, i: nat, token: nat, outcome: Option<Record>)
    requires i < |s.procs| && s.procs[i] == Releasing(token, outcome) && s.lock == Lock(token, Some(token))
    ensures Run(s, Operations(i)[6..]) == s.(procs := s.procs[i := Idle], lock := NoLock)
  {
    var ops := Operations(i)[6..];
    var s1 := Next(s, ops[0]);
    assert Next(s1, ops[1]) == s.(procs := s.procs[i := Idle], lock := NoLock);
    assert ops[..1][..0] == [];
    assert Run(s, ops[..1]) == s1;
  }

  /** The store after the decision to write. */
  function Decided(s: Store, i: nat, call: Call, token: nat, r: Record): Store
    requires i < |s.procs|
  {
    s.(procs := s.procs[i := OpeningTemp(call, token, r)], lock := Lock(token, Some(token)))
  }

  lemma {:induction false} AcceptPhase(s: Store, i: nat, call: Call, token: nat)
    requires i < |s.procs| && s.procs[i] == Opening(call, token) && s.lock == NoLock && Atomic(s.file, call.op).Ok?
    ensures Run(s, Operations(i)[..3]) == Decided(s, i, call, token, Atomic(s.file, call.op).value)
  {
    DecidePhase(s, i, call, token);
  }

  lemma {:induction false} RunThree(s: Store, a: seq<Move>, b: seq<Move>, c: seq<Move>)
    ensures Run(s, a + b + c) == Run(Run(Run(s, a), b), c)
  {
    RunAppend(s, a, b);
    RunAppend(s, a + b, c);
  }

  /** From a free lock, a call that the atomic operation accepts gets through and leaves the lock free. */
  lemma {:induction false} SoloCallSucceeds(s: Store, i: nat, call: Call, token: nat)
    requires i < |s.procs| && s.procs[i] == Opening(call, token) && s.lock == NoLock && Atomic(s.file, call.op).Ok?
    ensures var t := Run(s, Operations(i)); var r := Atomic(s.file, call.op);
            && t.file == After(s.file, r) && t.lock == NoLock && t.procs == s.procs[i := Idle]
            && t.commits == s.commits + [Commit(call, r.value)]
  {
    var ops, r := Operations(i), Atomic(s.file, call.op).value;
    AcceptPhase(s, i, call, token);
    var decided := Decided(s, i, call, token, r);
    WritePhase(decided, i, call, token, r);
    ReleasePhase(Written(decided, i, call, token, r), i, token, Some(r));
    RunThree(s, ops[..3], ops[3..6], ops[6..]);
    assert ops[..3] + ops[3..6] + ops[6..] == ops;
  }

  // --- a lock whose owner is gone ---------------------------------------------------------------------------------

  /** There is a lock file, and no process that would remove it. */
  ghost predicate Orphaned(s: Store) {
    s.lock.Lock? && forall i :: 0 <= i < |s.procs| ==> !Holding(s.procs[i])
  }

  lemma OrphanStep(s: Store, i: nat, a: Action)
    requires Orphaned(s) && i < |s.procs| && Do(s, i, a).Some?
    ensures var t := Do(s, i, a).value; Orphaned(t) && t.file == s.file && t.commits == s.commits && t.lock == s.lock
  {
    assert !Holding(s.procs[i]);
  }

  /** After a crash that leaves the lock behind, nothing is ever written again: the store fails closed. */
  lemma {:induction false} OrphanedLockFreezes(s: Store, script: seq<Move>)
    requires Orphaned(s)
    ensures var t := Run(s, script); Orphaned(t) && t.file == s.file && t.commits == s.commits && t.lock == s.lock
  {
    if script != [] {
      var before, m := Run(s, script[..|script| - 1]), script[|script| - 1];
      OrphanedLockFreezes(s, script[..|script| - 1]);
      if m.who < |before.procs| && Do(before, m.who, m.action).Some? { OrphanStep(before, m.who, m.action); }
    }
  }
}
