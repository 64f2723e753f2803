/** The attempt store: what its operations mean, and the operations over lock, temporary and record files. */
module AttemptStore {
  import opened Wrappers
  import opened Utf16
  import opened AttemptRecord

  datatype StoreError =
    | LockHeld | LockAmbiguous | AttemptExists | FileNotFound | VersionConflict | CorruptAttempt | HistoricalTopicForbidden

  /** The content of a record file: partial while it is being written. */
  datatype FileContent = Absent | Partial | Complete(record: Record)

  datatype Op = Create(next: Record) | Cas(expected: int, next: Record)

  // --- the meaning of the operations: one atomic step on the record file --------------------------------

  function AtomicCreate(file: FileContent, record: Record): Result<Record, StoreError> {
    if file != Absent then Err(AttemptExists)
    else
      var persisted := record.(version := 1);
      if !ParseOk(persisted) then Err(CorruptAttempt) else Ok(persisted)
  }

  /** An absent file fails when it is read (ENOENT); the test for a missing attempt behind that is never reached. */
  function AtomicCas(file: FileContent, expected: int, next: Record): Result<Record, StoreError> {
    if file == Absent then Err(FileNotFound)
    else if file == Partial || !ParseOk(file.record) then Err(CorruptAttempt)
    else
      var current := file.record;
      if current.version != expected then Err(VersionConflict)
      else if next.attemptId != current.attemptId then Err(CorruptAttempt)
      else if next.mode != current.mode then Err(CorruptAttempt)
      else
        var persisted := next.(attemptId := current.attemptId, mode := current.mode, version := current.version + 1);
        if persisted.topicId == Some(HISTORICAL_TOPIC) then Err(HistoricalTopicForbidden)
        else if !ParseOk(persisted) then Err(CorruptAttempt)
        else Ok(persisted)
  }

  function Atomic(file: FileContent, op: Op): Result<Record, StoreError> {
    match op
    case Create(record) => AtomicCreate(file, record)
    case Cas(expected, next) => AtomicCas(file, expected, next)
  }

  /** What an operation leaves in the record file. */
  function After(file: FileContent, result: Result<Record, StoreError>): FileContent {
    match result
    case Ok(record) => Complete(record)
    case Err(_) => file
  }

  /** The given record, with every field as it was given except the version. */
  predicate StoredAs(stored: Record, given: Record, version: int) {
    stored.(version := given.version) == given && stored.version == version
  }

  /** What a compare-and-set on a current record demands: the version, the attempt, the mode and a valid successor. */
  predicate Succeeds(current: Record, expected: int, next: Record) {
    && ParseOk(current) && current.version == expected
    && next.attemptId == current.attemptId && next.mode == current.mode && ParseOk(next.(version := expected + 1))
  }

  /** When the operations succeed, and that they store what they are given. */
  lemma AtomicExactly(file: FileContent, op: Op)
    ensures Atomic(file, op).Ok? <==>
      (if op.Create? then file == Absent && ParseOk(op.next.(version := 1))
       else file.Complete? && Succeeds(file.record, op.expected, op.next))
    ensures Atomic(file, op).Ok? ==>
      StoredAs(Atomic(file, op).value, op.next, if op.Create? then 1 else op.expected + 1)
  {
  }

  // --- the operations as the store runs them, with no other process in between ---------------------------

  /** The lock file: missing, created but without readable metadata, or naming its owner. */
  datatype LockFile = Unlocked | Unreadable | Locked(token: nat)

  class FinalDemoAttemptStore {
    var file: FileContent
    var lockFile: LockFile
    var temps: map<nat, FileContent>
    const maxLockAttempts: int

    constructor (file: FileContent, lockFile: LockFile, maxLockAttempts: int)
      ensures this.file == file && this.lockFile == lockFile && temps == map[]
      ensures this.maxLockAttempts == maxLockAttempts
    {
      this.file, this.lockFile, this.temps := file, lockFile, map[];
      this.maxLockAttempts := maxLockAttempts;
    }

    /** `acquireLock`; `token` is the fresh random token. A held lock is never taken over. */
    method AcquireLock(token: nat) returns (r: Result<nat, StoreError>)
      modifies this`lockFile
      ensures r.Ok? <==> old(lockFile) == Unlocked
      ensures r.Ok? ==> r.value == token && lockFile == Locked(token)
      ensures r.Err? ==> lockFile == old(lockFile) && (r.error == LockHeld <==> lockFile.Locked?)
    {
      var limit := if maxLockAttempts > 1 then maxLockAttempts else 1;
      var attempt := 0;
      while attempt < limit
        invariant 0 <= attempt <= limit
        invariant lockFile == old(lockFile)
        invariant attempt > 0 ==> lockFile.Locked?
        decreases limit - attempt
      {
        if lockFile == Unlocked {
          lockFile := Unreadable;
          lockFile := Locked(token);
          return Ok(token);
        }
        if lockFile == Unreadable { return Err(LockAmbiguous); }
        if attempt + 1 < limit {
          attempt := attempt + 1;
          continue;
        }
        return Err(LockHeld);
      }
      return Err(LockHeld);
    }

    /** `releaseLock`: only a lock that names the own token is removed. */
    method ReleaseLock(token: nat)
      modifies this`lockFile
      ensures lockFile == if old(lockFile) == Locked(token) then Unlocked else old(lockFile)
    {
      if lockFile != Locked(token) { return; }
      lockFile := Unlocked;
    }

    /** `writeAtomic`: the temporary file is complete before it takes the place of the record. */
    method WriteAtomic(record: Record, token: nat)
      modifies this`file, this`temps
      ensures file == Complete(record) && temps == old(temps) - {token}
    {
      temps := temps[token := Partial];
      temps := temps[token := Complete(record)];
      file := temps[token];
      temps := temps - {token};
    }

    /** `create`. */
    method CreateRecord(record: Record, token: nat) returns (r: Result<Record, StoreError>)
      modifies this
      ensures old(lockFile) == Unlocked ==> r == Atomic(old(file), Create(record)) && file == After(old(file), r)
      ensures old(lockFile) == Unlocked ==> (r.Ok? <==> old(file) == Absent && ParseOk(record.(version := 1)))
      ensures r.Ok? ==> StoredAs(r.value, record, 1) && file == Complete(r.value)
      ensures old(lockFile) != Unlocked ==> r.Err? && file == old(file)
      ensures lockFile == old(lockFile)
    {
      var lock := AcquireLock(token);
      if lock.Err? { return Err(lock.error); }
      if file != Absent {
        ReleaseLock(token);
        return Err(AttemptExists);
      }
      var persisted := record.(version := 1);
      if !ParseOk(persisted) {
        ReleaseLock(token);
        return Err(CorruptAttempt);
      }
      WriteAtomic(persisted, token);
      ReleaseLock(token);
      return Ok(persisted);
    }

    /** `compareAndSet`. */
    method CompareAndSet(expected: int, next: Record, token: nat) returns (r: Result<Record, StoreError>)
      modifies this
      ensures old(lockFile) == Unlocked ==> r == Atomic(old(file), Cas(expected, next)) && file == After(old(file), r)
      ensures old(lockFile) == Unlocked ==> (r.Ok? <==> old(file).Complete? && Succeeds(old(file.record), expected, next))
      ensures r.Ok? ==> StoredAs(r.value, next, expected + 1) && file == Complete(r.value)
      ensures old(lockFile) != Unlocked ==> r.Err? && file == old(file)
      ensures lockFile == old(lockFile)
    {
      var lock := AcquireLock(token);
      if lock.Err? { return Err(lock.error); }
      var persisted := Successor(expected, next);
      if persisted.Ok? { WriteAtomic(persisted.value, token); }
      ReleaseLock(token);
      return persisted;
    }

    /** The checks of `compareAndSet` between acquiring the lock and writing. */
    method Successor(expected: int, next: Record) returns (r: Result<Record, StoreError>)
      ensures r == AtomicCas(file, expected, next)
    {
      if file == Absent { return Err(FileNotFound); }
      if file == Partial || !ParseOk(file.record) { return Err(CorruptAttempt); }
      var current := file.record;
      if current.version != expected { return Err(VersionConflict); }
      if next.attemptId != current.attemptId { return Err(CorruptAttempt); }
      if next.mode != current.mode { return Err(CorruptAttempt); }
      var persisted := next.(attemptId := current.attemptId, mode := current.mode, version := current.version + 1);
      if persisted.topicId == Some(HISTORICAL_TOPIC) { return Err(HistoricalTopicForbidden); }
      if !ParseOk(persisted) { return Err(CorruptAttempt); }
      return Ok(persisted);
    }
  }

  // --- what an atomic step keeps --------------------------------------------------------------------------

  /** A successful operation advances the version by one and keeps attempt id and mode. */
  lemma AtomicAdvances(file: FileContent, op: Op)
    requires Atomic(file, op).Ok?
    ensures var r := Atomic(file, op).value;
            && ParseOk(r)
            && (op.Create? <==> file == Absent)
            && (op.Create? ==> r.version == 1)
            && (op.Cas? ==> file.Complete? && op.expected == file.record.version && r.version == op.expected + 1
                            && r.attemptId == file.record.attemptId && r.mode == file.record.mode)
  {
  }

  /** After a successful compare-and-set, a second one against the same version fails. */
  lemma SecondCasFails(file: FileContent, v: int, next: Record, other: Record)
    requires AtomicCas(file, v, next).Ok?
    ensures AtomicCas(After(file, AtomicCas(file, v, next)), v, other).Err?
  {
  }
}
