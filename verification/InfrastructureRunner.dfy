/** The infrastructure runner: seven network writes, each under a transaction id saved before it is sent. */
module InfrastructureRunner {
  import opened Wrappers
  import opened Utf16

  /**
   A step is its position in the step list: the bytecode file is created and appended to three times,
   then the contract is created, its token associated, and the topic created.
   */
  type TxStep = i: int | 0 <= i < 7

  const FILE_CREATE: TxStep := 0
  const CONTRACT_CREATE: TxStep := 4
  const CONTRACT_ASSOCIATION: TxStep := 5
  const TOPIC_CREATE: TxStep := 6

  const IMMUTABLE_PROOF_CONTRACT_ID: Text := Lit("0.0.9861047")
  const IMMUTABLE_PROOF_TOPIC_ID: Text := Lit("0.0.9862010")

  datatype MirrorStatus = Success | Failed | NotFound

  datatype TxRecord = TxRecord(
    transactionId: nat, receiptSuccess: bool, mirrorStatus: MirrorStatus, entityId: Option<Text>)

  datatype Progress = Progress(
    transactions: map<TxStep, TxRecord>, fileId: Option<Text>, contractId: Option<Text>, topicId: Option<Text>,
    complete: bool)

  /** The progress file. A write is not atomic: a crash can leave it unreadable. */
  datatype ProgressFile = Missing | Unreadable | Saved(progress: Progress)

  /** A transaction that has reached the network. */
  datatype Submission = Submission(step: TxStep, transactionId: nat)

  // --- what holds of the progress file and of the network, at every moment ----------------------------------

  /** A step that the mirror has confirmed. */
  predicate Reconciled(p: Progress, step: TxStep) {
    step in p.transactions && p.transactions[step].mirrorStatus == Success
  }

  /** The recorded steps are the first `k`, and all but the last are known to have succeeded. */
  predicate PrefixOf(p: Progress, k: nat) {
    && k <= 7
    && (forall s: TxStep :: s in p.transactions <==> s < k)
    && (forall s: TxStep :: s < k - 1 ==> Reconciled(p, s))
    && (forall s: TxStep :: Reconciled(p, s) ==> p.transactions[s].receiptSuccess)
  }

  /** With a truthful mirror the steps reached the network one by one, the last perhaps not yet. */
  predicate Exact(p: Progress, k: nat, submitted: seq<Submission>) {
    && k - 1 <= |submitted| <= k
    && (0 < k <= 7 && Reconciled(p, k - 1) ==> |submitted| == k)
    && forall i :: 0 <= i < |submitted| ==> submitted[i].step == i
  }

  /** The record of the transactions covers what reached the network; `honest` says the mirror is truthful. */
  predicate Accounts(p: Progress, k: nat, submitted: seq<Submission>, nextId: nat, honest: bool) {
    && PrefixOf(p, k)
    && (forall i :: 0 <= i < |submitted| ==>
          submitted[i].step < k && p.transactions[submitted[i].step].transactionId == submitted[i].transactionId)
    && (forall s: TxStep :: s < k ==> p.transactions[s].transactionId < nextId)
    && (forall s: TxStep, t: TxStep :: s < t < k ==> p.transactions[s].transactionId != p.transactions[t].transactionId)
    && (honest ==> Exact(p, k, submitted))
  }

  /** The steps were submitted in their order, each at most once. */
  predicate InOrder(submitted: seq<Submission>) {
    forall i, j :: 0 <= i < j < |submitted| ==> submitted[i].step < submitted[j].step
  }

  lemma {:induction false} StepAtLeast(submitted: seq<Submission>, i: nat)
    requires InOrder(submitted) && i < |submitted|
    ensures submitted[i].step >= i
  {
    if i > 0 { StepAtLeast(submitted, i - 1); }
  }

  /** Seven submissions at most. */
  lemma AtMostSeven(submitted: seq<Submission>)
    requires InOrder(submitted)
    ensures |submitted| <= 7
  {
    if submitted != [] { StepAtLeast(submitted, |submitted| - 1); }
  }

  /** Nothing was submitted for `step` or a later one. */
  predicate Unsent(submitted: seq<Submission>, step: int) {
    forall i :: 0 <= i < |submitted| ==> submitted[i].step < step
  }

  /** Every submitted id has been drawn. */
  predicate IdsDrawn(submitted: seq<Submission>, nextId: nat) {
    forall i :: 0 <= i < |submitted| ==> submitted[i].transactionId < nextId
  }

  function Pending(id: nat): TxRecord { TxRecord(id, false, NotFound, None) }

  /** Recording a fresh pending transaction after the steps that have all succeeded. */
  lemma RecordsPending(p: Progress, k: nat, submitted: seq<Submission>, n: nat, honest: bool)
    requires Accounts(p, k, submitted, n, honest) && k < 7 && (k > 0 ==> Reconciled(p, k - 1))
    ensures Unsent(submitted, k) && (honest ==> |submitted| == k)
    ensures Accounts(p.(transactions := p.transactions[k := Pending(n)]), k + 1, submitted, n + 1, honest)
  {
    var q := p.(transactions := p.transactions[k := Pending(n)]);
    forall s: TxStep | s < k ensures Reconciled(q, s) { assert Reconciled(p, s); }
    assert !Reconciled(q, k);
    forall s: TxStep | Reconciled(q, s) ensures q.transactions[s].receiptSuccess { assert Reconciled(p, s); }
  }

  lemma IdsRemainDrawn(p: Progress, k: nat, submitted: seq<Submission>, n: nat, honest: bool)
    requires Accounts(p, k, submitted, n, honest) && IdsDrawn(submitted, n)
    ensures Accounts(p, k, submitted, n + 1, honest) && IdsDrawn(submitted, n + 1)
  {
  }

  /** The pending transaction reaches the network. */
  lemma RecordsSubmission(p: Progress, k: nat, submitted: seq<Submission>, n: nat, honest: bool)
    requires Accounts(p, k + 1, submitted, n, honest) && Unsent(submitted, k) && (honest ==> |submitted| == k)
    requires InOrder(submitted) && IdsDrawn(submitted, n)
    ensures var all := submitted + [Submission(k, p.transactions[k].transactionId)];
            Accounts(p, k + 1, all, n, honest) && InOrder(all) && IdsDrawn(all, n)
  {
  }

  /** Anything may be noted about the last step, if it has reached the network or the mirror says so. */
  lemma RecordsOutcome(p: Progress, k: nat, submitted: seq<Submission>, n: nat, honest: bool, r: TxRecord)
    requires Accounts(p, k + 1, submitted, n, honest) && (honest ==> |submitted| == k + 1)
    requires r.transactionId == p.transactions[k].transactionId && r.receiptSuccess
    ensures Accounts(p.(transactions := p.transactions[k := r]), k + 1, submitted, n, honest)
  {
    var q := p.(transactions := p.transactions[k := r]);
    forall s: TxStep | s < k ensures Reconciled(q, s) { assert Reconciled(p, s); }
    forall s: TxStep | Reconciled(q, s) ensures q.transactions[s].receiptSuccess { assert s != k ==> Reconciled(p, s); }
  }

  /** The transaction is among those that reached the network. */
  predicate Reached(submitted: seq<Submission>, id: nat) {
    exists i :: 0 <= i < |submitted| && submitted[i].transactionId == id
  }

  /** A step that is recorded but not reconciled is the last one; once it has reached the network, all have. */
  lemma LookupSettles(p: Progress, k: nat, submitted: seq<Submission>, n: nat, honest: bool, step: TxStep)
    requires Accounts(p, k, submitted, n, honest) && step < k && !Reconciled(p, step)
    requires honest ==> Reached(submitted, p.transactions[step].transactionId)
    ensures step == k - 1 && (honest ==> |submitted| == k)
  {
    if honest {
      var i :| 0 <= i < |submitted| && submitted[i].transactionId == p.transactions[step].transactionId;
      assert p.transactions[submitted[i].step].transactionId == submitted[i].transactionId;
    }
  }

  /** The accounting looks at the transactions only. */
  lemma SameTransactions(p: Progress, q: Progress, k: nat, submitted: seq<Submission>, n: nat, honest: bool)
    requires Accounts(p, k, submitted, n, honest) && p.transactions == q.transactions
    ensures Accounts(q, k, submitted, n, honest)
  {
    forall s: TxStep | s < k - 1 ensures Reconciled(q, s) { assert Reconciled(p, s); }
    forall s: TxStep | Reconciled(q, s) ensures q.transactions[s].receiptSuccess { assert Reconciled(p, s); }
  }

  /** `q` differs from `p` in the transaction of one step at most. */
  predicate OnlyStep(p: Progress, q: Progress, step: TxStep) {
    step in q.transactions && q == p.(transactions := p.transactions[step := q.transactions[step]])
  }

  /** When all seven steps are reconciled, all seven receipts are successes, and an honest mirror has seen them all. */
  lemma AllSucceeded(p: Progress, k: nat, submitted: seq<Submission>, n: nat, honest: bool)
    requires Accounts(p, k, submitted, n, honest) && k >= 7 && forall s: TxStep :: s < 7 ==> Reconciled(p, s)
    ensures forall s: TxStep :: Reconciled(p, s) && s in p.transactions && p.transactions[s].receiptSuccess
    ensures honest ==> |submitted| == 7
  {
    forall s: TxStep ensures Reconciled(p, s) && p.transactions[s].receiptSuccess { assert s < 7 ==> Reconciled(p, s); }
    assert Reconciled(p, TOPIC_CREATE);
  }

  lemma OnlyStepTwice(p: Progress, q: Progress, r: Progress, step: TxStep)
    requires OnlyStep(p, q, step) && OnlyStep(q, r, step)
    ensures OnlyStep(p, r, step)
  {
    assert p.transactions[step := q.transactions[step]][step := r.transactions[step]]
        == p.transactions[step := r.transactions[step]];
  }

  /** An identity that a step may have created. */
  predicate Fresh(e: Option<Text>) {
    Present(e) && e != Some(IMMUTABLE_PROOF_CONTRACT_ID) && e != Some(IMMUTABLE_PROOF_TOPIC_ID)
  }

  /** The recorded identities come from the steps that created them, unless they were there before. */
  predicate Identified(p: Progress) {
    && Present(p.fileId)
    && Present(p.contractId) && p.contractId != Some(IMMUTABLE_PROOF_CONTRACT_ID)
    && Present(p.topicId) && p.topicId != Some(IMMUTABLE_PROOF_TOPIC_ID)
  }

  /** `??` and the test for a usable id. */
  function OrElse(a: Option<Text>, b: Option<Text>): Option<Text> { if a.Some? then a else b }

  predicate Present(t: Option<Text>) { t.Some? && t.value != [] }

  class Runner {
    /** Survives a crash. */
    var file: ProgressFile
    /** Does not; `recorded` counts its transactions. */
    var progress: Progress
    ghost var recorded: nat
    /** What has reached the network, and the next unused transaction id. */
    var submitted: seq<Submission>
    var nextId: nat
    /** Whether the mirror reports success only of transactions that reached the network. */
    const mirrorIsHonest: bool
    /** Whether nothing goes wrong: no crash, and the network answers every request with success. */
    const smooth: bool

    constructor (mirrorIsHonest: bool, smooth: bool)
      ensures Durable() && submitted == [] && file == Missing
      ensures this.mirrorIsHonest == mirrorIsHonest && this.smooth == smooth
    {
      this.mirrorIsHonest, this.smooth := mirrorIsHonest, smooth;
      file, submitted, nextId := Missing, [], 0;
      progress, recorded := Progress(map[], None, None, None, false), 0;
    }

    /** What any crash leaves. */
    ghost predicate Durable()
      reads this
    {
      && InOrder(submitted) && IdsDrawn(submitted, nextId)
      && match file
         case Missing => submitted == []
         case Unreadable => true
         case Saved(p) => exists k: nat :: Accounts(p, k, submitted, nextId, mirrorIsHonest)
    }

    /** The memory of the process accounts for the network. */
    ghost predicate Sound()
      reads this
    {
      InOrder(submitted) && IdsDrawn(submitted, nextId) && Accounts(progress, recorded, submitted, nextId, mirrorIsHonest)
    }

    /** All steps before `step` are done, and the file says so. */
    ghost predicate Before(step: nat)
      reads this
    {
      Sound() && file == Saved(progress) && step <= recorded && forall s: TxStep :: s < step ==> Reconciled(progress, s)
    }

    /** `saveProgress`; the process may die before, during or after the write. */
    method SaveProgress() returns (alive: bool)
      requires Sound() && Durable()
      modifies this`file
      ensures Durable()
      ensures alive ==> file == Saved(progress)
      ensures smooth ==> alive
      ensures file == old(file) || file == Unreadable || file == Saved(progress)
    {
      var dies := Fails();
      if dies { return false; }
      file := Unreadable;
      dies := Fails();
      if dies { return false; }
      file := Saved(progress);
      dies := Fails();
      return !dies;
    }

    /** Whether something goes wrong at this point. */
    method Fails() returns (failure: bool)
      ensures smooth ==> !failure
    {
      failure := *;
      if smooth { failure := false; }
    }

    /** A mirror lookup, with any answer that an honest or a dishonest mirror may give. */
    method MirrorTransaction(id: nat) returns (status: MirrorStatus, entityId: Option<Text>)
      ensures mirrorIsHonest && status == Success ==> Reached(submitted, id)
      ensures smooth && Reached(submitted, id) ==> status == Success && entityId.None?
    {
      entityId := *;
      status := *;
      if smooth { status, entityId := Success, None; }
      if mirrorIsHonest && status == Success && !Reached(submitted, id) { status := NotFound; }
    }

    /** `reconcileRecorded` of a recorded step: a lookup may settle the last one, everything else stops. */
    method ReconcileRecorded(step: TxStep) returns (alive: bool)
      requires Before(step) && step < recorded
      modifies this`file, this`progress
      ensures Durable()
      ensures alive ==> Before(step + 1) && OnlyStep(old(progress), progress, step)
      ensures alive ==>
        progress.transactions[step].transactionId == old(progress).transactions[step].transactionId
      ensures Reconciled(old(progress), step) ==> alive && progress == old(progress) && file == old(file)
    {
      var existing := progress.transactions[step];
      if existing.mirrorStatus == Success { return true; }
      var status, entityId := MirrorTransaction(existing.transactionId);
      if status != Success { return false; }
      LookupSettles(progress, recorded, submitted, nextId, mirrorIsHonest, step);
      alive := RecordOutcome(step, Success, entityId);
    }

    /** The step is recorded under an id that has not been used. */
    ghost predicate Pended(step: TxStep)
      reads this
    {
      && Sound() && file == Saved(progress) && recorded == step + 1
      && Unsent(submitted, step) && (mirrorIsHonest ==> |submitted| == step)
      && forall s: TxStep :: s < step ==> Reconciled(progress, s)
    }

    /** The id is on disk before anything is sent. */
    method RecordPending(step: TxStep) returns (alive: bool)
      requires Before(step) && step == recorded
      modifies this`file, this`progress, this`recorded, this`nextId
      ensures Durable()
      ensures alive ==> Pended(step) && OnlyStep(old(progress), progress, step)
      ensures smooth ==> alive
    {
      RecordsPending(progress, step, submitted, nextId, mirrorIsHonest);
      IdsRemainDrawn(progress, recorded, submitted, nextId, mirrorIsHonest);
      progress := progress.(transactions := progress.transactions[step := Pending(nextId)]);
      recorded, nextId := recorded + 1, nextId + 1;
      alive := SaveProgress();
    }

    /** The submission: it may fail before or after it reaches the network, and the process may die. */
    method Transmit(step: TxStep) returns (alive: bool)
      requires Pended(step)
      modifies this`submitted
      ensures Sound() && Durable()
      ensures submitted == old(submitted) || submitted == old(submitted) + [LastSent(step)]
      ensures alive ==> Sent(step) && submitted == old(submitted) + [LastSent(step)]
      ensures smooth ==> alive
    {
      var fails := Fails();
      if fails { return false; }
      RecordsSubmission(progress, step, submitted, nextId, mirrorIsHonest);
      submitted := submitted + [LastSent(step)];
      fails := Fails();
      return !fails;
    }

    /** The submission of a recorded step. */
    function LastSent(step: TxStep): Submission
      requires step in progress.transactions
      reads this
    {
      Submission(step, progress.transactions[step].transactionId)
    }

    /** The step is the last one recorded, and has reached the network. */
    ghost predicate Sent(step: TxStep)
      reads this
    {
      && Sound() && file == Saved(progress) && recorded == step + 1 && (mirrorIsHonest ==> |submitted| == step + 1)
      && forall s: TxStep :: s < step ==> Reconciled(progress, s)
    }

    /** Note what the receipt or the mirror said about the step just submitted. */
    method RecordOutcome(step: TxStep, status: MirrorStatus, entityId: Option<Text>) returns (alive: bool)
      requires Sent(step)
      modifies this`file, this`progress
      ensures Durable()
      ensures alive ==> Sent(step) && (status == Success ==> Before(step + 1))
      ensures alive ==> OnlyStep(old(progress), progress, step)
      ensures alive ==> progress.transactions[step]
                        == TxRecord(old(progress).transactions[step].transactionId, true, status, entityId)
      ensures smooth ==> alive
    {
      var record := progress.transactions[step].(receiptSuccess := true, mirrorStatus := status, entityId := entityId);
      RecordsOutcome(progress, step, submitted, nextId, mirrorIsHonest, record);
      progress := progress.(transactions := progress.transactions[step := record]);
      alive := SaveProgress();
    }

    /** `successfulWriteCount`. */
    method SuccessfulWriteCount() returns (count: nat)
      ensures count <= 7
      ensures count == 7 <==> forall s: TxStep :: s in progress.transactions && progress.transactions[s].receiptSuccess
    {
      count := 0;
      for step := 0 to 7
        invariant count <= step
        invariant count == step <==>
          forall s: TxStep :: s < step ==> s in progress.transactions && progress.transactions[s].receiptSuccess
      {
        if step in progress.transactions && progress.transactions[step].receiptSuccess { count := count + 1; }
      }
    }

    /**
     `submit`: at most one transaction is sent, only for a step of which none was sent before, and
     whatever happens the progress file accounts for it. When it goes through, the step alone is changed:
     its receipt and mirror status are success, under the id that was sent.
     */
    method Submit(step: TxStep) returns (alive: bool)
      requires Before(step)
      modifies this
      ensures Durable()
      ensures alive ==> Before(step + 1) && OnlyStep(old(progress), progress, step)
      ensures alive ==>
        progress.transactions[step].receiptSuccess && progress.transactions[step].mirrorStatus == Success
      ensures alive && step !in old(progress).transactions ==> submitted == old(submitted) + [LastSent(step)]
      ensures submitted == old(submitted)
           || (Unsent(old(submitted), step) && exists id :: submitted == old(submitted) + [Submission(step, id)])
      ensures old(submitted) <= submitted
      ensures smooth && old(recorded) == step ==>
        alive && recorded == step + 1 && Fresh(progress.transactions[step].entityId)
    {
      if step in progress.transactions {
        alive := ReconcileRecorded(step);
        assert alive ==> Reconciled(progress, step);
        return;
      }
      var count := SuccessfulWriteCount();
      if count >= 7 { return false; }
      ghost var p := progress;
      alive := RecordPending(step);
      if !alive { return; }
      ghost var q := progress;
      alive := SendPending(step);
      if alive { OnlyStepTwice(p, q, progress, step); }
    }

    /** Send, and note what comes back. */
    method SendPending(step: TxStep) returns (alive: bool)
      requires Pended(step)
      modifies this`submitted, this`file, this`progress
      ensures Durable()
      ensures alive ==> Before(step + 1) && OnlyStep(old(progress), progress, step)
      ensures alive ==> Succeeded(step, old(progress))
      ensures submitted == old(submitted) || submitted == old(submitted) + [old(LastSent(step))]
      ensures alive ==> submitted == old(submitted) + [old(LastSent(step))]
      ensures smooth ==> alive && Fresh(progress.transactions[step].entityId)
    {
      alive := Transmit(step);
      if !alive { return; }
      assert submitted[|submitted| - 1].transactionId == progress.transactions[step].transactionId;
      alive := NoteOutcome(step);
    }

    /** The step has succeeded under the id that it was recorded with. */
    predicate Succeeded(step: TxStep, before: Progress)
      reads this
    {
      && step in progress.transactions && step in before.transactions
      && progress.transactions[step].receiptSuccess && progress.transactions[step].mirrorStatus == Success
      && progress.transactions[step].transactionId == before.transactions[step].transactionId
    }

    /** Note first the receipt of what was sent, and then what the mirror says. */
    method NoteOutcome(step: TxStep) returns (alive: bool)
      requires Sent(step) && Reached(submitted, progress.transactions[step].transactionId)
      modifies this`file, this`progress
      ensures Durable()
      ensures alive ==> Before(step + 1) && OnlyStep(old(progress), progress, step)
      ensures alive ==> Succeeded(step, old(progress))
      ensures smooth ==> alive && Fresh(progress.transactions[step].entityId)
    {
      ghost var p := progress;
      var receipt, created := Receipt();
      if !receipt { return false; }
      alive := RecordOutcome(step, NotFound, created);
      if !alive { return; }
      ghost var q := progress;
      var status, entityId := MirrorTransaction(progress.transactions[step].transactionId);
      if status != Success { return false; }
      alive := RecordOutcome(step, Success, if entityId.Some? then entityId else created);
      if alive { OnlyStepTwice(p, q, progress, step); }
    }

    /** The receipt of a submission, and the entity it created. */
    method Receipt() returns (success: bool, created: Option<Text>)
      ensures smooth ==> success && Fresh(created)
    {
      success, created := *, *;
      if smooth {
        success, created := true, Some(Lit("0.0.1"));
        assert |Lit("0.0.1")| == 5 && |IMMUTABLE_PROOF_CONTRACT_ID| == |IMMUTABLE_PROOF_TOPIC_ID| == 11;
      }
    }

    /** Save identities that a step created. */
    method SaveIdentities(fileId: Option<Text>, contractId: Option<Text>, topicId: Option<Text>, ghost step: nat)
      returns (alive: bool)
      requires Before(step)
      modifies this`file, this`progress
      ensures Durable()
      ensures alive ==> Before(step)
      ensures alive ==> progress == old(progress).(fileId := fileId, contractId := contractId, topicId := topicId)
      ensures smooth ==> alive
    {
      ghost var p := progress;
      progress := progress.(fileId := fileId, contractId := contractId, topicId := topicId);
      SameTransactions(p, progress, recorded, submitted, nextId, mirrorIsHonest);
      assert forall s: TxStep :: Reconciled(p, s) <==> Reconciled(progress, s);
      alive := SaveProgress();
    }

    function EntityOf(step: TxStep): Option<Text>
      reads this
    {
      if step in progress.transactions then progress.transactions[step].entityId else None
    }

    /** The bytecode file: its creation. */
    method CreateFile() returns (alive: bool)
      requires Before(0)
      modifies this
      ensures Durable()
      ensures alive ==> Before(1) && Present(progress.fileId)
      ensures alive ==> progress.contractId == old(progress.contractId) && progress.topicId == old(progress.topicId)
      ensures alive ==> progress.fileId == if old(progress.fileId).Some? then old(progress.fileId) else EntityOf(FILE_CREATE)
      ensures old(submitted) <= submitted
      ensures smooth && old(recorded) == 0 && old(progress.fileId).None? ==> alive && recorded == 1
    {
      alive := Submit(FILE_CREATE);
      if !alive { return; }
      var fileId := OrElse(progress.fileId, EntityOf(FILE_CREATE));
      if !Present(fileId) { return false; }
      alive := SaveIdentities(fileId, progress.contractId, progress.topicId, 1);
    }

    /** The append loop. */
    method AppendChunks() returns (alive: bool)
      requires Before(1)
      modifies this
      ensures Durable()
      ensures alive ==> Before(4) && progress.(transactions := map[]) == old(progress).(transactions := map[])
      ensures old(submitted) <= submitted
      ensures smooth && old(recorded) == 1 ==> alive && recorded == 4
    {
      alive := true;
      for index := 1 to 4
        invariant alive && Before(index)
        invariant progress.(transactions := map[]) == old(progress).(transactions := map[])
        invariant old(submitted) <= submitted
        invariant smooth && old(recorded) == 1 ==> recorded == index
      {
        alive := Submit(index);
        if !alive { return; }
      }
    }

    /** The contract. */
    method CreateContract() returns (alive: bool)
      requires Before(4)
      modifies this
      ensures Durable()
      ensures alive ==> Before(5) && Present(progress.contractId) && progress.contractId != Some(IMMUTABLE_PROOF_CONTRACT_ID)
      ensures alive ==> progress.fileId == old(progress.fileId) && progress.topicId == old(progress.topicId)
      ensures alive ==>
        progress.contractId == if old(progress.contractId).Some? then old(progress.contractId) else EntityOf(CONTRACT_CREATE)
      ensures old(submitted) <= submitted
      ensures smooth && old(recorded) == 4 && old(progress.contractId).None? ==> alive && recorded == 5
    {
      alive := Submit(CONTRACT_CREATE);
      if !alive { return; }
      var contractId := OrElse(progress.contractId, EntityOf(CONTRACT_CREATE));
      if !Present(contractId) || contractId == Some(IMMUTABLE_PROOF_CONTRACT_ID) { return false; }
      alive := SaveIdentities(progress.fileId, contractId, progress.topicId, 5);
    }

    /** The topic. */
    method CreateTopic() returns (alive: bool)
      requires Before(6)
      modifies this
      ensures Durable()
      ensures alive ==> Before(7) && Present(progress.topicId) && progress.topicId != Some(IMMUTABLE_PROOF_TOPIC_ID)
      ensures alive ==> progress.fileId == old(progress.fileId) && progress.contractId == old(progress.contractId)
      ensures alive ==>
        progress.topicId == if old(progress.topicId).Some? then old(progress.topicId) else EntityOf(TOPIC_CREATE)
      ensures old(submitted) <= submitted
      ensures smooth && old(recorded) == 6 && old(progress.topicId).None? ==> alive && recorded == 7
    {
      alive := Submit(TOPIC_CREATE);
      if !alive { return; }
      var topicId := OrElse(progress.topicId, EntityOf(TOPIC_CREATE));
      if !Present(topicId) || topicId == Some(IMMUTABLE_PROOF_TOPIC_ID) { return false; }
      alive := SaveIdentities(progress.fileId, progress.contractId, topicId, 7);
    }

    /** The bytecode file with all its chunks. */
    method UploadBytecode() returns (alive: bool)
      requires Before(0)
      modifies this
      ensures Durable()
      ensures alive ==> Before(4) && Present(progress.fileId)
      ensures alive ==> progress.contractId == old(progress.contractId) && progress.topicId == old(progress.topicId)
      ensures old(submitted) <= submitted
      ensures smooth && old(Untouched()) ==> alive && recorded == 4
    {
      alive := CreateFile();
      if !alive { return; }
      alive := AppendChunks();
    }

    /** The contract and its token association. */
    method DeployContract() returns (alive: bool)
      requires Before(4)
      modifies this
      ensures Durable()
      ensures alive ==> Before(6) && Present(progress.contractId) && progress.contractId != Some(IMMUTABLE_PROOF_CONTRACT_ID)
      ensures alive ==> progress.fileId == old(progress.fileId) && progress.topicId == old(progress.topicId)
      ensures old(submitted) <= submitted
      ensures smooth && old(recorded) == 4 && old(progress.contractId).None? ==> alive && recorded == 6
    {
      alive := CreateContract();
      if !alive { return; }
      alive := Submit(CONTRACT_ASSOCIATION);
    }

    /** `executeWrites`. */
    method ExecuteWrites() returns (alive: bool)
      requires Before(0)
      modifies this
      ensures Durable()
      ensures alive ==> Before(7) && Identified(progress)
      ensures old(submitted) <= submitted
      ensures smooth && old(Untouched()) ==> alive
    {
      alive := UploadBytecode();
      if !alive { return; }
      alive := DeployContract();
      if !alive { return; }
      alive := CreateTopic();
    }

    /** Nothing has been recorded yet. */
    ghost predicate Untouched()
      reads this
    {
      recorded == 0 && progress.fileId.None? && progress.contractId.None? && progress.topicId.None?
    }

    /** The final check of all seven transactions, before the run is marked complete. */
    method VerifyAndComplete() returns (alive: bool)
      requires Before(7) && Identified(progress)
      modifies this`file, this`progress
      ensures Durable()
      ensures alive ==> Before(7) && progress == old(progress).(complete := true)
      ensures smooth ==> alive
    {
      for step := 0 to 7
        invariant Before(7) && Durable() && progress == old(progress)
      {
        assert Reconciled(progress, step);
        alive := ReconcileRecorded(step);
        if !alive { return; }
      }
      var count := SuccessfulWriteCount();
      AllSucceeded(progress, recorded, submitted, nextId, mirrorIsHonest);
      if count != 7 { return false; }
      var fails := Fails();
      if fails { return false; }
      ghost var p := progress;
      progress := progress.(complete := true);
      SameTransactions(p, progress, recorded, submitted, nextId, mirrorIsHonest);
      assert forall s: TxStep :: Reconciled(p, s) <==> Reconciled(progress, s);
      alive := SaveProgress();
    }

    /** Take up the progress file. */
    method Load() returns (alive: bool)
      requires Durable()
      modifies this`file, this`progress, this`recorded
      ensures Durable()
      ensures alive ==> Before(0)
      ensures old(file) == Unreadable ==> !alive && file == Unreadable
      ensures smooth && old(file) == Missing ==> alive && Untouched()
    {
      match file
      case Unreadable => return false;
      case Missing =>
        progress, recorded := Progress(map[], None, None, None, false), 0;
        alive := SaveProgress();
      case Saved(p) =>
        if * { return false; }
        progress := p;
        ghost var k: nat :| Accounts(p, k, submitted, nextId, mirrorIsHonest);
        recorded := k;
        return true;
    }

    /**
     One start of the runner, up to its end or to a crash anywhere. An unreadable progress file stops it.
     A completed run has every step confirmed and every identity recorded, and when nothing goes wrong a
     first start completes.
     */
    method Run() returns (complete: bool)
      requires Durable()
      modifies this
      ensures Durable() && old(submitted) <= submitted
      ensures old(file) == Unreadable ==> !complete && file == Unreadable && submitted == old(submitted)
      ensures complete ==> file == Saved(progress) && progress.complete && Identified(progress)
      ensures complete ==> forall s: TxStep :: Reconciled(progress, s) && progress.transactions[s].receiptSuccess
      ensures complete && mirrorIsHonest ==> |submitted| == 7
      ensures smooth && old(file) == Missing ==> complete
    {
      var fails := Fails();
      if fails { return false; }
      complete := Load();
      if !complete { return; }
      complete := ExecuteWrites();
      if !complete { return; }
      complete := VerifyAndComplete();
      if complete { AllSucceeded(progress, recorded, submitted, nextId, mirrorIsHonest); }
    }

    /**
     Any number of starts with crashes anywhere: every step is submitted at most once, in order,
     seven in all at most, and the recorded steps are a prefix with all but the last reconciled.
     */
    method Sessions(n: nat)
      requires file == Missing && submitted == []
      modifies this
      ensures |submitted| <= 7
      ensures forall i, j :: 0 <= i < j < |submitted| ==> submitted[i].step != submitted[j].step
      ensures file.Saved? ==> exists k: nat ::
        && PrefixOf(file.progress, k) && Unsent(submitted, k) && (mirrorIsHonest ==> k - 1 <= |submitted| <= k)
      ensures Durable()
    {
      for i := 0 to n
        invariant Durable()
      {
        var complete := Run();
      }
      if file.Saved? {
        ghost var k: nat :| Accounts(file.progress, k, submitted, nextId, mirrorIsHonest);
        assert PrefixOf(file.progress, k);
      }
      AtMostSeven(submitted);
    }
  }
}
