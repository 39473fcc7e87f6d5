/**
 * The unit of work: saving the context's pending changes, and running an operation
 * inside a database transaction under the context's execution strategy. The strategy
 * is a parameter: `maxRetries` re-runs of the whole attempt (begin, operation, commit)
 * after a transient failure. The context as configured enables no retries, which is
 * `maxRetries == 0`: exactly one attempt.
 *
 * Two layers are kept apart: the rows (what the connection sees — a rollback returns
 * them to their state when the transaction began) and the change tracker's pending
 * changes, which a rollback leaves as the operation left them.
 */
module UnitOfWorkModel {
  import opened Wrappers
  import opened Query
  import opened Store

  /** An exception the operation throws; the execution strategy retries transient ones. */
  datatype Failure = Failure(code: nat, transient: bool)

  /** What one run of the operation leaves behind: the rows (written by any
    * `SaveChanges` inside it), the pending changes, and the exception it threw, if any. */
  datatype Effect = Effect(rows: seq<Record>, pending: seq<Change>, failure: Option<Failure>)

  /** The operation, as a function of the attempt number and the state it starts from. */
  type Operation = (nat, seq<Record>, seq<Change>) -> Effect

  datatype TxResult =
    | Completed
    | Failed(failure: Failure)
    | AlreadyInTransaction   // BeginTransaction on a connection that already has one

  /** Where a call of `ExecuteInTransaction` ends. */
  datatype Run = Run(result: TxResult, rows: seq<Record>, pending: seq<Change>, log: seq<TxEvent>, attempts: nat)

  /** The events of an attempt whose operation completed. */
  const CommittedAttempt: seq<TxEvent> := [BeganTx, CommittedTx, DisposedTx]
  /** The events of an attempt whose operation threw. */
  const RolledBackAttempt: seq<TxEvent> := [BeganTx, RolledBackTx, DisposedTx]

  /** The attempts from number `attempt` on, each starting from the rows `rows` the
    * transaction began with and from the pending changes the previous attempt left. */
  function RunFrom(op: Operation, maxRetries: nat, rows: seq<Record>, pending: seq<Change>, attempt: nat): (r: Run)
    requires attempt <= maxRetries
    ensures 1 <= r.attempts <= maxRetries - attempt + 1
    ensures r.result != AlreadyInTransaction
    decreases maxRetries - attempt
  {
    var e := op(attempt, rows, pending);
    if e.failure.None? then
      Run(Completed, e.rows, e.pending, CommittedAttempt, 1)
    else if e.failure.value.transient && attempt < maxRetries then
      var next := RunFrom(op, maxRetries, rows, e.pending, attempt + 1);
      Run(next.result, next.rows, next.pending, RolledBackAttempt + next.log, next.attempts + 1)
    else
      Run(Failed(e.failure.value), rows, e.pending, RolledBackAttempt, 1)
  }

  /** `ExecuteInTransaction(op)` from rows `rows` and pending changes `pending`. */
  function Execute(op: Operation, maxRetries: nat, rows: seq<Record>, pending: seq<Change>): (r: Run)
    ensures 1 <= r.attempts <= maxRetries + 1
    ensures r.result != AlreadyInTransaction
  {
    RunFrom(op, maxRetries, rows, pending, 0)
  }

  // ---------------------------------------------------------------------------
  // Properties of the transaction wrapper

  /** How many times `e` occurs in `log`. */
  function Count(log: seq<TxEvent>, e: TxEvent): (n: nat)
    ensures n <= |log|
  {
    if log == [] then 0 else (if log[0] == e then 1 else 0) + Count(log[1..], e)
  }

  lemma {:induction false} CountAppend(a: seq<TxEvent>, b: seq<TxEvent>, e: TxEvent)
    ensures Count(a + b, e) == Count(a, e) + Count(b, e)
    decreases |a|
  {
    if a == [] {
      assert a + b == b;
    } else {
      assert (a + b)[0] == a[0] && (a + b)[1..] == a[1..] + b;
      CountAppend(a[1..], b, e);
    }
  }

  /** The log is a sequence of attempts, each begun, then committed or rolled back, then
    * disposed: every attempt but the last rolled back, and the last committed exactly
    * when the operation completed. */
  predicate Attempts(log: seq<TxEvent>, completed: bool)
    decreases |log|
  {
    if |log| <= 3 then log == (if completed then CommittedAttempt else RolledBackAttempt)
    else log[..3] == RolledBackAttempt && Attempts(log[3..], completed)
  }

  /** Every attempt of a run begins a fresh transaction and disposes it; all but the last
    * roll back; the last commits when the operation completed and rolls back when it threw. */
  lemma {:induction false} RunLog(op: Operation, maxRetries: nat, rows: seq<Record>, pending: seq<Change>, attempt: nat)
    requires attempt <= maxRetries
    ensures var r := RunFrom(op, maxRetries, rows, pending, attempt);
      Attempts(r.log, r.result.Completed?) && |r.log| == 3 * r.attempts
    decreases maxRetries - attempt
  {
    var e := op(attempt, rows, pending);
    if e.failure.Some? && e.failure.value.transient && attempt < maxRetries {
      var next := RunFrom(op, maxRetries, rows, e.pending, attempt + 1);
      RunLog(op, maxRetries, rows, e.pending, attempt + 1);
      var log := RolledBackAttempt + next.log;
      assert log[..3] == RolledBackAttempt && log[3..] == next.log;
    }
  }

  /** A run commits exactly once when the operation completed, and never otherwise. */
  lemma {:induction false} RunCommitsOnce(op: Operation, maxRetries: nat, rows: seq<Record>, pending: seq<Change>, attempt: nat)
    requires attempt <= maxRetries
    ensures var r := RunFrom(op, maxRetries, rows, pending, attempt);
      Count(r.log, CommittedTx) == (if r.result.Completed? then 1 else 0)
    decreases maxRetries - attempt
  {
    var r := RunFrom(op, maxRetries, rows, pending, attempt);
    var e := op(attempt, rows, pending);
    if e.failure.Some? && e.failure.value.transient && attempt < maxRetries {
      var next := RunFrom(op, maxRetries, rows, e.pending, attempt + 1);
      RunCommitsOnce(op, maxRetries, rows, e.pending, attempt + 1);
      CountAppend(RolledBackAttempt, next.log, CommittedTx);
      assert Count(RolledBackAttempt, CommittedTx) == 0 by {
        assert RolledBackAttempt[1..][1..][1..] == [];
      }
    } else {
      assert r.log[1..][1..][1..] == [];
    }
  }

  /** A failed call leaves the rows exactly as they were before it: every attempt's
    * writes were rolled back. */
  lemma {:induction false} FailedRunRestoresRows(op: Operation, maxRetries: nat, rows: seq<Record>, pending: seq<Change>, attempt: nat)
    requires attempt <= maxRetries
    ensures RunFrom(op, maxRetries, rows, pending, attempt).result.Failed? ==>
      RunFrom(op, maxRetries, rows, pending, attempt).rows == rows
    decreases maxRetries - attempt
  {
    var e := op(attempt, rows, pending);
    if e.failure.Some? && e.failure.value.transient && attempt < maxRetries {
      FailedRunRestoresRows(op, maxRetries, rows, e.pending, attempt + 1);
    }
  }

  /** A call fails only with a failure the strategy does not retry: one that is not
    * transient, or one met on the last attempt the strategy allows. */
  lemma {:induction false} FailureIsFinal(op: Operation, maxRetries: nat, rows: seq<Record>, pending: seq<Change>, attempt: nat)
    requires attempt <= maxRetries
    ensures var r := RunFrom(op, maxRetries, rows, pending, attempt);
      r.result.Failed? ==> !r.result.failure.transient || r.attempts == maxRetries - attempt + 1
    decreases maxRetries - attempt
  {
    var e := op(attempt, rows, pending);
    if e.failure.Some? && e.failure.value.transient && attempt < maxRetries {
      FailureIsFinal(op, maxRetries, rows, e.pending, attempt + 1);
    }
  }

  /** An operation that throws a non-transient exception on its first attempt is not
    * re-run: that exception reaches the caller, the rows are restored, and the
    * changes it staged stay in the change tracker. */
  lemma FirstFailurePropagates(op: Operation, maxRetries: nat, rows: seq<Record>, pending: seq<Change>)
    requires op(0, rows, pending).failure.Some? && !op(0, rows, pending).failure.value.transient
    ensures Execute(op, maxRetries, rows, pending) ==
      Run(Failed(op(0, rows, pending).failure.value), rows, op(0, rows, pending).pending, RolledBackAttempt, 1)
  {
  }

  /** An operation that only stages changes and completes commits a transaction that
    * wrote nothing: the rows are unchanged and the staged changes wait for a later
    * `SaveChanges`, outside the transaction. */
  lemma StagingOnlyCommitsNothing(rows: seq<Record>, pending: seq<Change>, staged: seq<Change>, maxRetries: nat)
    ensures var op: Operation := (n, rs, ps) => Effect(rs, ps + staged, None);
      Execute(op, maxRetries, rows, pending) == Run(Completed, rows, pending + staged, CommittedAttempt, 1)
  {
  }

  /** An insertion staged by an operation that then throws survives the rollback: the
    * next `SaveChanges` on the same context writes it after all. */
  lemma StagedInsertSurvivesRollback(t: EntityType, rows: seq<Record>, x: Record, f: Failure, maxRetries: nat)
    requires !f.transient
    ensures var op: Operation := (n, rs, ps) => Effect(rs, ps + [Added(x)], Some(f));
      var r := Execute(op, maxRetries, rows, []);
      && r.result == Failed(f) && r.rows == rows
      && ApplyChanges(t, r.rows, r.pending) == rows + [x]
  {
    assert [] + [Added(x)] == [Added(x)];
    assert [Added(x)][1..] == [];
  }

  // ---------------------------------------------------------------------------
  // One attempt at a time

  lemma AppendAssoc(a: seq<TxEvent>, b: seq<TxEvent>, c: seq<TxEvent>)
    ensures (a + b) + c == a + (b + c)
  {
  }

  /** A run after `n` attempts that logged `logged`. */
  function After(logged: seq<TxEvent>, n: nat, r: Run): Run {
    Run(r.result, r.rows, r.pending, logged + r.log, n + r.attempts)
  }

  /** A transient failure before the last allowed attempt hands over to the next attempt,
    * from the same rows and from the pending changes the failed one left. */
  lemma RetryStep(op: Operation, maxRetries: nat, rows: seq<Record>, pending: seq<Change>, attempt: nat, logged: seq<TxEvent>)
    requires attempt < maxRetries
    requires op(attempt, rows, pending).failure.Some? && op(attempt, rows, pending).failure.value.transient
    ensures After(logged, attempt, RunFrom(op, maxRetries, rows, pending, attempt)) ==
      After(logged + RolledBackAttempt, attempt + 1, RunFrom(op, maxRetries, rows, op(attempt, rows, pending).pending, attempt + 1))
  {
    var next := RunFrom(op, maxRetries, rows, op(attempt, rows, pending).pending, attempt + 1);
    AppendAssoc(logged, RolledBackAttempt, next.log);
  }

  /** The attempt that ends the run: completed, or failed without a retry. */
  lemma LastStep(op: Operation, maxRetries: nat, rows: seq<Record>, pending: seq<Change>, attempt: nat, logged: seq<TxEvent>)
    requires attempt <= maxRetries
    requires var f := op(attempt, rows, pending).failure; f.None? || !f.value.transient || attempt == maxRetries
    ensures var e := op(attempt, rows, pending);
      After(logged, attempt, RunFrom(op, maxRetries, rows, pending, attempt)) ==
        if e.failure.None? then Run(Completed, e.rows, e.pending, logged + CommittedAttempt, attempt + 1)
        else Run(Failed(e.failure.value), rows, e.pending, logged + RolledBackAttempt, attempt + 1)
  {
  }

  // ---------------------------------------------------------------------------
  // The unit of work

  class UnitOfWork {
    const context: DbContext

    constructor (context: DbContext)
      ensures this.context == context
    {
      this.context := context;
    }

    /** The context's `SaveChanges`, its count passed through unchanged. */
    method SaveChangesAsync() returns (written: nat)
      modifies context
      ensures written == |old(context.pending)|
      ensures context.rows == ApplyChanges(context.entityType, old(context.rows), old(context.pending))
      ensures context.pending == [] && context.tx == old(context.tx)
      ensures context.snapshot == old(context.snapshot) && context.txLog == old(context.txLog)
    {
      written := context.SaveChanges();
    }

    /** One attempt, the closure the execution strategy runs: begin a transaction, run
      * the operation, then commit, or roll back when the operation threw; the `using`
      * scope disposes the transaction either way. */
    method RunAttempt(op: Operation, attempt: nat) returns (failure: Option<Failure>)
      requires context.tx == NoTransaction
      modifies context
      ensures var e := op(attempt, old(context.rows), old(context.pending));
        && failure == e.failure && context.pending == e.pending && context.tx == NoTransaction
        && context.rows == (if e.failure.None? then e.rows else old(context.rows))
        && context.txLog == old(context.txLog) + (if e.failure.None? then CommittedAttempt else RolledBackAttempt)
    {
      context.BeginTransaction();
      var e := op(attempt, context.rows, context.pending);
      context.rows, context.pending := e.rows, e.pending;
      if e.failure.None? {
        context.Commit();
      } else {
        context.Rollback();
      }
      context.DisposeTransaction();
      failure := e.failure;
    }

    /** Runs `op` inside a transaction: commit when it completes; roll back and rethrow
      * when it throws; the strategy re-runs the whole attempt, with a fresh transaction,
      * after a transient failure, at most `maxRetries` times. */
    method ExecuteInTransaction(op: Operation, maxRetries: nat) returns (result: TxResult)
      modifies context
      ensures old(context.tx) != NoTransaction ==>
        result == AlreadyInTransaction && context.rows == old(context.rows) &&
        context.pending == old(context.pending) && context.tx == old(context.tx) && context.txLog == old(context.txLog)
      ensures old(context.tx) == NoTransaction ==>
        var r := Execute(op, maxRetries, old(context.rows), old(context.pending));
        && result == r.result && context.rows == r.rows && context.pending == r.pending
        && context.txLog == old(context.txLog) + r.log && context.tx == NoTransaction
    {
      if context.tx != NoTransaction {
        return AlreadyInTransaction;
      }
      ghost var total := Execute(op, maxRetries, context.rows, context.pending);
      ghost var logged: seq<TxEvent> := [];
      var attempt := 0;
      assert After([], 0, total) == total;
      while true
        invariant attempt <= maxRetries
        invariant context.tx == NoTransaction && context.rows == old(context.rows)
        invariant total == After(logged, attempt, RunFrom(op, maxRetries, context.rows, context.pending, attempt))
        invariant context.txLog == old(context.txLog) + logged
        decreases maxRetries - attempt
      {
        ghost var pendingBefore := context.pending;
        var failure := RunAttempt(op, attempt);
        if failure.None? || !failure.value.transient || attempt == maxRetries {
          LastStep(op, maxRetries, old(context.rows), pendingBefore, attempt, logged);
          AppendAssoc(old(context.txLog), logged, if failure.None? then CommittedAttempt else RolledBackAttempt);
          return if failure.None? then Completed else Failed(failure.value);
        }
        RetryStep(op, maxRetries, old(context.rows), pendingBefore, attempt, logged);
        AppendAssoc(old(context.txLog), logged, RolledBackAttempt);
        logged := logged + RolledBackAttempt;
        attempt := attempt + 1;
      }
    }
  }
}
