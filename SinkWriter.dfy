/**
 * insertBatch and sendToDLQ (consumer/consumer.go): up to MaxRetries
 * attempts of one multi-row insert, each failure followed by a backoff, and
 * on exhaustion one dead-letter publish per event.  The database and the
 * producer are abstract: `execOk[k]` says whether attempt k + 1 succeeds and
 * `publishOk[i]` whether the publish of event i is accepted; a missing entry
 * counts as a failure.  The random jitter and the sleep are not modelled;
 * the integer backoff base is.
 */
module SinkWriter {
  import opened UserActivity
  import opened InsertSql

  /** Whether the answer at index k is a success; indices past the end fail. */
  function Succeeds(answers: seq<bool>, k: nat): bool
  {
    k < |answers| && answers[k]
  }

  function Pow2(a: nat): (p: nat)
    ensures p >= 1
  {
    if a == 0 then 1 else 2 * Pow2(a - 1)
  }

  /** The backoff base after failed attempt a: 100 ms times 2 to the a. */
  function BackoffMs(a: nat): (ms: nat)
    ensures ms >= BaseDelayMs
  {
    BaseDelayMs * Pow2(a)
  }

  /** Each failed attempt doubles the backoff base. */
  lemma BackoffDoubles(a: nat)
    requires a >= 1
    ensures BackoffMs(a) == 2 * BackoffMs(a - 1)
  {
  }

  /** Each further failed attempt waits strictly longer. */
  lemma {:induction false} BackoffIncreases(a: nat, b: nat)
    requires a < b
    ensures BackoffMs(a) < BackoffMs(b)
  {
    if a + 1 < b {
      BackoffIncreases(a, b - 1);
    }
  }

  /** The backoff bases after failed attempts 1..m, in order. */
  function Backoffs(m: nat): (r: seq<nat>)
    ensures |r| == m
  {
    if m == 0 then [] else Backoffs(m - 1) + [BackoffMs(m)]
  }

  /** The a-th backoff (0-based) is the one after failed attempt a + 1. */
  lemma {:induction false} BackoffsAt(m: nat, a: nat)
    requires a < m
    ensures Backoffs(m)[a] == BackoffMs(a + 1)
  {
    if a < m - 1 {
      BackoffsAt(m - 1, a);
    }
  }

  /** The attempts insertBatch makes from attempt k + 1 on. */
  function AttemptsFrom(execOk: seq<bool>, k: nat): (n: nat)
    requires k < MaxRetries
    ensures k + 1 <= n <= MaxRetries
    decreases MaxRetries - k
  {
    if k + 1 == MaxRetries || Succeeds(execOk, k) then k + 1 else AttemptsFrom(execOk, k + 1)
  }

  /** The number of attempts insertBatch makes. */
  function AttemptsMade(execOk: seq<bool>): (n: nat)
    ensures 1 <= n <= MaxRetries
  {
    AttemptsFrom(execOk, 0)
  }

  /** The attempts stop at the first success, and after MaxRetries failures at the latest. */
  lemma AttemptsMadeSpec(execOk: seq<bool>)
    ensures var n := AttemptsMade(execOk);
      && (forall k :: 0 <= k < n - 1 ==> !Succeeds(execOk, k))
      && (Succeeds(execOk, n - 1) || n == MaxRetries)
  {
    AttemptsFromBounds(execOk, 0);
  }

  lemma {:induction false} AttemptsFromBounds(execOk: seq<bool>, k: nat)
    requires k < MaxRetries
    decreases MaxRetries - k
    ensures var n := AttemptsFrom(execOk, k);
      && (forall j :: k <= j < n - 1 ==> !Succeeds(execOk, j))
      && (Succeeds(execOk, n - 1) || n == MaxRetries)
  {
    if !(k + 1 == MaxRetries || Succeeds(execOk, k)) {
      AttemptsFromBounds(execOk, k + 1);
    }
  }

  /** An attempt to publish one event to the dead-letter topic, and whether the producer accepted (queued) it. */
  datatype DlqPublish = DlqPublish(topic: string, event: UserEvent, accepted: bool)

  /** The publishes sendToDLQ attempts: one per event, in batch order, whatever the earlier ones did. */
  function DeadLetters(batch: seq<UserEvent>, publishOk: seq<bool>): (r: seq<DlqPublish>)
    ensures |r| == |batch|
  {
    if batch == [] then []
    else
      var n := |batch| - 1;
      DeadLetters(batch[..n], publishOk) + [DlqPublish(DeadLetterTopic, batch[n], Succeeds(publishOk, n))]
  }

  /** Publish i goes to the dead-letter topic with event i, and a failed earlier publish does not suppress it. */
  lemma {:induction false} DeadLettersAt(batch: seq<UserEvent>, publishOk: seq<bool>, i: nat)
    requires i < |batch|
    ensures DeadLetters(batch, publishOk)[i] == DlqPublish(DeadLetterTopic, batch[i], Succeeds(publishOk, i))
  {
    var n := |batch| - 1;
    if i < n {
      DeadLettersAt(batch[..n], publishOk, i);
    }
  }

  /** n copies of one statement: every attempt executes the same statement. */
  function Repeat(s: Statement, n: nat): (r: seq<Statement>)
    ensures |r| == n
  {
    if n == 0 then [] else Repeat(s, n - 1) + [s]
  }

  lemma {:induction false} RepeatAt(s: Statement, n: nat, k: nat)
    requires k < n
    ensures Repeat(s, n)[k] == s
  {
    if k < n - 1 {
      RepeatAt(s, n - 1, k);
    }
  }

  /**
   * What one insertBatch call does: how many attempts it makes (each
   * executes the batch's statement), the backoffs it takes, whether a write
   * succeeded, and the dead-letter publishes.
   */
  datatype InsertReport = InsertReport(attempts: nat, backoffsMs: seq<nat>, inserted: bool,
                                       deadLettered: seq<DlqPublish>)

  /** The specification of insertBatch. */
  function InsertOutcome(batch: seq<UserEvent>, execOk: seq<bool>, publishOk: seq<bool>): (r: InsertReport)
    ensures 1 <= r.attempts <= MaxRetries
    ensures r.inserted ==> |r.backoffsMs| == r.attempts - 1 && r.deadLettered == []
    ensures !r.inserted ==> |r.backoffsMs| == r.attempts && |r.deadLettered| == |batch|
  {
    var n := AttemptsMade(execOk);
    var ok := Succeeds(execOk, n - 1);
    InsertReport(n, Backoffs(if ok then n - 1 else n), ok, if ok then [] else DeadLetters(batch, publishOk))
  }

  /** A write succeeds iff one of the first MaxRetries attempts succeeds. */
  lemma InsertedIff(batch: seq<UserEvent>, execOk: seq<bool>, publishOk: seq<bool>)
    ensures InsertOutcome(batch, execOk, publishOk).inserted <==> exists k :: 0 <= k < MaxRetries && Succeeds(execOk, k)
  {
    var n := AttemptsMade(execOk);
    AttemptsMadeSpec(execOk);
    if exists k :: 0 <= k < MaxRetries && Succeeds(execOk, k) {
      var k :| 0 <= k < MaxRetries && Succeeds(execOk, k);
      assert k >= n - 1;
    }
  }

  /**
   * If the sink first succeeds on attempt k + 1 <= MaxRetries, exactly k + 1
   * attempts are made, each executing the batch's statement, k backoffs are
   * taken and nothing is dead-lettered.
   */
  lemma SucceedsOnAttempt(batch: seq<UserEvent>, execOk: seq<bool>, publishOk: seq<bool>, k: nat)
    requires k < MaxRetries
    requires Succeeds(execOk, k) && forall j :: 0 <= j < k ==> !Succeeds(execOk, j)
    ensures var r := InsertOutcome(batch, execOk, publishOk);
      r.inserted && r.attempts == k + 1 && r.backoffsMs == Backoffs(k) && r.deadLettered == []
  {
    AttemptsMadeSpec(execOk);
    var n := AttemptsMade(execOk);
    assert n == k + 1;
  }

  /**
   * If every attempt fails, exactly MaxRetries attempts are made, a backoff
   * of 200, 400, 800, 1600 and 3200 ms follows each one (the last one too),
   * and then every event of the unchanged batch is published to the
   * dead-letter topic, in batch order.
   */
  lemma AllAttemptsFail(batch: seq<UserEvent>, execOk: seq<bool>, publishOk: seq<bool>)
    requires forall j :: 0 <= j < MaxRetries ==> !Succeeds(execOk, j)
    ensures var r := InsertOutcome(batch, execOk, publishOk);
      && !r.inserted && r.attempts == MaxRetries
      && r.backoffsMs == Backoffs(MaxRetries) == [200, 400, 800, 1600, 3200]
      && r.deadLettered == DeadLetters(batch, publishOk)
  {
    AttemptsMadeSpec(execOk);
    var r := InsertOutcome(batch, execOk, publishOk);
    assert Pow2(5) == 32 by {
      assert Pow2(1) == 2 && Pow2(2) == 4 && Pow2(3) == 8 && Pow2(4) == 16;
    }
    assert r.backoffsMs == [BackoffMs(1), BackoffMs(2), BackoffMs(3), BackoffMs(4), BackoffMs(5)];
  }

  /** sendToDLQ: publish each event on its own; a failed publish is only logged and the loop goes on. */
  method SendToDlq(batch: seq<UserEvent>, publishOk: seq<bool>) returns (sent: seq<DlqPublish>)
    ensures sent == DeadLetters(batch, publishOk)
  {
    sent := [];
    for i := 0 to |batch|
      invariant sent == DeadLetters(batch[..i], publishOk)
    {
      assert batch[..i + 1][..i] == batch[..i];
      sent := sent + [DlqPublish(DeadLetterTopic, batch[i], Succeeds(publishOk, i))];
    }
    assert batch[..|batch|] == batch;
  }

  /** insertBatch: the counted attempt loop with backoff, then the dead-letter fallback. */
  method InsertBatch(batch: seq<UserEvent>, execOk: seq<bool>, publishOk: seq<bool>)
    returns (executed: seq<Statement>, r: InsertReport)
    requires |batch| >= 1
    ensures r == InsertOutcome(batch, execOk, publishOk)
    ensures executed == Repeat(InsertStatement(batch), r.attempts)
  {
    executed := [];
    var backoffs: seq<nat> := [];
    var attempt := 1;
    while attempt <= MaxRetries
      invariant 1 <= attempt <= MaxRetries + 1
      invariant forall k :: 0 <= k < attempt - 1 ==> !Succeeds(execOk, k)
      invariant executed == Repeat(InsertStatement(batch), attempt - 1)
      invariant backoffs == Backoffs(attempt - 1)
    {
      var stmt := BuildInsert(batch);
      executed := executed + [stmt];
      if Succeeds(execOk, attempt - 1) {
        SucceedsOnAttempt(batch, execOk, publishOk, attempt - 1);
        return executed, InsertReport(attempt, backoffs, true, []);
      }
      assert forall k :: 0 <= k < attempt ==> !Succeeds(execOk, k);
      backoffs := backoffs + [BackoffMs(attempt)];
      attempt := attempt + 1;
    }
    AllAttemptsFail(batch, execOk, publishOk);
    var dead := SendToDlq(batch, publishOk);
    r := InsertReport(MaxRetries, backoffs, false, dead);
  }
}
