/**
 * The consumer's main loop (consumer/consumer.go): parsed events are
 * appended to the batch, a full batch is handed to insertBatch and the batch
 * is reset; a message that does not parse is skipped; a read error ends the
 * loop.  The shutdown handler flushes a non-empty remainder once.  The
 * handler runs here as a step taken between two loop iterations.
 */
module Ingestor {
  import opened Wrappers
  import opened Topic
  import opened UserActivity
  import opened SinkWriter

  /** The answers of the database and of the dead-letter producer for the j-th insertBatch call. */
  datatype Environment = Environment(execOk: seq<seq<bool>>, publishOk: seq<seq<bool>>)

  function AnswersFor(answers: seq<seq<bool>>, j: nat): seq<bool>
  {
    if j < |answers| then answers[j] else []
  }

  /** The events of the messages that parse, in arrival order; it is applied to the reads before any read error. */
  function Parsed(stream: seq<Read<UserEvent>>): (events: seq<UserEvent>)
    ensures |events| <= |stream|
  {
    if stream == [] then []
    else
      Parsed(stream[..|stream| - 1])
      + match stream[|stream| - 1] case Message(Some(e)) => [e] case _ => []
  }

  /** Parsing is per message: the events of a concatenation are the events of its parts. */
  lemma {:induction false} ParsedAppend(a: seq<Read<UserEvent>>, b: seq<Read<UserEvent>>)
    ensures Parsed(a + b) == Parsed(a) + Parsed(b)
  {
    if b != [] {
      var b' := b[..|b| - 1];
      assert (a + b)[..|a + b| - 1] == a + b';
      ParsedAppend(a, b');
    } else {
      assert a + b == a;
    }
  }

  lemma ParsedSnoc(stream: seq<Read<UserEvent>>, i: nat)
    requires i < |stream|
    ensures Parsed(stream[..i + 1]) == Parsed(stream[..i]) + Parsed([stream[i]])
  {
    assert stream[..i + 1] == stream[..i] + [stream[i]];
    ParsedAppend(stream[..i], [stream[i]]);
  }

  /** A malformed message between two others is dropped on its own: only the well-formed ones reach the batch. */
  lemma {:induction false} PoisonPillIsolated(before: seq<Read<UserEvent>>, after: seq<Read<UserEvent>>)
    ensures Parsed(before + [Message(None)] + after) == Parsed(before) + Parsed(after)
  {
    var pill: seq<Read<UserEvent>> := [Message(None)];
    assert pill[..0] == [];
    assert Parsed(pill) == [];
    ParsedAppend(before, pill);
    ParsedAppend(before + pill, after);
  }

  /** The accumulator: the current batch and every batch flushed so far. */
  datatype Accum = Accum(batch: seq<UserEvent>, flushed: seq<seq<UserEvent>>)

  /** consumer/consumer.go:95-101: append the event, and flush and reset once the batch holds BatchSize events. */
  function Append(a: Accum, e: UserEvent): (r: Accum)
    ensures |a.batch| < BatchSize ==> |r.batch| < BatchSize
    ensures |a.batch| + 1 < BatchSize ==> r == Accum(a.batch + [e], a.flushed)
    ensures |a.batch| + 1 == BatchSize ==> r == Accum([], a.flushed + [a.batch + [e]])
  {
    var b := a.batch + [e];
    if |b| >= BatchSize then Accum([], a.flushed + [b]) else Accum(b, a.flushed)
  }

  /** Appending a sequence of events, one at a time. */
  function Feed(a: Accum, events: seq<UserEvent>): (r: Accum)
    ensures |a.flushed| <= |r.flushed|
  {
    if events == [] then a else Append(Feed(a, events[..|events| - 1]), events[|events| - 1])
  }

  /** Feeding two runs of events one after the other is feeding their concatenation. */
  lemma {:induction false} FeedAppend(a: Accum, xs: seq<UserEvent>, ys: seq<UserEvent>)
    ensures Feed(a, xs + ys) == Feed(Feed(a, xs), ys)
  {
    if ys == [] {
      assert xs + ys == xs;
    } else {
      var ys' := ys[..|ys| - 1];
      assert (xs + ys)[..|xs + ys| - 1] == xs + ys';
      FeedAppend(a, xs, ys');
    }
  }

  /** The concatenation of batches. */
  function Flatten(batches: seq<seq<UserEvent>>): seq<UserEvent>
  {
    if batches == [] then [] else Flatten(batches[..|batches| - 1]) + batches[|batches| - 1]
  }

  lemma FlattenSnoc(batches: seq<seq<UserEvent>>, b: seq<UserEvent>)
    ensures Flatten(batches + [b]) == Flatten(batches) + b
  {
    assert (batches + [b])[..|batches|] == batches;
  }

  /** The batch is below capacity and every flushed batch is exactly BatchSize long. */
  ghost predicate Bounded(a: Accum)
  {
    |a.batch| < BatchSize && forall j :: 0 <= j < |a.flushed| ==> |a.flushed[j]| == BatchSize
  }

  /** Feeding events keeps the accumulator bounded and only appends flushed batches. */
  lemma {:induction false} FeedBounded(a: Accum, events: seq<UserEvent>)
    requires Bounded(a)
    ensures var r := Feed(a, events);
      && Bounded(r)
      && |a.flushed| <= |r.flushed| && r.flushed[..|a.flushed|] == a.flushed
  {
    if events != [] {
      var init := events[..|events| - 1];
      FeedBounded(a, init);
      var m := Feed(a, init);
      var r := Append(m, events[|events| - 1]);
      assert r.flushed[..|m.flushed|] == m.flushed;
      assert r.flushed[..|a.flushed|] == m.flushed[..|a.flushed|];
    }
  }

  /**
   * Feeding events loses, duplicates and reorders nothing: the flushed
   * batches followed by the current batch are the earlier ones followed by
   * the new events, in arrival order.
   */
  lemma {:induction false} FeedPreservesEvents(a: Accum, events: seq<UserEvent>)
    ensures var r := Feed(a, events);
      Flatten(r.flushed) + r.batch == Flatten(a.flushed) + a.batch + events
  {
    if events == [] {
      assert Flatten(a.flushed) + a.batch + events == Flatten(a.flushed) + a.batch;
    } else {
      var init := events[..|events| - 1];
      var e := events[|events| - 1];
      FeedPreservesEvents(a, init);
      var m := Feed(a, init);
      var r := Append(m, e);
      if |m.batch + [e]| >= BatchSize {
        FlattenSnoc(m.flushed, m.batch + [e]);
      }
      assert Flatten(r.flushed) + r.batch == Flatten(m.flushed) + m.batch + [e];
      assert events == init + [e];
    }
  }

  /** While the batch stays below capacity nothing is flushed: the events are just appended. */
  lemma {:induction false} FeedBelowCapacity(a: Accum, events: seq<UserEvent>)
    requires |a.batch| + |events| < BatchSize
    ensures Feed(a, events) == Accum(a.batch + events, a.flushed)
  {
    if events != [] {
      var init := events[..|events| - 1];
      FeedBelowCapacity(a, init);
      assert a.batch + init + [events[|events| - 1]] == a.batch + events;
    }
  }

  /** The event that fills the batch flushes it, with all its events in arrival order, and leaves it empty. */
  lemma FeedToCapacity(a: Accum, events: seq<UserEvent>)
    requires |events| >= 1 && |a.batch| + |events| == BatchSize
    ensures Feed(a, events) == Accum([], a.flushed + [a.batch + events])
  {
    var init := events[..|events| - 1];
    FeedBelowCapacity(a, init);
    assert a.batch + init + [events[|events| - 1]] == a.batch + events;
  }

  /** `report` is what the j-th insertBatch call does with `batch` under the environment's answers. */
  ghost predicate Answered(env: Environment, j: nat, batch: seq<UserEvent>, report: InsertReport)
  {
    |batch| >= 1 && report == InsertOutcome(batch, AnswersFor(env.execOk, j), AnswersFor(env.publishOk, j))
  }

  /** The j-th logged call is insertBatch's outcome for the j-th batch. */
  ghost predicate CallLogged(env: Environment, flushes: seq<seq<UserEvent>>, reports: seq<InsertReport>, j: nat)
  {
    j < |flushes| && j < |reports| && Answered(env, j, flushes[j], reports[j])
  }

  /** Logging one more answered call keeps every earlier call logged. */
  lemma LoggedSnoc(env: Environment, flushes: seq<seq<UserEvent>>, reports: seq<InsertReport>,
                   batch: seq<UserEvent>, report: InsertReport)
    requires |reports| == |flushes|
    requires forall j :: 0 <= j < |flushes| ==> CallLogged(env, flushes, reports, j)
    requires Answered(env, |flushes|, batch, report)
    ensures forall j :: 0 <= j < |flushes| + 1 ==> CallLogged(env, flushes + [batch], reports + [report], j)
  {
    forall k | 0 <= k < |flushes| + 1
      ensures CallLogged(env, flushes + [batch], reports + [report], k)
    {
      if k < |flushes| {
        assert CallLogged(env, flushes, reports, k);
        assert (flushes + [batch])[k] == flushes[k] && (reports + [report])[k] == reports[k];
      }
    }
  }

  /** The consumer's loop state, with the calls of insertBatch it has made. */
  class Consumer {
    /** What the database and the dead-letter producer will answer. */
    const env: Environment
    var eventBatch: seq<UserEvent>
    /** Every batch handed to insertBatch, in call order. */
    var flushes: seq<seq<UserEvent>>
    /** What each of those calls did. */
    var reports: seq<InsertReport>
    /** Set once the shutdown handler has run; the process then exits. */
    var stopped: bool

    /** Every logged call is insertBatch's outcome for its batch under the environment's answers. */
    ghost predicate Logged()
      reads this`flushes, this`reports
    {
      && |reports| == |flushes|
      && forall j :: 0 <= j < |flushes| ==> CallLogged(env, flushes, reports, j)
    }

    /** The logged calls are insertBatch's outcomes and the batch is below capacity between two messages. */
    ghost predicate Valid()
      reads this`flushes, this`reports, this`eventBatch
    {
      Logged() && |eventBatch| < BatchSize
    }

    constructor (env: Environment)
      ensures Valid() && this.env == env
      ensures eventBatch == [] && flushes == [] && reports == [] && !stopped
    {
      this.env := env;
      eventBatch := [];
      flushes := [];
      reports := [];
      stopped := false;
    }

    /** One call of insertBatch with `batch`, answered by the environment's next answers. */
    method CallInsertBatch(batch: seq<UserEvent>)
      requires Logged() && |batch| >= 1
      modifies this`flushes, this`reports
      ensures Logged()
      ensures flushes == old(flushes) + [batch]
    {
      var j := |flushes|;
      var _, report := InsertBatch(batch, AnswersFor(env.execOk, j), AnswersFor(env.publishOk, j));
      assert Answered(env, j, batch, report);
      LoggedSnoc(env, flushes, reports, batch, report);
      flushes := flushes + [batch];
      reports := reports + [report];
    }

    /** consumer/consumer.go:95-101: append a parsed event; insert and reset the batch once it is full. */
    method Accept(e: UserEvent)
      requires Valid() && !stopped
      modifies this`eventBatch, this`flushes, this`reports
      ensures Valid()
      ensures Accum(eventBatch, flushes) == Append(Accum(old(eventBatch), old(flushes)), e)
    {
      eventBatch := eventBatch + [e];
      if |eventBatch| >= BatchSize {
        CallInsertBatch(eventBatch);
        eventBatch := [];
      }
    }

    /** consumer/consumer.go:89-101: one message; a parsed event is accepted, an unparsable one is skipped. */
    method Step(m: Read<UserEvent>)
      requires Valid() && !stopped && m.Message?
      modifies this`eventBatch, this`flushes, this`reports
      ensures Valid()
      ensures Accum(eventBatch, flushes) == Feed(Accum(old(eventBatch), old(flushes)), Parsed([m]))
    {
      assert [m][..0] == [];
      match m.parsed {
        case Some(e) =>
          assert Parsed([m]) == [e];
          assert [e][..0] == [];
          Accept(e);
        case None =>
          assert Parsed([m]) == [];
      }
    }

    /**
     * The read loop over `stream`, the reads that happen before any shutdown
     * signal: it stops at the first read error and skips messages that do
     * not parse.
     */
    method Run(stream: seq<Read<UserEvent>>) returns (endedByError: bool)
      requires Valid() && !stopped
      modifies this`eventBatch, this`flushes, this`reports
      ensures Valid()
      ensures endedByError <==> ReadsBeforeError(stream) < |stream|
      ensures Accum(eventBatch, flushes)
              == Feed(Accum(old(eventBatch), old(flushes)), Parsed(stream[..ReadsBeforeError(stream)]))
    {
      ghost var a0 := Accum(eventBatch, flushes);
      ghost var n := ReadsBeforeError(stream);
      var i := 0;
      while i < |stream| && stream[i].Message?
        invariant 0 <= i <= n
        invariant Valid()
        invariant Accum(eventBatch, flushes) == Feed(a0, Parsed(stream[..i]))
      {
        ghost var before := Parsed(stream[..i]);
        Step(stream[i]);
        ParsedSnoc(stream, i);
        FeedAppend(a0, before, Parsed([stream[i]]));
        i := i + 1;
      }
      endedByError := i < |stream|;
    }

    /** consumer/consumer.go:68-79: on the signal, insert a non-empty remainder once, then stop. */
    method Shutdown()
      requires Valid() && !stopped
      modifies this`flushes, this`reports, this`stopped
      ensures Valid() && stopped
      ensures |eventBatch| > 0 ==> flushes == old(flushes) + [eventBatch]
      ensures |eventBatch| == 0 ==> flushes == old(flushes)
    {
      if |eventBatch| > 0 {
        CallInsertBatch(eventBatch);
      }
      stopped := true;
    }
  }

  /**
   * After the loop has fed `events` to an empty accumulator, and the
   * shutdown handler has flushed the remainder or not, every event is in
   * exactly one flushed batch, in order, or left over; only a shutdown flush
   * holds fewer than BatchSize events.
   */
  lemma SessionAccounts(events: seq<UserEvent>, fed: Accum, shutdown: bool,
                        flushed: seq<seq<UserEvent>>, lost: seq<UserEvent>)
    requires fed == Feed(Accum([], []), events)
    requires shutdown ==> lost == [] && flushed == fed.flushed + (if |fed.batch| > 0 then [fed.batch] else [])
    requires !shutdown ==> lost == fed.batch && flushed == fed.flushed
    ensures Flatten(flushed) + lost == events
    ensures forall j :: 0 <= j < |flushed| ==> |flushed[j]| == BatchSize || (shutdown && j == |flushed| - 1)
    ensures |lost| < BatchSize
  {
    FeedBounded(Accum([], []), events);
    FeedPreservesEvents(Accum([], []), events);
    assert Flatten(fed.flushed) + fed.batch == events;
    if shutdown && |fed.batch| > 0 {
      FlattenSnoc(fed.flushed, fed.batch);
      assert forall j :: 0 <= j < |fed.flushed| ==> flushed[j] == fed.flushed[j];
    } else if shutdown {
      assert flushed == fed.flushed;
    }
  }

  /**
   * A whole run of the consumer: the loop reads `stream`; if the signal
   * arrives while the loop is still reading (`signalled` and no read error),
   * the handler flushes the remainder.  `lost` is what is still buffered
   * when the process ends.  Every parsed event is part of exactly one
   * inserted or dead-lettered batch, in arrival order, or lost at the end;
   * all batches but a shutdown flush hold exactly ten events; and the
   * shutdown path loses nothing.
   */
  method Session(env: Environment, stream: seq<Read<UserEvent>>, signalled: bool)
    returns (flushed: seq<seq<UserEvent>>, reports: seq<InsertReport>, lost: seq<UserEvent>)
    ensures Flatten(flushed) + lost == Parsed(stream[..ReadsBeforeError(stream)])
    ensures |reports| == |flushed|
    ensures forall j :: 0 <= j < |flushed| ==> Answered(env, j, flushed[j], reports[j])
    ensures forall j :: 0 <= j < |flushed| ==> |flushed[j]| == BatchSize || (signalled && j == |flushed| - 1)
    ensures signalled && ReadsBeforeError(stream) == |stream| ==> lost == []
    ensures |lost| < BatchSize
  {
    var c := new Consumer(env);
    var endedByError := c.Run(stream);
    ghost var fed := Accum(c.eventBatch, c.flushes);
    if signalled && !endedByError {
      c.Shutdown();
    }
    flushed, reports := c.flushes, c.reports;
    lost := if c.stopped then [] else c.eventBatch;
    SessionAccounts(Parsed(stream[..ReadsBeforeError(stream)]), fed, c.stopped, flushed, lost);
    forall j | 0 <= j < |flushed|
      ensures Answered(env, j, flushed[j], reports[j])
    {
      assert CallLogged(env, flushed, reports, j);
    }
  }
}
