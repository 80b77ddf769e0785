/**
 * The store loop: rows are taken from the shared buffers into the writer, flushed in
 * bundles by one background task at a time, retried after a delay when a flush fails
 * for now, and counted as written or lost.
 */
module StoreLoops {
  import opened Wrappers
  import opened Flushing

  /**
   * How a flush task ends: with an outcome, by the database's answers to its COPYs, or by
   * a panic or an abort when some of the rows are committed.
   */
  datatype Completion = Outcome(connections: nat, answers: Answers) | JoinError(reached: nat -> bool)

  /** The fate of each row of a bundle; a row that comes to nothing is not committed by half a flush. */
  function FateIn(bundle: seq<Row>, done: Completion): nat -> Fate {
    match done
    case Outcome(connections, answers) => Fates(bundle, connections, answers)
    case JoinError(reached) =>
      (p: nat) => if p < |bundle| && reached(p) && Weight(bundle[p]) > 0 then Committed else Gone
  }

  /** A bundle after a flush: committed, lost, in no COPY, and left for a retry. */
  datatype Parts = Parts(sent: seq<Row>, gone: seq<Row>, missed: seq<Row>, left: seq<Row>)

  /** The rows that came back are left when the loop keeps them, and lost when it does not. */
  function PartsOf(bundle: seq<Row>, keep: bool, done: Completion): Parts {
    var fate := FateIn(bundle, done);
    var back := Ended(bundle, fate, Kept);
    Parts(Ended(bundle, fate, Committed), Ended(bundle, fate, Gone) + (if keep then [] else back),
          Ended(bundle, fate, Missed), if keep then back else [])
  }

  const SECOND := 1_000_000_000
  const FLUSH_BACKOFF_SECS: seq<nat> := [1, 4, 15, 30, 60]

  /** A bundle retained after a failure for now. */
  datatype PendingRetry = PendingRetry(bundle: seq<Row>, attempts: nat, nextTry: nat)

  /** What one shared buffer holds at the moment it is emptied. */
  datatype Shard = Shard(scalars: seq<Row>, others: seq<Update>)

  /** A capture, or a message of the fallback channel: the rows the writer takes of it, none if it refuses it. */
  type Update = seq<Row>

  const FALLBACK_LIMIT := 10_000

  /** What one turn of the loop meets. */
  datatype Tick = Tick(
    untilReap: nat,
    done: Option<Completion>,
    untilCheck: nat,
    flushDue: bool,
    shards: seq<Shard>,
    sent: seq<Update>)

  /** What the shutdown meets: the ends of its three flushes, and the last content of the buffers. */
  datatype Ending = Ending(inFlight: Completion, retry: Completion, final: Completion, shards: seq<Shard>)

  // -------------------------------------------------------------------------
  // The ledger
  // -------------------------------------------------------------------------

  /**
   * One bundle taken from the writer: its rows and what became of them, the instants at
   * which the loop started to flush it, at which a flush of it failed for now, and at
   * which it was given up, and the instant at which the shutdown flushed it, if it did.
   */
  datatype Batch = Batch(
    rows: seq<Row>, committed: seq<Row>, lost: seq<Row>, missed: seq<Row>,
    starts: seq<nat>, failures: seq<nat>, givenUp: Option<nat>, final: Option<nat>)

  function AllRows(batches: seq<Batch>): seq<Row>
    decreases |batches|
  {
    if batches == [] then [] else AllRows(batches[..|batches| - 1]) + batches[|batches| - 1].rows
  }

  function AllCommitted(batches: seq<Batch>): seq<Row>
    decreases |batches|
  {
    if batches == [] then [] else AllCommitted(batches[..|batches| - 1]) + batches[|batches| - 1].committed
  }

  function AllLost(batches: seq<Batch>): seq<Row>
    decreases |batches|
  {
    if batches == [] then [] else AllLost(batches[..|batches| - 1]) + batches[|batches| - 1].lost
  }

  function AllMissed(batches: seq<Batch>): seq<Row>
    decreases |batches|
  {
    if batches == [] then [] else AllMissed(batches[..|batches| - 1]) + batches[|batches| - 1].missed
  }

  /** Every row of the batch is committed, lost, in no COPY, or still to be settled. */
  ghost predicate Accounted(b: Batch, remaining: seq<Row>) {
    multiset(b.rows) == multiset(b.committed) + multiset(b.lost) + multiset(b.missed) + multiset(remaining)
  }

  /** All batches are settled but the last, of which some rows may remain. */
  ghost predicate Ledger(batches: seq<Batch>, remaining: seq<Row>) {
    && (batches == [] ==> remaining == [])
    && (forall i | 0 <= i < |batches| - 1 :: Accounted(batches[i], []))
    && (batches != [] ==> Accounted(batches[|batches| - 1], remaining))
  }

  function WithLast(batches: seq<Batch>, b: Batch): seq<Batch>
    requires batches != []
  {
    batches[..|batches| - 1] + [b]
  }

  lemma OneBatchMore(batches: seq<Batch>, b: Batch)
    ensures AllRows(batches + [b]) == AllRows(batches) + b.rows
    ensures AllCommitted(batches + [b]) == AllCommitted(batches) + b.committed
    ensures AllLost(batches + [b]) == AllLost(batches) + b.lost
    ensures AllMissed(batches + [b]) == AllMissed(batches) + b.missed
  {
    assert (batches + [b])[..|batches|] == batches;
  }

  /** Every row of a bundle is in one of the parts. */
  ghost predicate Splits(rows: seq<Row>, parts: Parts) {
    SplitInFour(rows, parts.sent, parts.gone, parts.missed, parts.left)
  }

  /** A batch with the parts of a flush added. */
  ghost predicate Extends(b: Batch, c: Batch, parts: Parts) {
    && c.rows == b.rows && c.committed == b.committed + parts.sent
    && c.lost == b.lost + parts.gone && c.missed == b.missed + parts.missed
  }

  lemma AccountedMore(b: Batch, c: Batch, remaining: seq<Row>, parts: Parts)
    requires Accounted(b, remaining) && Splits(remaining, parts) && Extends(b, c, parts)
    ensures Accounted(c, parts.left)
  {
    assert multiset(c.committed) == multiset(b.committed) + multiset(parts.sent);
    assert multiset(c.lost) == multiset(b.lost) + multiset(parts.gone);
    assert multiset(c.missed) == multiset(b.missed) + multiset(parts.missed);
  }

  /** Some of the remaining rows of the last batch are settled. */
  lemma SettleSome(batches: seq<Batch>, remaining: seq<Row>, c: Batch, parts: Parts)
    requires batches != [] && Ledger(batches, remaining)
    requires Splits(remaining, parts) && Extends(batches[|batches| - 1], c, parts)
    ensures Ledger(WithLast(batches, c), parts.left)
    ensures AllRows(WithLast(batches, c)) == AllRows(batches)
    ensures AllCommitted(WithLast(batches, c)) == AllCommitted(batches) + parts.sent
    ensures AllLost(WithLast(batches, c)) == AllLost(batches) + parts.gone
    ensures AllMissed(WithLast(batches, c)) == AllMissed(batches) + parts.missed
  {
    hide Splits, Accounted, Ledger, Extends, WithLast, AllRows, AllCommitted, AllLost, AllMissed;
    LastAccounted(batches, remaining);
    AccountedMore(batches[|batches| - 1], c, remaining, parts);
    ReplaceLast(batches, remaining, c, parts.left);
    WithoutLast(batches, c);
    SumsOfLast(batches[..|batches| - 1], batches[|batches| - 1], c, parts);
  }

  lemma LastAccounted(batches: seq<Batch>, remaining: seq<Row>)
    requires batches != [] && Ledger(batches, remaining)
    ensures Accounted(batches[|batches| - 1], remaining)
  {
  }

  lemma ReplaceLast(batches: seq<Batch>, remaining: seq<Row>, b: Batch, left: seq<Row>)
    requires batches != [] && Ledger(batches, remaining) && Accounted(b, left)
    ensures Ledger(WithLast(batches, b), left)
  {
    hide Accounted;
    assert forall i | 0 <= i < |batches| - 1 :: WithLast(batches, b)[i] == batches[i];
  }

  lemma WithoutLast(batches: seq<Batch>, b: Batch)
    requires batches != []
    ensures batches == batches[..|batches| - 1] + [batches[|batches| - 1]]
    ensures WithLast(batches, b) == batches[..|batches| - 1] + [b]
  {
  }

  lemma SumsOfLast(settled: seq<Batch>, b: Batch, c: Batch, parts: Parts)
    requires Extends(b, c, parts)
    ensures AllRows(settled + [c]) == AllRows(settled + [b])
    ensures AllCommitted(settled + [c]) == AllCommitted(settled + [b]) + parts.sent
    ensures AllLost(settled + [c]) == AllLost(settled + [b]) + parts.gone
    ensures AllMissed(settled + [c]) == AllMissed(settled + [b]) + parts.missed
  {
    hide AllRows, AllCommitted, AllLost, AllMissed;
    OneBatchMore(settled, b);
    OneBatchMore(settled, c);
    Joined(AllCommitted(settled), b.committed, parts.sent);
    Joined(AllLost(settled), b.lost, parts.gone);
    Joined(AllMissed(settled), b.missed, parts.missed);
  }

  lemma Joined(a: seq<Row>, b: seq<Row>, c: seq<Row>)
    ensures a + (b + c) == a + b + c
  {
  }

  /** Everything pending becomes the next batch. */
  lemma NextBatch(batches: seq<Batch>, b: Batch)
    requires Ledger(batches, []) && b.committed == [] && b.lost == [] && b.missed == []
    ensures Ledger(batches + [b], b.rows)
    ensures AllRows(batches + [b]) == AllRows(batches) + b.rows
    ensures AllCommitted(batches + [b]) == AllCommitted(batches)
    ensures AllLost(batches + [b]) == AllLost(batches)
    ensures AllMissed(batches + [b]) == AllMissed(batches)
  {
    assert Accounted(b, b.rows);
    hide Accounted;
    OneBatchMore(batches, b);
    assert forall i | 0 <= i < |batches| :: (batches + [b])[i] == batches[i];
  }

  /** With nothing remaining, every row is in one place, bundle after bundle. */
  lemma {:induction false} SettledLedger(batches: seq<Batch>)
    requires forall i | 0 <= i < |batches| :: Accounted(batches[i], [])
    ensures multiset(AllRows(batches))
      == multiset(AllCommitted(batches)) + multiset(AllLost(batches)) + multiset(AllMissed(batches))
    decreases |batches|
  {
    if batches != [] {
      var earlier, last := batches[..|batches| - 1], batches[|batches| - 1];
      SettledLedger(earlier);
      assert batches == earlier + [last];
      OneBatchMore(earlier, last);
      hide AllRows, AllCommitted, AllLost, AllMissed;
      assert multiset(AllRows(earlier) + last.rows) == multiset(AllRows(earlier)) + multiset(last.rows);
    }
  }

  lemma {:induction false} WeightsJoin(a: seq<Row>, b: seq<Row>)
    ensures Weights(a + b) == Weights(a) + Weights(b)
    decreases |b|
  {
    if b == [] {
      assert a + b == a;
    } else {
      var shorter, row := b[..|b| - 1], b[|b| - 1];
      WeightsJoin(a, shorter);
      assert a + b == (a + shorter) + [row] && b == shorter + [row];
      WeightsOneMore(a + shorter, row);
      WeightsOneMore(shorter, row);
    }
  }

  // -------------------------------------------------------------------------
  // The loop as a function of what it meets
  // -------------------------------------------------------------------------

  function Min(a: nat, b: nat): nat {
    if a < b then a else b
  }

  function SaturatingSub(a: nat, b: nat): nat {
    if b > a then 0 else a - b
  }

  /** The delay after the given number of failures. */
  function Delay(failed: nat): nat
    requires failed >= 1
  {
    FLUSH_BACKOFF_SECS[Min(failed - 1, |FLUSH_BACKOFF_SECS| - 1)] * SECOND
  }

  /** The rows the writer takes of some captures or messages. */
  function AcceptedOf(updates: seq<Update>): seq<Row>
    decreases |updates|
  {
    if updates == [] then [] else AcceptedOf(updates[..|updates| - 1]) + updates[|updates| - 1]
  }

  /** The rows one turn takes from the buffers, in the order they are emptied. */
  function Drained(shards: seq<Shard>): seq<Row>
    decreases |shards|
  {
    if shards == [] then []
    else Drained(shards[..|shards| - 1]) + shards[|shards| - 1].scalars + AcceptedOf(shards[|shards| - 1].others)
  }

  /**
   * What the loop holds, what it has taken in and committed so far, the record of the
   * bundles it has started, and how much more was counted than there were rows.
   */
  datatype State = State(
    pending: seq<Row>, bgFlush: Option<seq<Row>>, attempts: nat, retry: Option<PendingRetry>,
    written: nat, lost: nat, channel: seq<Update>, clock: nat, accepted: seq<Row>, db: seq<Row>, batches: seq<Batch>,
    surplus: int)

  const NOTHING := Parts([], [], [], [])

  /** The record with more noted of the last bundle. */
  function Noted(batches: seq<Batch>, starts: seq<nat>, parts: Parts, failures: seq<nat>, givenUp: Option<nat>)
    : seq<Batch>
  {
    if batches == [] then []
    else
      var b := batches[|batches| - 1];
      WithLast(batches, Batch(b.rows, b.committed + parts.sent, b.lost + parts.gone, b.missed + parts.missed,
                              b.starts + starts, b.failures + failures,
                              if givenUp.Some? then givenUp else b.givenUp, b.final))
  }

  function NotedFinal(batches: seq<Batch>, parts: Parts, now: nat): seq<Batch> {
    if batches == [] then []
    else
      var b := batches[|batches| - 1];
      WithLast(batches, b.(committed := b.committed + parts.sent, lost := b.lost + parts.gone,
                           missed := b.missed + parts.missed, final := Some(now)))
  }

  /** The rows a flush came back with to retry. */
  function Back(bundle: seq<Row>, done: Completion): seq<Row> {
    Ended(bundle, FateIn(bundle, done), Kept)
  }

  predicate FailedForNow(bundle: seq<Row>, done: Completion) {
    Back(bundle, done) != []
  }

  /** The bundle retained when a flush ends, if any. */
  function RetryAfter(bundle: seq<Row>, attempts: nat, done: Completion, now: nat): Option<PendingRetry> {
    if FailedForNow(bundle, done) && attempts < 5
    then Some(PendingRetry(Back(bundle, done), attempts + 1, now + Delay(attempts + 1)))
    else None
  }

  /**
   * What a flush adds to the count of lost rows: the weights of the COPYs that were lost and
   * the number of rows that came back but are not kept; after a panic or an abort, what the
   * progress leaves of the number of rows.
   */
  function CountLost(bundle: seq<Row>, keep: bool, done: Completion): nat {
    var fate := FateIn(bundle, done);
    if done.JoinError? then SaturatingSub(|bundle|, Weights(Ended(bundle, fate, Committed)))
    else Weights(Ended(bundle, fate, Gone)) + if keep then 0 else |Back(bundle, done)|
  }

  function Excess(rows: seq<Row>): int {
    Weights(rows) - |rows|
  }

  /**
   * How much more than rows a flush counts: the excess of the rows in its COPYs, less the rows
   * that were in none; after a panic or an abort, a progress beyond the number of rows.
   */
  function Extra(bundle: seq<Row>, done: Completion): int {
    var fate := FateIn(bundle, done);
    var sent := Ended(bundle, fate, Committed);
    if done.JoinError? then SaturatingSub(Weights(sent), |bundle|)
    else Excess(sent) + Excess(Ended(bundle, fate, Gone)) - |Ended(bundle, fate, Missed)|
  }

  /** The counters and the database after a flush of a bundle. */
  function Tallied(s: State, bundle: seq<Row>, keep: bool, done: Completion): State {
    var parts := PartsOf(bundle, keep, done);
    s.(written := s.written + Weights(parts.sent), lost := s.lost + CountLost(bundle, keep, done),
       db := s.db + parts.sent, surplus := s.surplus + Extra(bundle, done))
  }

  function Reaped(s: State, done: Option<Completion>, wait: nat): State {
    var now := s.clock + wait;
    if s.bgFlush == None || done == None then s.(clock := now)
    else
      var bundle, keep := s.bgFlush.value, s.attempts < 5;
      var failed := FailedForNow(bundle, done.value);
      Tallied(s, bundle, keep, done.value).(
        clock := now, bgFlush := None, attempts := 0, retry := RetryAfter(bundle, s.attempts, done.value, now),
        batches := Noted(s.batches, [], PartsOf(bundle, keep, done.value), if failed then [now] else [],
                         if failed && !keep then Some(now) else None))
  }

  /** The retained bundle starts again once its delay has passed. */
  function Restarted(s: State, wait: nat): State {
    var now := s.clock + wait;
    if s.bgFlush.Some? || s.retry == None || now < s.retry.value.nextTry then s.(clock := now)
    else s.(clock := now, bgFlush := Some(s.retry.value.bundle), attempts := s.retry.value.attempts, retry := None,
            batches := Noted(s.batches, [now], NOTHING, [], None))
  }

  /** A fresh bundle of everything pending starts when nothing is in flight or retained. */
  function Started(s: State, flushDue: bool): State {
    if s.bgFlush.Some? || s.retry.Some? || s.pending == [] || !flushDue then s
    else s.(bgFlush := Some(s.pending), attempts := 0, pending := [],
            batches := s.batches + [Batch(s.pending, [], [], [], [s.clock], [], None, None)])
  }

  function TakenIn(s: State, rows: seq<Row>): State {
    s.(pending := s.pending + rows, accepted := s.accepted + rows)
  }

  /** Rows are taken in unless a bundle is retained. */
  function Ingested(s: State, shards: seq<Shard>, sent: seq<Update>): State {
    var arrived := s.channel + sent;
    if s.retry.Some? then s.(channel := arrived)
    else
      var n := Min(|arrived|, FALLBACK_LIMIT);
      TakenIn(TakenIn(s, Drained(shards)), AcceptedOf(arrived[..n])).(channel := arrived[n..])
  }

  function Turned(s: State, tick: Tick): State {
    Ingested(Started(Restarted(Reaped(s, tick.done, tick.untilReap), tick.untilCheck), tick.flushDue),
             tick.shards, tick.sent)
  }

  function AllTurned(s: State, ticks: seq<Tick>): State
    decreases |ticks|
  {
    if ticks == [] then s else Turned(AllTurned(s, ticks[..|ticks| - 1]), ticks[|ticks| - 1])
  }

  /** The flush in flight is waited for or aborted; what it leaves over is retained once more, whatever its attempts. */
  function FinishedInFlight(s: State, end: Completion): State {
    if s.bgFlush == None then s
    else
      var bundle := s.bgFlush.value;
      var failed := FailedForNow(bundle, end);
      Tallied(s, bundle, true, end).(
        bgFlush := None,
        retry := if failed then Some(PendingRetry(Back(bundle, end), s.attempts + 1, s.clock)) else None,
        batches := Noted(s.batches, [], PartsOf(bundle, true, end), if failed then [s.clock] else [], None))
  }

  /** The retained bundle is flushed once more; what comes back is lost. */
  function FinallyRetried(s: State, end: Completion): State {
    if s.retry == None then s
    else
      var bundle := s.retry.value.bundle;
      Tallied(s, bundle, false, end).(
        retry := None, batches := NotedFinal(s.batches, PartsOf(bundle, false, end), s.clock))
  }

  /** The buffers are emptied and everything pending is flushed; what comes back is lost. */
  function FinallyDrained(s: State, shards: seq<Shard>, end: Completion): State {
    var t := TakenIn(s, Drained(shards));
    if t.pending == [] then t
    else
      var parts := PartsOf(t.pending, false, end);
      Tallied(t, t.pending, false, end).(
        pending := [],
        batches := t.batches + [Batch(t.pending, parts.sent, parts.gone, parts.missed, [], [], None, Some(t.clock))])
  }

  function ShutDown(s: State, ending: Ending): State {
    FinallyDrained(FinallyRetried(FinishedInFlight(s, ending.inFlight), ending.retry), ending.shards, ending.final)
  }

  // -------------------------------------------------------------------------
  // Attempts and delays
  // -------------------------------------------------------------------------

  /**
   * The timetable of a bundle in the loop: every failure comes after the start it ends,
   * and every start after the first waits out the delay that the failure before it calls for.
   */
  ghost predicate Spaced(b: Batch) {
    && |b.failures| <= |b.starts| <= |b.failures| + 1
    && (forall i | 0 <= i < |b.failures| :: b.starts[i] <= b.failures[i])
    && (forall i | 1 <= i < |b.starts| :: b.failures[i - 1] + Delay(i) <= b.starts[i])
  }

  /** A bundle was started at most six times by the loop, on time, and given up at the sixth failure only. */
  ghost predicate Tidy(b: Batch) {
    && |b.starts| <= 6 && Spaced(b)
    && (b.starts == [] ==> b.final.Some?)
    && (b.givenUp.Some? ==> |b.failures| == 6 && b.failures[5] == b.givenUp.value && b.final == None)
  }

  ghost predicate AllTidy(batches: seq<Batch>) {
    forall i | 0 <= i < |batches| :: Tidy(batches[i])
  }

  /** The sixth failure of a bundle comes at least 1 + 4 + 15 + 30 + 60 = 110 seconds after the first. */
  lemma SixthFailure(b: Batch)
    requires Spaced(b) && |b.failures| == 6
    ensures b.failures[0] + 110 * SECOND <= b.failures[5]
  {
    assert Delay(1) == 1 * SECOND && Delay(2) == 4 * SECOND && Delay(3) == 15 * SECOND;
    assert Delay(4) == 30 * SECOND && Delay(5) == 60 * SECOND;
    assert b.failures[0] + Delay(1) <= b.starts[1] <= b.failures[1];
    assert b.failures[1] + Delay(2) <= b.starts[2] <= b.failures[2];
    assert b.failures[2] + Delay(3) <= b.starts[3] <= b.failures[3];
    assert b.failures[3] + Delay(4) <= b.starts[4] <= b.failures[4];
    assert b.failures[4] + Delay(5) <= b.starts[5] <= b.failures[5];
  }

  /** The batch in flight, after `failed` failures. */
  ghost predicate Trying(b: Batch, failed: nat, clock: nat) {
    && failed <= 5 && |b.failures| == failed && |b.starts| == failed + 1
    && Spaced(b) && b.starts[failed] <= clock && b.givenUp == None && b.final == None
  }

  /** The batch retained. */
  ghost predicate Waiting(b: Batch, retry: PendingRetry) {
    && 1 <= retry.attempts <= 5 && |b.failures| == |b.starts| == retry.attempts
    && Spaced(b) && b.failures[retry.attempts - 1] + Delay(retry.attempts) == retry.nextTry
    && b.givenUp == None && b.final == None
  }

  // -------------------------------------------------------------------------
  // What every run keeps
  // -------------------------------------------------------------------------

  function Unsettled(s: State): seq<Row> {
    if s.bgFlush.Some? then s.bgFlush.value else if s.retry.Some? then s.retry.value.bundle else []
  }

  /**
   * Every accepted row is in one place, bundle by bundle; what is written counts the weights
   * of the rows in the database, and the two counters together the settled rows and the surplus.
   */
  ghost predicate Balances(s: State) {
    && Ledger(s.batches, Unsettled(s))
    && s.accepted == AllRows(s.batches) + s.pending
    && s.db == AllCommitted(s.batches) && s.written == Weights(s.db)
    && s.written + s.lost + |s.pending| + |Unsettled(s)| == |s.accepted| + s.surplus
    && (OneEachRow(s.accepted) ==>
          s.surplus == 0 && AllMissed(s.batches) == [] && s.lost == |AllLost(s.batches)|)
  }

  /** One bundle at a time, tried in turn and on time. */
  ghost predicate Orderly(s: State) {
    && !(s.bgFlush.Some? && s.retry.Some?)
    && (s.bgFlush.Some? ==> s.batches != [] && Trying(s.batches[|s.batches| - 1], s.attempts, s.clock))
    && (s.retry.Some? ==> s.batches != [] && Waiting(s.batches[|s.batches| - 1], s.retry.value))
    && AllTidy(s.batches)
  }

  ghost predicate Sound(s: State) {
    Balances(s) && Orderly(s)
  }

  lemma NotedStays(batches: seq<Batch>, remaining: seq<Row>, starts: seq<nat>, parts: Parts, failures: seq<nat>,
                   givenUp: Option<nat>)
    requires batches != [] && Ledger(batches, remaining) && Splits(remaining, parts)
    ensures var noted := Noted(batches, starts, parts, failures, givenUp);
      && Ledger(noted, parts.left) && AllRows(noted) == AllRows(batches)
      && AllCommitted(noted) == AllCommitted(batches) + parts.sent && AllLost(noted) == AllLost(batches) + parts.gone
      && AllMissed(noted) == AllMissed(batches) + parts.missed
  {
    hide Ledger, AllRows, AllCommitted, AllLost, AllMissed, Splits;
    var b := batches[|batches| - 1];
    SettleSome(batches, remaining,
               Batch(b.rows, b.committed + parts.sent, b.lost + parts.gone, b.missed + parts.missed, b.starts + starts,
                     b.failures + failures, if givenUp.Some? then givenUp else b.givenUp, b.final), parts);
  }

  /** A panic or an abort leaves no row to be kept, and none is in no COPY. */
  lemma {:induction false} HalfFlush(rows: seq<Row>, fate: nat -> Fate)
    requires forall p: nat | p < |rows| :: fate(p) == Committed || fate(p) == Gone
    ensures Ended(rows, fate, Kept) == [] && Ended(rows, fate, Missed) == []
    decreases |rows|
  {
    if rows != [] {
      HalfFlush(rows[..|rows| - 1], fate);
    }
  }

  lemma GoneAndKept(rows: seq<Row>, sent: seq<Row>, kept: seq<Row>, gone: seq<Row>, missed: seq<Row>)
    requires SplitInFour(rows, sent, kept, gone, missed)
    ensures Splits(rows, Parts(sent, gone + [], missed, kept)) && Splits(rows, Parts(sent, gone + kept, missed, []))
  {
    assert gone + [] == gone;
    assert multiset(gone + kept) == multiset(gone) + multiset(kept);
  }

  lemma NothingBack(bundle: seq<Row>, reached: nat -> bool)
    ensures Back(bundle, JoinError(reached)) == []
    ensures Ended(bundle, FateIn(bundle, JoinError(reached)), Missed) == []
  {
    HalfFlush(bundle, FateIn(bundle, JoinError(reached)));
  }

  lemma EndedCounts(bundle: seq<Row>, fate: nat -> Fate)
    ensures |Ended(bundle, fate, Committed)| + |Ended(bundle, fate, Kept)| + |Ended(bundle, fate, Gone)|
      + |Ended(bundle, fate, Missed)| == |bundle|
  {
    FourFates(bundle, fate);
  }

  /** The parts of a flush split its bundle, and its counts are those of the settled rows and the extra. */
  lemma FlushTallies(bundle: seq<Row>, keep: bool, done: Completion)
    ensures var parts := PartsOf(bundle, keep, done);
      && Splits(bundle, parts)
      && Weights(parts.sent) + CountLost(bundle, keep, done) + |parts.left| == |bundle| + Extra(bundle, done)
  {
    hide Ended, Weights, Splits, FateIn, SplitInFour;
    var fate := FateIn(bundle, done);
    FourFates(bundle, fate);
    GoneAndKept(bundle, Ended(bundle, fate, Committed), Ended(bundle, fate, Kept), Ended(bundle, fate, Gone),
                Ended(bundle, fate, Missed));
    EndedCounts(bundle, fate);
    if done.JoinError? {
      NothingBack(bundle, done.reached);
    }
  }

  /** When each row comes to one database row, a flush counts its rows and misses none. */
  lemma FlushIsExact(bundle: seq<Row>, keep: bool, done: Completion)
    requires OneEachRow(bundle)
    ensures var parts := PartsOf(bundle, keep, done);
      && Extra(bundle, done) == 0 && parts.missed == [] && CountLost(bundle, keep, done) == |parts.gone|
  {
    var fate := FateIn(bundle, done);
    FourFates(bundle, fate);
    EndedAreRows(bundle, fate, Committed);
    EndedAreRows(bundle, fate, Gone);
    OneEachCounts(Ended(bundle, fate, Committed));
    OneEachCounts(Ended(bundle, fate, Gone));
    match done
    case Outcome(connections, answers) =>
      OneEachIsCounted(bundle, connections, answers);
    case JoinError(_) =>
      HalfFlush(bundle, fate);
  }

  lemma TidyWithLast(batches: seq<Batch>, b: Batch)
    requires batches != [] && AllTidy(batches) && Tidy(b)
    ensures AllTidy(WithLast(batches, b))
    ensures WithLast(batches, b) != [] && WithLast(batches, b)[|WithLast(batches, b)| - 1] == b
  {
    hide Tidy;
    assert forall i | 0 <= i < |batches| - 1 :: WithLast(batches, b)[i] == batches[i];
  }

  lemma TidyMore(batches: seq<Batch>, b: Batch)
    requires AllTidy(batches) && Tidy(b)
    ensures AllTidy(batches + [b]) && (batches + [b])[|batches + [b]| - 1] == b
  {
    hide Tidy;
    assert forall i | 0 <= i < |batches| :: (batches + [b])[i] == batches[i];
  }

  /** What a failure for now makes of the bundle in flight. */
  lemma Fails(b: Batch, after: Batch, attempts: nat, clock: nat, now: nat, kept: seq<Row>)
    requires Trying(b, attempts, clock) && clock <= now
    requires after.starts == b.starts && after.failures == b.failures + [now] && after.final == b.final
    requires after.givenUp == if attempts >= 5 then Some(now) else b.givenUp
    ensures Tidy(after)
    ensures attempts < 5 ==> Waiting(after, PendingRetry(kept, attempts + 1, now + Delay(attempts + 1)))
  {
    assert forall i | 0 <= i < attempts :: after.failures[i] == b.failures[i];
    hide Delay;
  }

  lemma Ends(b: Batch, after: Batch, attempts: nat, clock: nat)
    requires Trying(b, attempts, clock)
    requires after.starts == b.starts && after.failures == b.failures
    requires after.final == b.final && after.givenUp == b.givenUp
    ensures Tidy(after)
  {
    hide Delay;
  }

  lemma Restarts(b: Batch, after: Batch, retry: PendingRetry, now: nat)
    requires Waiting(b, retry) && retry.nextTry <= now
    requires after.starts == b.starts + [now] && after.failures == b.failures && after.final == b.final
    requires after.givenUp == b.givenUp
    ensures Trying(after, retry.attempts, now) && Tidy(after)
  {
    assert forall i | 0 <= i < |b.starts| :: after.starts[i] == b.starts[i];
    hide Delay;
  }

  /** What the end of a flush does to the record of its bundle. */
  lemma EndStaysTidy(batches: seq<Batch>, attempts: nat, clock: nat, now: nat, parts: Parts, failed: bool,
                     kept: seq<Row>)
    requires batches != [] && AllTidy(batches) && Trying(batches[|batches| - 1], attempts, clock) && clock <= now
    ensures var noted := Noted(batches, [], parts, if failed then [now] else [],
                               if failed && attempts >= 5 then Some(now) else None);
      && noted != [] && AllTidy(noted)
      && (failed && attempts < 5 ==>
            Waiting(noted[|noted| - 1], PendingRetry(kept, attempts + 1, now + Delay(attempts + 1))))
  {
    hide Tidy, Waiting, Trying, Delay;
    var b := batches[|batches| - 1];
    var after := Batch(b.rows, b.committed + parts.sent, b.lost + parts.gone, b.missed + parts.missed, b.starts + [],
                       b.failures + (if failed then [now] else []),
                       if failed && attempts >= 5 then Some(now) else b.givenUp, b.final);
    assert b.starts + [] == b.starts && b.failures + [] == b.failures;
    if failed {
      Fails(b, after, attempts, clock, now, kept);
    } else {
      Ends(b, after, attempts, clock);
    }
    hide AllTidy;
    TidyWithLast(batches, after);
  }

  /** What is not settled was accepted. */
  lemma UnsettledIsAccepted(s: State)
    requires Ledger(s.batches, Unsettled(s)) && s.accepted == AllRows(s.batches) + s.pending
    ensures forall row | row in Unsettled(s) :: row in s.accepted
  {
    hide AllRows;
    forall row | row in Unsettled(s)
      ensures row in s.accepted
    {
      assert row in multiset(Unsettled(s));
      assert row in multiset(s.batches[|s.batches| - 1].rows);
      BundleIsAccepted(s.batches, row);
    }
  }

  lemma BundleIsAccepted(batches: seq<Batch>, row: Row)
    requires batches != [] && row in batches[|batches| - 1].rows
    ensures row in AllRows(batches)
  {
  }

  /** The balance after a flush of what is not settled. */
  lemma TallyBalances(s: State, t: State, keep: bool, done: Completion)
    requires Balances(s) && s.batches != []
    requires var bundle := Unsettled(s);
      var parts, tallied := PartsOf(bundle, keep, done), Tallied(s, bundle, keep, done);
      && Ledger(t.batches, parts.left) && Unsettled(t) == parts.left && AllRows(t.batches) == AllRows(s.batches)
      && AllCommitted(t.batches) == AllCommitted(s.batches) + parts.sent
      && AllLost(t.batches) == AllLost(s.batches) + parts.gone
      && AllMissed(t.batches) == AllMissed(s.batches) + parts.missed
      && t.pending == s.pending && t.accepted == s.accepted && t.db == tallied.db && t.written == tallied.written
      && t.lost == tallied.lost && t.surplus == tallied.surplus
    ensures Balances(t)
  {
    hide Ledger, AllRows, AllCommitted, AllLost, AllMissed, PartsOf, CountLost, Extra, Weights;
    var bundle := Unsettled(s);
    FlushTallies(bundle, keep, done);
    WeightsJoin(s.db, PartsOf(bundle, keep, done).sent);
    UnsettledIsAccepted(s);
    if OneEachRow(s.accepted) {
      FlushIsExact(bundle, keep, done);
    }
  }

  lemma ReapStaysSound(s: State, done: Option<Completion>, wait: nat)
    requires Sound(s)
    ensures Sound(Reaped(s, done, wait))
    ensures s.db <= Reaped(s, done, wait).db
  {
    hide Ledger, AllRows, AllCommitted, AllLost, AllMissed, Splits, Noted, Ended, CountLost, Extra, Trying, Waiting,
      AllTidy, Delay, FateIn, Weights, OneEachRow;
    if s.bgFlush.Some? && done.Some? {
      var bundle, now, end, keep := s.bgFlush.value, s.clock + wait, done.value, s.attempts < 5;
      var parts, failed := PartsOf(bundle, keep, end), FailedForNow(bundle, end);
      AttemptsSoFar(s.batches[|s.batches| - 1], s.attempts, s.clock);
      FlushTallies(bundle, keep, end);
      EndStaysTidy(s.batches, s.attempts, s.clock, now, parts, failed, Back(bundle, end));
      NotedStays(s.batches, bundle, [], parts, if failed then [now] else [], if failed && !keep then Some(now) else None);
      TallyBalances(s, Reaped(s, done, wait), keep, end);
    } else if s.bgFlush.Some? {
      LaterTrying(s.batches[|s.batches| - 1], s.attempts, s.clock, s.clock + wait);
    }
  }

  lemma AttemptsSoFar(b: Batch, attempts: nat, clock: nat)
    requires Trying(b, attempts, clock)
    ensures attempts <= 5
  {
  }

  lemma LaterTrying(b: Batch, attempts: nat, clock: nat, later: nat)
    requires Trying(b, attempts, clock) && clock <= later
    ensures Trying(b, attempts, later)
  {
  }

  lemma RestartStaysSound(s: State, wait: nat)
    requires Sound(s)
    ensures Sound(Restarted(s, wait))
  {
    hide Ledger, AllRows, AllCommitted, AllLost, AllMissed, AllTidy, Delay, Splits, Weights, OneEachRow;
    var now := s.clock + wait;
    if s.bgFlush == None && s.retry.Some? && now >= s.retry.value.nextTry {
      var b, bundle := s.batches[|s.batches| - 1], s.retry.value.bundle;
      var after := Batch(b.rows, b.committed + [], b.lost + [], b.missed + [], b.starts + [now], b.failures + [],
                         b.givenUp, b.final);
      assert b.failures + [] == b.failures;
      Restarts(b, after, s.retry.value, now);
      TidyWithLast(s.batches, after);
      NothingHappens(bundle);
      NotedStays(s.batches, bundle, [now], Parts([], [], [], bundle), [], None);
      assert AllCommitted(s.batches) + [] == AllCommitted(s.batches) && AllLost(s.batches) + [] == AllLost(s.batches);
      assert AllMissed(s.batches) + [] == AllMissed(s.batches);
      hide Trying, Waiting;
    }
  }

  lemma NothingHappens(remaining: seq<Row>)
    ensures Splits(remaining, Parts([], [], [], remaining))
  {
  }

  lemma StartStaysSound(s: State, flushDue: bool)
    requires Sound(s)
    ensures Sound(Started(s, flushDue))
  {
    if s.bgFlush == None && s.retry == None && s.pending != [] && flushDue {
      var b := Batch(s.pending, [], [], [], [s.clock], [], None, None);
      assert Trying(b, 0, s.clock) && Tidy(b);
      TidyMore(s.batches, b);
      NextBatch(s.batches, b);
      hide Ledger, AllRows, AllCommitted, AllLost, AllMissed, AllTidy, Trying, Tidy, Weights, OneEachRow;
      assert AllRows(s.batches) + s.pending + [] == AllRows(s.batches) + s.pending;
    }
  }

  lemma TakingInBalances(s: State, rows: seq<Row>)
    requires Balances(s)
    ensures Balances(TakenIn(s, rows)) && s.accepted <= TakenIn(s, rows).accepted
  {
    hide Ledger, AllCommitted, AllLost, AllMissed, Weights;
    Joined(AllRows(s.batches), s.pending, rows);
    assert forall row | row in s.accepted :: row in s.accepted + rows;
  }

  lemma IngestStaysSound(s: State, shards: seq<Shard>, sent: seq<Update>)
    requires Sound(s)
    ensures Sound(Ingested(s, shards, sent))
    ensures s.accepted <= Ingested(s, shards, sent).accepted
  {
    hide Balances, AllTidy, Trying, Waiting, Drained, AcceptedOf;
    var arrived := s.channel + sent;
    var rows, more := Drained(shards), AcceptedOf(arrived[..Min(|arrived|, FALLBACK_LIMIT)]);
    var t := TakenIn(TakenIn(s, rows), more);
    TakingInBalances(s, rows);
    TakingInBalances(TakenIn(s, rows), more);
    ChannelDoesNotMatter(t, arrived[Min(|arrived|, FALLBACK_LIMIT)..]);
    ChannelDoesNotMatter(s, arrived);
  }

  lemma ChannelDoesNotMatter(s: State, channel: seq<Update>)
    requires Balances(s)
    ensures Balances(s.(channel := channel))
  {
    hide Ledger, AllRows, AllCommitted, AllLost, AllMissed, Weights, OneEachRow;
  }

  /**
   * A turn keeps everything in order, forgets nothing, starts a retained bundle only when its
   * delay has passed, and takes nothing in while a bundle stays retained.
   */
  lemma TurnStaysSound(s: State, tick: Tick)
    requires Sound(s)
    ensures var t := Turned(s, tick);
      && Sound(t)
      && s.accepted <= t.accepted && s.db <= t.db
      && (t.retry.Some? ==> t.accepted == s.accepted && t.pending == s.pending)
  {
    hide Sound, PartsOf, CountLost, Extra, Weights, RetryAfter, Drained, AcceptedOf, Noted;
    var reaped := Reaped(s, tick.done, tick.untilReap);
    ReapStaysSound(s, tick.done, tick.untilReap);
    var restarted := Restarted(reaped, tick.untilCheck);
    RestartStaysSound(reaped, tick.untilCheck);
    StartStaysSound(restarted, tick.flushDue);
    IngestStaysSound(Started(restarted, tick.flushDue), tick.shards, tick.sent);
  }

  /** So does any run of the loop. */
  lemma {:induction false} RunsStaySound(s: State, ticks: seq<Tick>)
    requires Sound(s)
    ensures Sound(AllTurned(s, ticks))
    ensures s.accepted <= AllTurned(s, ticks).accepted && s.db <= AllTurned(s, ticks).db
    decreases |ticks|
  {
    if ticks != [] {
      RunsStaySound(s, ticks[..|ticks| - 1]);
      TurnStaysSound(AllTurned(s, ticks[..|ticks| - 1]), ticks[|ticks| - 1]);
      hide Sound, Turned;
    }
  }

  // ---- Shutdown ----

  /** Between the phases of the shutdown: nothing in flight, perhaps a bundle retained. */
  ghost predicate Closing(s: State) {
    && Balances(s) && AllTidy(s.batches) && s.bgFlush == None
    && (s.retry.Some? ==>
          && s.batches != []
          && s.batches[|s.batches| - 1].givenUp == None && s.batches[|s.batches| - 1].final == None)
  }

  lemma WaitingIsOpen(b: Batch, retry: PendingRetry)
    requires Waiting(b, retry)
    ensures b.givenUp == None && b.final == None
  {
  }

  /** The record after the flush that was in flight at the shutdown; it is not given up, whatever its attempts. */
  lemma LastEndStaysTidy(batches: seq<Batch>, attempts: nat, clock: nat, parts: Parts, failed: bool)
    requires batches != [] && AllTidy(batches) && Trying(batches[|batches| - 1], attempts, clock)
    ensures var noted := Noted(batches, [], parts, if failed then [clock] else [], None);
      && noted != [] && AllTidy(noted)
      && noted[|noted| - 1].givenUp == None && noted[|noted| - 1].final == None
  {
    var b := batches[|batches| - 1];
    var after := Batch(b.rows, b.committed + parts.sent, b.lost + parts.gone, b.missed + parts.missed, b.starts + [],
                       b.failures + (if failed then [clock] else []), b.givenUp, b.final);
    assert b.starts + [] == b.starts && b.failures + [] == b.failures;
    assert forall i | 0 <= i < attempts :: after.failures[i] == b.failures[i];
    assert Tidy(after) by {
      hide Delay;
    }
    hide AllTidy, Tidy, Trying, Delay;
    TidyWithLast(batches, after);
  }

  lemma FinishStaysSound(s: State, end: Completion)
    requires Sound(s)
    ensures var t := FinishedInFlight(s, end);
      Closing(t) && s.db <= t.db && t.pending == s.pending && t.accepted == s.accepted
  {
    hide Ledger, AllRows, AllCommitted, AllLost, AllMissed, Splits, Noted, Ended, CountLost, Extra, Trying, Waiting,
      AllTidy, Delay, FateIn, Weights, OneEachRow;
    if s.bgFlush.Some? {
      var bundle, failed := s.bgFlush.value, FailedForNow(s.bgFlush.value, end);
      var parts := PartsOf(bundle, true, end);
      FlushTallies(bundle, true, end);
      LastEndStaysTidy(s.batches, s.attempts, s.clock, parts, failed);
      NotedStays(s.batches, bundle, [], parts, if failed then [s.clock] else [], None);
      TallyBalances(s, FinishedInFlight(s, end), true, end);
    } else if s.retry.Some? {
      WaitingIsOpen(s.batches[|s.batches| - 1], s.retry.value);
    }
  }

  lemma RetryCloses(s: State, end: Completion)
    requires Closing(s)
    ensures var t := FinallyRetried(s, end);
      Closing(t) && t.retry == None && s.db <= t.db && t.pending == s.pending && t.accepted == s.accepted
  {
    hide Ledger, AllRows, AllCommitted, AllLost, AllMissed, Splits, Ended, CountLost, Extra, AllTidy, FateIn,
      Weights, OneEachRow;
    if s.retry.Some? {
      var bundle := s.retry.value.bundle;
      var parts := PartsOf(bundle, false, end);
      var b := s.batches[|s.batches| - 1];
      var after := b.(committed := b.committed + parts.sent, lost := b.lost + parts.gone,
                      missed := b.missed + parts.missed, final := Some(s.clock));
      FlushTallies(bundle, false, end);
      LastIsTidy(s.batches, after);
      TidyWithLast(s.batches, after);
      SettleSome(s.batches, bundle, after, parts);
      TallyBalances(s, FinallyRetried(s, end), false, end);
    }
  }

  lemma LastIsTidy(batches: seq<Batch>, after: Batch)
    requires batches != [] && AllTidy(batches)
    requires var b := batches[|batches| - 1];
      after.starts == b.starts && after.failures == b.failures && after.givenUp == b.givenUp == None && after.final.Some?
    ensures Tidy(after)
  {
    hide Delay;
    assert Tidy(batches[|batches| - 1]);
  }

  lemma DrainCloses(s: State, shards: seq<Shard>, end: Completion)
    requires Closing(s) && s.retry == None
    ensures var t := FinallyDrained(s, shards, end);
      && Closing(t) && t.retry == None && t.pending == []
      && s.db <= t.db && t.accepted == s.accepted + Drained(shards)
  {
    hide Ledger, AllRows, AllCommitted, AllLost, AllMissed, Splits, Ended, CountLost, Extra, AllTidy, Drained, FateIn,
      Weights, OneEachRow;
    var t := TakenIn(s, Drained(shards));
    TakingInBalances(s, Drained(shards));
    if t.pending != [] {
      var parts := PartsOf(t.pending, false, end);
      var b := Batch(t.pending, parts.sent, parts.gone, parts.missed, [], [], None, Some(t.clock));
      assert Tidy(b);
      TidyMore(t.batches, b);
      DrainBalances(t, end);
    }
  }

  /** The balance after everything pending is flushed for good at once. */
  lemma DrainBalances(t: State, end: Completion)
    requires Balances(t) && t.bgFlush == None && t.retry == None
    ensures var parts := PartsOf(t.pending, false, end);
      Balances(Tallied(t, t.pending, false, end).(
        pending := [],
        batches := t.batches + [Batch(t.pending, parts.sent, parts.gone, parts.missed, [], [], None, Some(t.clock))]))
  {
    hide AllRows, AllCommitted, AllLost, AllMissed, PartsOf, CountLost, Extra, Weights;
    var parts := PartsOf(t.pending, false, end);
    var b := Batch(t.pending, parts.sent, parts.gone, parts.missed, [], [], None, Some(t.clock));
    FlushTallies(t.pending, false, end);
    NothingLeft(t.pending, end);
    ClosedBatch(t.batches, b, parts);
    WeightsJoin(t.db, parts.sent);
    assert AllRows(t.batches) + t.pending + [] == AllRows(t.batches) + t.pending;
    assert forall row | row in t.pending :: row in t.accepted;
    if OneEachRow(t.accepted) {
      FlushIsExact(t.pending, false, end);
    }
  }

  lemma NothingLeft(bundle: seq<Row>, done: Completion)
    ensures PartsOf(bundle, false, done).left == []
  {
  }

  /** A bundle that is flushed for good at once. */
  lemma ClosedBatch(batches: seq<Batch>, b: Batch, parts: Parts)
    requires Ledger(batches, []) && Splits(b.rows, parts) && parts.left == []
    requires b.committed == parts.sent && b.lost == parts.gone && b.missed == parts.missed
    ensures Ledger(batches + [b], [])
    ensures AllRows(batches + [b]) == AllRows(batches) + b.rows
    ensures AllCommitted(batches + [b]) == AllCommitted(batches) + b.committed
    ensures AllLost(batches + [b]) == AllLost(batches) + b.lost
    ensures AllMissed(batches + [b]) == AllMissed(batches) + b.missed
  {
    assert Accounted(b, []);
    hide Accounted;
    OneBatchMore(batches, b);
    assert forall i | 0 <= i < |batches| :: (batches + [b])[i] == batches[i];
  }

  /**
   * Nothing pending, in flight or retained; every row of every bundle in one place; the
   * counters what the rows and the surplus make them.
   */
  ghost predicate Settled(s: State) {
    && s.pending == [] && s.bgFlush == None && s.retry == None
    && s.accepted == AllRows(s.batches) && s.db == AllCommitted(s.batches)
    && (forall i | 0 <= i < |s.batches| :: Accounted(s.batches[i], [])) && AllTidy(s.batches)
    && s.written == Weights(s.db) && s.written + s.lost == |s.accepted| + s.surplus
  }

  /** Every accepted row is written or lost, and counted once as that. */
  ghost predicate Conserved(s: State) {
    && multiset(s.accepted) == multiset(s.db) + multiset(AllLost(s.batches))
    && s.written == |s.db| && s.lost == |AllLost(s.batches)|
  }

  lemma CommittedAreRows(s: State)
    requires multiset(s.accepted) == multiset(s.db) + multiset(AllLost(s.batches)) + multiset(AllMissed(s.batches))
    ensures forall row | row in s.db :: row in s.accepted
  {
    forall row | row in s.db
      ensures row in s.accepted
    {
      assert row in multiset(s.db) && row in multiset(s.accepted);
    }
  }

  /** Whatever way its three flushes end, the shutdown settles everything. */
  lemma ShutdownSettles(s: State, ending: Ending)
    requires Sound(s)
    ensures var t := ShutDown(s, ending);
      && Settled(t)
      && multiset(t.accepted) == multiset(t.db) + multiset(AllLost(t.batches)) + multiset(AllMissed(t.batches))
      && t.accepted == s.accepted + Drained(ending.shards) && s.db <= t.db
      && (OneEachRow(t.accepted) ==> Conserved(t) && |t.accepted| == t.written + t.lost)
  {
    hide FinishedInFlight, FinallyRetried, FinallyDrained, Drained, AllTidy, AllRows, AllCommitted, AllLost, AllMissed,
      Accounted, Sound, Weights;
    var finished := FinishedInFlight(s, ending.inFlight);
    FinishStaysSound(s, ending.inFlight);
    var retried := FinallyRetried(finished, ending.retry);
    RetryCloses(finished, ending.retry);
    var t := FinallyDrained(retried, ending.shards, ending.final);
    DrainCloses(retried, ending.shards, ending.final);
    SettledLedger(t.batches);
    assert AllRows(t.batches) + [] == AllRows(t.batches);
    CommittedAreRows(t);
    OneEachCounts(t.db);
  }

  // -------------------------------------------------------------------------
  // Whole runs
  // -------------------------------------------------------------------------

  const INITIAL := State([], None, 0, None, 0, 0, [], 0, [], [], [], 0)

  /** How often a bundle was flushed, in the loop and at the shutdown. */
  function Attempts(b: Batch): nat {
    |b.starts| + if b.final.Some? then 1 else 0
  }

  lemma InitiallySound()
    ensures Sound(INITIAL)
  {
  }

  /** What the record of one bundle says in the end. */
  lemma TidyBundle(b: Batch)
    requires Tidy(b)
    ensures |b.starts| <= 6 && 1 <= Attempts(b) <= 7
    ensures b.givenUp.Some? ==>
      |b.failures| == 6 && Attempts(b) == 6 && b.failures[0] + 110 * SECOND <= b.givenUp.value
  {
    if b.givenUp.Some? {
      SixthFailure(b);
    }
    hide Delay;
  }

  /**
   * Any run and any shutdown, over exactly the bundles the loop started. Every accepted row is
   * in one bundle and there committed, lost or in no COPY; the database has the committed rows
   * bundle by bundle in the order taken in; what was written and lost counts the accepted rows
   * and the surplus. When each accepted row comes to one database row, every row is written or
   * lost and counted once. A bundle is started at most six times by the loop, each time after
   * the delay its last failure calls for, and at most once more at the shutdown; one that is
   * given up had its first failure at least 110 seconds before.
   */
  lemma WholeRun(ticks: seq<Tick>, ending: Ending)
    ensures var t := ShutDown(AllTurned(INITIAL, ticks), ending);
      && Settled(t)
      && multiset(t.accepted) == multiset(t.db) + multiset(AllLost(t.batches)) + multiset(AllMissed(t.batches))
      && (OneEachRow(t.accepted) ==> Conserved(t) && |t.accepted| == t.written + t.lost)
      && (forall b | b in t.batches ::
            && |b.starts| <= 6 && 1 <= Attempts(b) <= 7 && Spaced(b)
            && (b.givenUp.Some? ==> b.failures != [] && b.failures[0] + 110 * SECOND <= b.givenUp.value))
  {
    hide Delay, AllRows, AllCommitted, AllLost, AllMissed, Accounted, Sound, AllTurned, ShutDown, Conserved, Weights;
    InitiallySound();
    RunsStaySound(INITIAL, ticks);
    var loop := AllTurned(INITIAL, ticks);
    ShutdownSettles(loop, ending);
    var t := ShutDown(loop, ending);
    forall b | b in t.batches
      ensures |b.starts| <= 6 && 1 <= Attempts(b) <= 7 && Spaced(b)
      ensures b.givenUp.Some? ==> b.failures != [] && b.failures[0] + 110 * SECOND <= b.givenUp.value
    {
      var i :| 0 <= i < |t.batches| && t.batches[i] == b;
      TidyBundle(b);
    }
  }

  /** A turn that finds the flush in flight to have failed for now. */
  predicate FailsIn(s: State, tick: Tick) {
    s.bgFlush.Some? && tick.done.Some? && FailedForNow(s.bgFlush.value, tick.done.value)
  }

  /** Of a record of bundles only the last has changed, its timetable by these additions. */
  ghost predicate Adds(before: seq<Batch>, after: seq<Batch>, starts: seq<nat>, failures: seq<nat>,
                       givenUp: Option<nat>)
  {
    && |after| == |before|
    && (forall i | 0 <= i < |before| - 1 :: after[i] == before[i])
    && (before != [] ==>
          var b, c := before[|before| - 1], after[|before| - 1];
          && c.rows == b.rows && c.final == b.final && c.starts == b.starts + starts
          && c.failures == b.failures + failures && c.givenUp == if givenUp.Some? then givenUp else b.givenUp)
  }

  lemma NotedAdds(batches: seq<Batch>, starts: seq<nat>, parts: Parts, failures: seq<nat>, givenUp: Option<nat>)
    ensures Adds(batches, Noted(batches, starts, parts, failures, givenUp), starts, failures, givenUp)
  {
  }

  lemma NothingAdds(batches: seq<Batch>)
    ensures Adds(batches, batches, [], [], None)
  {
    assert forall a: seq<nat> :: a + [] == a;
  }

  lemma AddsBoth(a: seq<Batch>, b: seq<Batch>, c: seq<Batch>, failures: seq<nat>, givenUp: Option<nat>, starts: seq<nat>)
    requires Adds(a, b, [], failures, givenUp) && Adds(b, c, starts, [], None)
    ensures Adds(a, c, starts, failures, givenUp)
  {
    assert forall s: seq<nat> :: s + [] == s;
  }

  lemma ReapAdds(s: State, done: Option<Completion>, wait: nat)
    ensures var t, failed := Reaped(s, done, wait),
                             s.bgFlush.Some? && done.Some? && FailedForNow(s.bgFlush.value, done.value);
      Adds(s.batches, t.batches, [], if failed then [s.clock + wait] else [],
           if failed && t.retry == None then Some(s.clock + wait) else None)
  {
    hide Noted, Back, PartsOf, CountLost, Extra, Delay, Adds;
    if s.bgFlush.Some? && done.Some? {
      var bundle, now, end, keep := s.bgFlush.value, s.clock + wait, done.value, s.attempts < 5;
      var failed := FailedForNow(bundle, end);
      NotedAdds(s.batches, [], PartsOf(bundle, keep, end), if failed then [now] else [],
                if failed && !keep then Some(now) else None);
    } else {
      NothingAdds(s.batches);
    }
  }

  lemma RestartAdds(s: State, wait: nat)
    requires !(s.bgFlush.Some? && s.retry.Some?)
    ensures var t := Restarted(s, wait);
      Adds(s.batches, t.batches, if s.retry.Some? && t.bgFlush.Some? then [s.clock + wait] else [], [], None)
  {
    hide Noted, Adds;
    NotedAdds(s.batches, [s.clock + wait], NOTHING, [], None);
    NothingAdds(s.batches);
  }

  /**
   * What a turn records. A new bundle is recorded exactly when a flush starts while nothing is
   * in flight or retained, with the rows then pending and that instant; of the last bundle so
   * far, a start is added exactly when the retained rows go into flight, a failure exactly when
   * its flush is found to have failed for now, and the giving up exactly when the rows of such
   * a failure are not retained. Nothing else of any bundle's timetable changes.
   */
  lemma TurnRecords(s: State, tick: Tick)
    requires Sound(s)
    ensures var t, n, reapAt := Turned(s, tick), |s.batches|, s.clock + tick.untilReap;
      var now, reaped := reapAt + tick.untilCheck, Reaped(s, tick.done, tick.untilReap);
      && n <= |t.batches| <= n + 1
      && Adds(s.batches, t.batches[..n], if reaped.retry.Some? && t.bgFlush.Some? then [now] else [],
              if FailsIn(s, tick) then [reapAt] else [],
              if FailsIn(s, tick) && reaped.retry == None then Some(reapAt) else None)
      && (|t.batches| == n + 1 <==> reaped.bgFlush == None && reaped.retry == None && t.bgFlush.Some?)
      && (|t.batches| == n + 1 ==>
            t.bgFlush == Some(s.pending) && t.batches[n] == Batch(s.pending, [], [], [], [now], [], None, None))
  {
    hide Sound, Reaped, Restarted, Noted, Adds, Drained, AcceptedOf, FailsIn;
    var reaped := Reaped(s, tick.done, tick.untilReap);
    var restarted := Restarted(reaped, tick.untilCheck);
    var started := Started(restarted, tick.flushDue);
    ReapStaysSound(s, tick.done, tick.untilReap);
    FinishingOverwritesNothing(reaped);
    ReapAdds(s, tick.done, tick.untilReap);
    RestartAdds(reaped, tick.untilCheck);
    FlightsOf(s, tick);
    var failed := FailsIn(s, tick);
    assert Adds(s.batches, reaped.batches, [], if failed then [s.clock + tick.untilReap] else [],
                if failed && reaped.retry == None then Some(s.clock + tick.untilReap) else None);
    AddsBoth(s.batches, reaped.batches, restarted.batches, if failed then [s.clock + tick.untilReap] else [],
             if failed && reaped.retry == None then Some(s.clock + tick.untilReap) else None,
             if reaped.retry.Some? && restarted.bgFlush.Some? then [s.clock + tick.untilReap + tick.untilCheck] else []);
    assert started.batches[..|s.batches|] == restarted.batches;
  }

  /** What the steps of a turn do to the flight, the retained bundle, the pending rows and the clock. */
  lemma FlightsOf(s: State, tick: Tick)
    requires Sound(s)
    ensures var reaped := Reaped(s, tick.done, tick.untilReap); var restarted := Restarted(reaped, tick.untilCheck);
      && (FailsIn(s, tick) <==>
            s.bgFlush.Some? && tick.done.Some? && FailedForNow(s.bgFlush.value, tick.done.value))
      && reaped.pending == restarted.pending == s.pending
      && reaped.clock == s.clock + tick.untilReap && restarted.clock == s.clock + tick.untilReap + tick.untilCheck
      && |reaped.batches| == |restarted.batches| == |s.batches|
      && (reaped.bgFlush.Some? ==> restarted.bgFlush == reaped.bgFlush && restarted.retry == reaped.retry)
      && (reaped.bgFlush == None && reaped.retry.Some? ==> restarted.bgFlush.Some? || restarted.retry.Some?)
      && (reaped.bgFlush == None && reaped.retry == None ==> restarted.bgFlush == None && restarted.retry == None)
  {
    hide Sound, Back, PartsOf, CountLost, Extra, Delay;
  }

  /** A failed flush is given up only at the sixth failure of its bundle, 110 seconds or more after the first. */
  lemma GivingUpIsLate(s: State, tick: Tick)
    requires Sound(s) && FailsIn(s, tick)
    requires Reaped(s, tick.done, tick.untilReap).retry == None
    ensures s.attempts == 5 && s.batches != []
    ensures var b := s.batches[|s.batches| - 1];
      |b.starts| == 6 && |b.failures| == 5 && b.failures[0] + 110 * SECOND <= s.clock + tick.untilReap
    ensures PartsOf(s.bgFlush.value, false, tick.done.value).gone
      == Ended(s.bgFlush.value, FateIn(s.bgFlush.value, tick.done.value), Gone) + Back(s.bgFlush.value, tick.done.value)
  {
    hide Ended, AllTidy, Balances, Delay, Spaced, FateIn, CountLost, Extra;
    var b := s.batches[|s.batches| - 1];
    var after := b.(failures := b.failures + [s.clock + tick.untilReap], givenUp := Some(s.clock + tick.untilReap));
    Fails(b, after, s.attempts, s.clock, s.clock + tick.untilReap, []);
    SixthFailure(after);
  }

  /** The flush of a retained bundle at the shutdown is recorded as one attempt more, the seventh at most. */
  lemma FinalRetryCounts(s: State, end: Completion)
    requires Closing(s) && s.retry.Some?
    ensures var t, n := FinallyRetried(s, end), |s.batches|;
      && |t.batches| == n > 0 && t.batches[n - 1].rows == s.batches[n - 1].rows
      && Attempts(t.batches[n - 1]) == Attempts(s.batches[n - 1]) + 1 <= 7
      && (forall i | 0 <= i < n - 1 :: t.batches[i] == s.batches[i])
  {
    hide PartsOf, CountLost, Extra, Balances, Delay;
    assert Tidy(s.batches[|s.batches| - 1]);
  }

  /**
   * At every moment of a run, the rows in flight or retained, never both, are of the last bundle
   * recorded, which has one failure before each of its starts but the first.
   */
  lemma InFlight(ticks: seq<Tick>)
    ensures var s := AllTurned(INITIAL, ticks);
      && !(s.bgFlush.Some? && s.retry.Some?)
      && (s.bgFlush.Some? || s.retry.Some? ==>
            s.batches != [] && multiset(Unsettled(s)) <= multiset(s.batches[|s.batches| - 1].rows))
      && (s.bgFlush.Some? ==>
            && |s.batches[|s.batches| - 1].starts| == s.attempts + 1 <= 6
            && |s.batches[|s.batches| - 1].failures| == s.attempts)
      && (s.retry.Some? ==> |s.batches[|s.batches| - 1].failures| == s.retry.value.attempts <= 5)
  {
    hide Delay, AllRows, AllCommitted, AllLost, AllMissed, AllTurned, Spaced, AllTidy, Weights, OneEachRow;
    InitiallySound();
    RunsStaySound(INITIAL, ticks);
  }

  // -------------------------------------------------------------------------
  // The surplus
  // -------------------------------------------------------------------------

  /** What an outcome adds to the surplus is the surplus of the tables its flush settles. */
  lemma ExtraIsSurplus(bundle: seq<Row>, connections: nat, answers: Answers)
    ensures Extra(bundle, Outcome(connections, answers)) == SurplusOver(Jsons(bundle), answers.json, PLAN)
  {
    var fate := Fates(bundle, connections, answers);
    EndedCounts(bundle, fate);
    FlushByRows(bundle, connections, answers);
    FlushBalance(Sections(bundle), connections, answers);
    SectionsCount(bundle);
    SectionsCount(Ended(bundle, fate, Kept));
    hide Ended, Fates, KeptBundle, Report, Lost, FatedBundle, Weights, Ids, Jsons, SurplusOver;
  }

  // -------------------------------------------------------------------------
  // What the end of a flush does to the counters and the database
  // -------------------------------------------------------------------------

  /** The rows of a bundle that were committed before a panic or an abort: those reached that come to anything. */
  function ReachedRows(bundle: seq<Row>, reached: nat -> bool): seq<Row>
    decreases |bundle|
  {
    if bundle == [] then []
    else
      var p := |bundle| - 1;
      ReachedRows(bundle[..p], reached) + if reached(p) && Weight(bundle[p]) > 0 then [bundle[p]] else []
  }

  /**
   * The counters and the database after the end of a flush of a bundle. After an outcome they
   * move by the report and the losses of the flush of the writer's sections, and by its retry
   * bundle if that is not kept; the new rows of the database are the committed ones. After a
   * panic or an abort, written moves by the database rows reached, and lost by what they leave
   * of the number of rows.
   */
  ghost predicate MovedBy(s: State, t: State, bundle: seq<Row>, keep: bool, end: Completion) {
    match end
    case Outcome(connections, answers) =>
      var b := Sections(bundle);
      var back := KeptBundle(b, connections, answers);
      && t.written == s.written + Report(b, connections, answers).Total()
      && t.lost == s.lost + Lost(b, connections, answers) + (if keep then 0 else back.TotalRows())
      && s.db <= t.db && Sections(t.db[|s.db|..]) == FatedBundle(b, connections, answers, Sent)
    case JoinError(reached) =>
      var rows := ReachedRows(bundle, reached);
      && t.written == s.written + Weights(rows) && t.db == s.db + rows
      && t.lost == s.lost + if Weights(rows) > |bundle| then 0 else |bundle| - Weights(rows)
  }

  /** The bundle that comes back with an outcome; nothing comes back after a panic or an abort. */
  function BackBundle(bundle: seq<Row>, end: Completion): FlushBundle {
    match end
    case Outcome(connections, answers) => KeptBundle(Sections(bundle), connections, answers)
    case JoinError(_) => FlushBundle([], [], [], [], [], [])
  }

  lemma {:induction false} PanicCommits(bundle: seq<Row>, n: nat, reached: nat -> bool)
    requires n <= |bundle|
    ensures Ended(bundle[..n], FateIn(bundle, JoinError(reached)), Committed) == ReachedRows(bundle[..n], reached)
    decreases n
  {
    if n > 0 {
      PanicCommits(bundle, n - 1, reached);
      assert bundle[..n][..n - 1] == bundle[..n - 1];
    } else {
      assert bundle[..0] == [];
    }
  }

  lemma TalliedByEnd(s: State, bundle: seq<Row>, keep: bool, end: Completion)
    ensures MovedBy(s, Tallied(s, bundle, keep, end), bundle, keep, end)
    ensures Sections(Back(bundle, end)) == BackBundle(bundle, end)
    ensures |Back(bundle, end)| == BackBundle(bundle, end).TotalRows()
    ensures Back(bundle, end) == [] <==> BackBundle(bundle, end).IsEmpty()
  {
    SectionsCount(Back(bundle, end));
    match end
    case Outcome(connections, answers) =>
      FlushByRows(bundle, connections, answers);
      var sent := Ended(bundle, Fates(bundle, connections, answers), Committed);
      assert (s.db + sent)[|s.db|..] == sent;
      hide Fates, Ended, KeptBundle, Report, Lost, FatedBundle, Ids, Jsons, Weights, Extra;
    case JoinError(reached) =>
      NothingBack(bundle, reached);
      NothingWaits();
      PanicCommits(bundle, |bundle|, reached);
      assert bundle[..|bundle|] == bundle;
      hide FateIn, Ended, Weights, Extra;
  }

  /** The delays after the first five failures of a bundle, in nanoseconds. */
  lemma Delays()
    ensures Delay(1) == 1_000_000_000 && Delay(2) == 4_000_000_000 && Delay(3) == 15_000_000_000
    ensures Delay(4) == 30_000_000_000 && Delay(5) == 60_000_000_000
  {
  }

  /**
   * The end of a flush in the loop: the counters and the database move as they should, and what
   * comes back is retained, for 1, 4, 15, 30 and 60 seconds after the failures from the first to
   * the fifth, and lost with the sixth.
   */
  lemma ReapedByEnd(s: State, end: Completion, wait: nat)
    requires s.bgFlush.Some?
    ensures var bundle, t, now, back := s.bgFlush.value, Reaped(s, Some(end), wait), s.clock + wait,
                                        BackBundle(s.bgFlush.value, end);
      && MovedBy(s, t, bundle, s.attempts < 5, end)
      && t.bgFlush == None && t.clock == now && t.pending == s.pending && t.accepted == s.accepted
      && (t.retry.Some? <==> !back.IsEmpty() && s.attempts < 5)
      && (t.retry.Some? ==>
            && Sections(t.retry.value.bundle) == back && t.retry.value.attempts == s.attempts + 1
            && t.retry.value.nextTry == now + 1_000_000_000 * (if s.attempts == 0 then 1 else if s.attempts == 1 then 4
                 else if s.attempts == 2 then 15 else if s.attempts == 3 then 30 else 60))
  {
    hide Delay, Back, PartsOf, CountLost, Extra, Weights, Noted, Sections, BackBundle, MovedBy;
    Delays();
    TalliedByEnd(s, s.bgFlush.value, s.attempts < 5, end);
    MovedAlike(s, Tallied(s, s.bgFlush.value, s.attempts < 5, end), Reaped(s, Some(end), wait), s.bgFlush.value,
               s.attempts < 5, end);
  }

  lemma MovedAlike(s: State, t: State, u: State, bundle: seq<Row>, keep: bool, end: Completion)
    requires MovedBy(s, t, bundle, keep, end) && t.written == u.written && t.lost == u.lost && t.db == u.db
    ensures MovedBy(s, u, bundle, keep, end)
  {
    hide Sections, Report, Lost, KeptBundle, FatedBundle, ReachedRows, Weights;
  }

  /** What an outcome moves the surplus by is the surplus of the tables its flush settles. */
  lemma SurplusOfEnd(s: State, bundle: seq<Row>, keep: bool, connections: nat, answers: Answers)
    ensures Tallied(s, bundle, keep, Outcome(connections, answers)).surplus
      == s.surplus + SurplusOver(Sections(bundle).json, answers.json, PLAN)
  {
    ExtraIsSurplus(bundle, connections, answers);
    hide Extra, SurplusOver, PartsOf, CountLost, Weights;
  }

  /** The first phase of the shutdown: what comes back is retained whatever its attempts. */
  lemma FinishedByEnd(s: State, end: Completion)
    ensures var t := FinishedInFlight(s, end);
      && (s.bgFlush == None ==> t == s)
      && (s.bgFlush.Some? ==>
            var bundle, back := s.bgFlush.value, BackBundle(s.bgFlush.value, end);
            && MovedBy(s, t, bundle, true, end)
            && t.bgFlush == None && t.pending == s.pending && t.accepted == s.accepted
            && (t.retry.Some? <==> !back.IsEmpty()) && (t.retry.Some? ==> Sections(t.retry.value.bundle) == back))
  {
    hide MovedBy, Back, PartsOf, CountLost, Extra, Weights, Noted, Sections, BackBundle;
    if s.bgFlush.Some? {
      TalliedByEnd(s, s.bgFlush.value, true, end);
      MovedAlike(s, Tallied(s, s.bgFlush.value, true, end), FinishedInFlight(s, end), s.bgFlush.value, true, end);
    }
  }

  /** The second phase: the retained rows are flushed once more, and what comes back is lost. */
  lemma RetriedByEnd(s: State, end: Completion)
    ensures var t := FinallyRetried(s, end);
      && (s.retry == None ==> t == s)
      && (s.retry.Some? ==>
            && MovedBy(s, t, s.retry.value.bundle, false, end)
            && t.retry == None && t.pending == s.pending && t.accepted == s.accepted && t.bgFlush == s.bgFlush)
  {
    hide MovedBy, Back, PartsOf, CountLost, Extra, Weights, NotedFinal, Sections, BackBundle;
    if s.retry.Some? {
      TalliedByEnd(s, s.retry.value.bundle, false, end);
      MovedAlike(s, Tallied(s, s.retry.value.bundle, false, end), FinallyRetried(s, end), s.retry.value.bundle, false, end);
    }
  }

  /** The third phase: what the writer and the buffers hold is flushed, and what comes back is lost. */
  lemma DrainedByEnd(s: State, shards: seq<Shard>, end: Completion)
    ensures var t, rows := FinallyDrained(s, shards, end), s.pending + Drained(shards);
      && t.pending == [] && t.accepted == s.accepted + Drained(shards) && t.retry == s.retry && t.bgFlush == s.bgFlush
      && MovedBy(s, t, rows, false, end)
  {
    hide MovedBy, Back, PartsOf, CountLost, Extra, Weights, Sections, BackBundle, Drained;
    var rows, u := s.pending + Drained(shards), TakenIn(s, Drained(shards));
    if rows == [] {
      NothingMoved(u, end);
      MovedAlike(u, u, FinallyDrained(s, shards, end), rows, false, end);
      MovedFrom(u, s, FinallyDrained(s, shards, end), rows, false, end);
    } else {
      TalliedByEnd(u, rows, false, end);
      MovedAlike(u, Tallied(u, rows, false, end), FinallyDrained(s, shards, end), rows, false, end);
      MovedFrom(u, s, FinallyDrained(s, shards, end), rows, false, end);
    }
  }

  lemma MovedFrom(s: State, s': State, t: State, bundle: seq<Row>, keep: bool, end: Completion)
    requires MovedBy(s, t, bundle, keep, end) && s.written == s'.written && s.lost == s'.lost && s.db == s'.db
    ensures MovedBy(s', t, bundle, keep, end)
  {
    hide Sections, Report, Lost, KeptBundle, FatedBundle, ReachedRows, Weights;
  }

  /** The flush of no rows moves nothing. */
  lemma NothingMoved(s: State, end: Completion)
    ensures MovedBy(s, s, [], false, end)
  {
    hide FatedBundle, KeptBundle, Report, Lost, Fates;
    match end
    case Outcome(connections, answers) =>
      FlushByRows([], connections, answers);
      NothingEnded(Fates([], connections, answers));
      SectionsCount([]);
      assert s.db[|s.db|..] == [];
    case JoinError(_) =>
      assert s.db + [] == s.db;
  }

  // -------------------------------------------------------------------------
  // What a turn starts and takes in
  // -------------------------------------------------------------------------

  /**
   * One flush at a time. Of what is there after the reaping: a flush still in flight stays; a
   * retained bundle goes into flight when its time has come and stays retained before; with
   * neither, everything pending goes into flight when a flush is due. Then, unless a bundle
   * is still retained, all rows of the buffers and of the first 10,000 messages are taken in.
   */
  lemma TurnByCases(s: State, tick: Tick)
    ensures var r, t, now := Reaped(s, tick.done, tick.untilReap), Turned(s, tick),
                             s.clock + tick.untilReap + tick.untilCheck;
      var starts := r.bgFlush == None && r.retry == None && s.pending != [] && tick.flushDue;
      var arrived := s.channel + tick.sent;
      var n := if |arrived| <= 10_000 then |arrived| else 10_000;
      && t.clock == now
      && (r.bgFlush.Some? ==> t.bgFlush == r.bgFlush && t.retry == r.retry && t.attempts == r.attempts)
      && (r.bgFlush == None && r.retry.Some? && r.retry.value.nextTry <= now ==>
            t.bgFlush == Some(r.retry.value.bundle) && t.attempts == r.retry.value.attempts && t.retry == None)
      && (r.bgFlush == None && r.retry.Some? && now < r.retry.value.nextTry ==> t.bgFlush == None && t.retry == r.retry)
      && (r.bgFlush == None && r.retry == None ==>
            && t.retry == None && t.bgFlush == (if starts then Some(s.pending) else None)
            && (starts ==> t.attempts == 0))
      && (t.retry.Some? ==> t.accepted == s.accepted && t.pending == s.pending && t.channel == arrived)
      && (t.retry == None ==>
            var rows := Drained(tick.shards) + AcceptedOf(arrived[..n]);
            && t.accepted == s.accepted + rows && t.pending == (if starts then [] else s.pending) + rows
            && t.channel == arrived[n..])
      && t.written == r.written && t.lost == r.lost && t.db == r.db
  {
    hide PartsOf, CountLost, Extra, Weights, Noted, RetryAfter, Ingested;
    IntakeByCases(Started(Restarted(Reaped(s, tick.done, tick.untilReap), tick.untilCheck), tick.flushDue), tick.shards,
                  tick.sent);
  }

  lemma IntakeByCases(s: State, shards: seq<Shard>, sent: seq<Update>)
    ensures var t, arrived := Ingested(s, shards, sent), s.channel + sent;
      var n := if |arrived| <= 10_000 then |arrived| else 10_000;
      var rows := if s.retry.Some? then [] else Drained(shards) + AcceptedOf(arrived[..n]);
      && t.accepted == s.accepted + rows && t.pending == s.pending + rows
      && t.channel == (if s.retry.Some? then arrived else arrived[n..])
      && t == s.(accepted := t.accepted, pending := t.pending, channel := t.channel)
  {
    hide Drained, AcceptedOf;
    var arrived := s.channel + sent;
    var rows, more := Drained(shards), AcceptedOf(arrived[..Min(|arrived|, FALLBACK_LIMIT)]);
    Joined(s.accepted, rows, more);
    Joined(s.pending, rows, more);
    assert s.accepted + [] == s.accepted && s.pending + [] == s.pending;
  }

  /** The rows of captures and messages are theirs in order, and no others. */
  lemma {:induction false} AcceptedInOrder(a: seq<Update>, b: seq<Update>, update: Update)
    ensures AcceptedOf([]) == [] && AcceptedOf([update]) == update && AcceptedOf(a + b) == AcceptedOf(a) + AcceptedOf(b)
    decreases |b|
  {
    AcceptedMore([], update);
    assert [] + [update] == [update] && [] + update == update;
    if b == [] {
      assert a + b == a && AcceptedOf(a) + [] == AcceptedOf(a);
    } else {
      var earlier, last := b[..|b| - 1], b[|b| - 1];
      AcceptedInOrder(a, earlier, update);
      assert a + b == (a + earlier) + [last] && b == earlier + [last];
      AcceptedMore(a + earlier, last);
      AcceptedMore(earlier, last);
      Joined(AcceptedOf(a), AcceptedOf(earlier), last);
      hide AcceptedOf;
    }
  }

  /** The buffers are emptied one after the other, of each the scalars before the others. */
  lemma {:induction false} DrainedInOrder(a: seq<Shard>, b: seq<Shard>, shard: Shard)
    ensures Drained([]) == [] && Drained([shard]) == shard.scalars + AcceptedOf(shard.others)
    ensures Drained(a + b) == Drained(a) + Drained(b)
    decreases |b|
  {
    hide Drained, AcceptedOf;
    DrainedMore([], shard);
    assert [] + [shard] == [shard] && [] + shard.scalars == shard.scalars;
    if b == [] {
      assert a + b == a && Drained(a) + [] == Drained(a);
    } else {
      var earlier, last := b[..|b| - 1], b[|b| - 1];
      DrainedInOrder(a, earlier, shard);
      assert a + b == (a + earlier) + [last] && b == earlier + [last];
      DrainedMore(a + earlier, last);
      DrainedMore(earlier, last);
      Joined4(Drained(a), Drained(earlier), last.scalars, AcceptedOf(last.others));
    }
  }

  // ---- When a whole run counts its rows ----

  /** What a run from the beginning comes to. */
  function Final(ticks: seq<Tick>, ending: Ending): State {
    ShutDown(AllTurned(INITIAL, ticks), ending)
  }

  const NONE_REACHED := JoinError((_: nat) => false)

  lemma {:induction false} NoneCommitted(rows: seq<Row>, fate: nat -> Fate)
    requires forall p: nat | p < |rows| :: fate(p) == Gone
    ensures Ended(rows, fate, Committed) == [] && Ended(rows, fate, Kept) == []
    decreases |rows|
  {
    if rows != [] {
      NoneCommitted(rows[..|rows| - 1], fate);
    }
  }

  /** A flush that ends before it commits anything loses its rows, and counts each once. */
  lemma NoneReachedExtra(bundle: seq<Row>)
    ensures Extra(bundle, NONE_REACHED) == 0 && Back(bundle, NONE_REACHED) == []
  {
    NoneCommitted(bundle, FateIn(bundle, NONE_REACHED));
  }

  /** A row that is flushed alone and sent counts as the database rows it comes to. */
  lemma OneRowExtra(row: Row)
    ensures Extra([row], Outcome(1, ALL_SENT)) == Weight(row) - 1 && Back([row], Outcome(1, ALL_SENT)) == []
  {
    var fate := Fates([row], 1, ALL_SENT);
    AllSentFates([row], 1, ALL_SENT, 0);
    NothingEnded(fate);
    assert [] + [row] == [row];
    EndedMore([], row, fate, Committed);
    EndedMore([], row, fate, Kept);
    EndedMore([], row, fate, Gone);
    EndedMore([], row, fate, Missed);
    WeightsOneMore([], row);
    hide Fates, Ended;
  }

  lemma Arrives(s: State, rows: seq<Row>)
    requires s.retry == None && s.channel == []
    ensures Ingested(s, [Shard(rows, [])], []) == TakenIn(s, rows)
  {
    DrainedMore([], Shard(rows, []));
    assert [] + [Shard(rows, [])] == [Shard(rows, [])];
    AcceptedMore([], []);
    assert s.pending + rows + [] == s.pending + rows && s.accepted + rows + [] == s.accepted + rows;
    hide Drained, AcceptedOf;
  }

  /** A run that flushes one row alone. */
  function LoneTicks(pre: seq<Row>, row: Row, post: seq<Row>): seq<Tick> {
    [Tick(0, None, 0, false, [Shard(pre, [])], []),
     Tick(0, None, 0, true, [Shard([row], [])], []),
     Tick(0, Some(NONE_REACHED), 0, true, [Shard(post, [])], [])]
  }

  const LONE_ENDING := Ending(Outcome(1, ALL_SENT), NONE_REACHED, NONE_REACHED, [])

  lemma QuietTurn(s: State, flushDue: bool, rows: seq<Row>)
    requires s.retry == None && s.channel == []
    ensures Turned(s, Tick(0, None, 0, flushDue, [Shard(rows, [])], [])) == TakenIn(Started(s, flushDue), rows)
  {
    hide Ingested;
    assert Reaped(s, None, 0) == s && Restarted(s, 0) == s;
    Arrives(Started(s, flushDue), rows);
  }

  /** The first rows start while the next one arrives. */
  lemma ArriveAndStart(pre: seq<Row>, row: Row, post: seq<Row>)
    ensures var ticks := LoneTicks(pre, row, post);
      var s := Turned(Turned(INITIAL, ticks[0]), ticks[1]);
      && s.pending == [row] && s.accepted == pre + [row] && s.retry == None && s.channel == [] && s.surplus == 0
      && s.bgFlush == if pre == [] then None else Some(pre)
  {
    hide Turned;
    QuietTurn(INITIAL, false, pre);
    assert [] + pre == pre;
    QuietTurn(TakenIn(INITIAL, pre), true, [row]);
  }

  lemma LoneTurns(pre: seq<Row>, row: Row, post: seq<Row>)
    ensures var s := AllTurned(INITIAL, LoneTicks(pre, row, post));
      && s.bgFlush == Some([row]) && s.retry == None && s.pending == post && s.surplus == 0
      && s.accepted == pre + [row] + post
  {
    hide Extra, Back, PartsOf, CountLost, Weights, Noted, Ingested, AllTurned;
    var ticks := LoneTicks(pre, row, post);
    ArriveAndStart(pre, row, post);
    NoneReachedExtra(pre);
    ThreeTurns(INITIAL, ticks);
    var second := Turned(Turned(INITIAL, ticks[0]), ticks[1]);
    hide Turned;
    LastLoneTurn(second, pre, row, post);
  }

  lemma LastLoneTurn(s: State, pre: seq<Row>, row: Row, post: seq<Row>)
    requires s.pending == [row] && s.accepted == pre + [row] && s.retry == None && s.channel == [] && s.surplus == 0
    requires s.bgFlush == if pre == [] then None else Some(pre)
    ensures var t := Turned(s, LoneTicks(pre, row, post)[2]);
      && t.bgFlush == Some([row]) && t.retry == None && t.pending == post && t.surplus == 0
      && t.accepted == pre + [row] + post
  {
    hide Extra, Back, PartsOf, CountLost, Weights, Noted, Ingested;
    NoneReachedExtra(pre);
    Arrives(Started(Restarted(Reaped(s, Some(NONE_REACHED), 0), 0), true), post);
  }

  lemma ThreeTurns(s: State, ticks: seq<Tick>)
    requires |ticks| == 3
    ensures AllTurned(s, ticks) == Turned(Turned(Turned(s, ticks[0]), ticks[1]), ticks[2])
  {
    hide Turned;
    assert ticks[..2][..1] == ticks[..1] && ticks[..1][..0] == [];
    assert AllTurned(s, ticks[..1]) == Turned(s, ticks[0]);
    assert AllTurned(s, ticks[..2]) == Turned(Turned(s, ticks[0]), ticks[1]);
  }

  lemma LoneRow(pre: seq<Row>, row: Row, post: seq<Row>)
    ensures var t := Final(LoneTicks(pre, row, post), LONE_ENDING);
      t.accepted == pre + [row] + post && t.surplus == Weight(row) - 1
  {
    var s := AllTurned(INITIAL, LoneTicks(pre, row, post));
    LoneTurns(pre, row, post);
    OneRowExtra(row);
    NoneReachedExtra(post);
    assert Drained([]) == [];
    assert s.pending + [] == s.pending && s.accepted + [] == s.accepted;
    hide AllTurned, LoneTicks, Extra, Back, PartsOf, CountLost, Weights, Noted, Drained;
  }

  // ---- When nothing fails ----

  /** The flush ends with an outcome, and the database took every COPY. */
  ghost predicate Succeeds(done: Completion) {
    done.Outcome? && TakesAll(done.answers)
  }

  /** Nothing retained or lost; what comes to anything is written, in flight or pending, in the order taken in. */
  ghost predicate Clean(s: State) {
    && s.retry == None && s.lost == 0
    && Producing(s.accepted) == s.db + Producing(if s.bgFlush.Some? then s.bgFlush.value else []) + Producing(s.pending)
  }

  lemma SuccessTallies(s: State, bundle: seq<Row>, keep: bool, done: Completion)
    requires Succeeds(done)
    ensures var t := Tallied(s, bundle, keep, done);
      t.db == s.db + Producing(bundle) && t.lost == s.lost && Back(bundle, done) == []
  {
    AllSentCommits(bundle, done.connections, done.answers);
    assert Weights([]) == 0;
    hide Fates, Ended, Producing, Extra;
  }

  lemma SuccessStaysClean(s: State, tick: Tick)
    requires Clean(s) && (tick.done.Some? ==> Succeeds(tick.done.value))
    ensures Clean(Turned(s, tick))
  {
    hide Producing, PartsOf, CountLost, Extra, Back, Weights, Noted, Drained, AcceptedOf, Succeeds, Ingested;
    var r := Reaped(s, tick.done, tick.untilReap);
    if s.bgFlush.Some? && tick.done.Some? {
      SuccessTallies(s, s.bgFlush.value, s.attempts < 5, tick.done.value);
    }
    NothingProduced();
    assert Clean(r) by {
      assert s.db + Producing(if s.bgFlush.Some? then s.bgFlush.value else []) + Producing(s.pending)
        == r.db + Producing(if r.bgFlush.Some? then r.bgFlush.value else []) + Producing(r.pending);
    }
    var started := Started(Restarted(r, tick.untilCheck), tick.flushDue);
    assert Clean(started);
    hide Reaped, Restarted, Started;
    IngestStaysClean(started, tick.shards, tick.sent);
  }

  lemma NothingProduced()
    ensures Producing([]) == []
    ensures forall a: seq<Row> :: a + [] == a && [] + a == a
  {
  }

  lemma IngestStaysClean(s: State, shards: seq<Shard>, sent: seq<Update>)
    requires Clean(s)
    ensures Clean(Ingested(s, shards, sent))
  {
    hide Producing, Drained, AcceptedOf;
    var arrived := s.channel + sent;
    var n := Min(|arrived|, FALLBACK_LIMIT);
    TakingStaysClean(s, Drained(shards));
    TakingStaysClean(TakenIn(s, Drained(shards)), AcceptedOf(arrived[..n]));
  }

  lemma TakingStaysClean(s: State, rows: seq<Row>)
    requires Clean(s)
    ensures Clean(TakenIn(s, rows))
  {
    hide Producing;
    ProducingJoins(s.accepted, rows);
    ProducingJoins(s.pending, rows);
    var flight := Producing(if s.bgFlush.Some? then s.bgFlush.value else []);
    assert s.db + flight + (Producing(s.pending) + Producing(rows))
      == s.db + flight + Producing(s.pending) + Producing(rows);
  }

  lemma {:induction false} SuccessRunsClean(ticks: seq<Tick>)
    requires forall tick | tick in ticks && tick.done.Some? :: Succeeds(tick.done.value)
    ensures Clean(AllTurned(INITIAL, ticks))
    decreases |ticks|
  {
    if ticks == [] {
      NothingProduced();
    } else {
      var earlier, last := ticks[..|ticks| - 1], ticks[|ticks| - 1];
      assert last in ticks && forall tick | tick in earlier :: tick in ticks;
      hide Clean, Turned, Succeeds;
      SuccessRunsClean(earlier);
      SuccessStaysClean(AllTurned(INITIAL, earlier), last);
    }
  }

  lemma SuccessEndsClean(s: State, ending: Ending)
    requires Clean(s) && Succeeds(ending.inFlight) && Succeeds(ending.final)
    ensures var t := ShutDown(s, ending); Clean(t) && t.bgFlush == None && t.pending == []
  {
    hide Producing, PartsOf, CountLost, Extra, Back, Weights, Noted, Drained, Succeeds;
    NothingProduced();
    if s.bgFlush.Some? {
      SuccessTallies(s, s.bgFlush.value, true, ending.inFlight);
    }
    var finished := FinishedInFlight(s, ending.inFlight);
    assert s.db + Producing(if s.bgFlush.Some? then s.bgFlush.value else []) == finished.db;
    assert finished.retry == None && FinallyRetried(finished, ending.retry) == finished;
    TakingStaysClean(finished, Drained(ending.shards));
    var taken := TakenIn(finished, Drained(ending.shards));
    SuccessTallies(taken, taken.pending, false, ending.final);
    assert Clean(FinallyDrained(finished, ending.shards, ending.final));
  }

  /**
   * A run in which the database takes every COPY, up to the last flush of the shutdown, loses
   * nothing, counts what its rows come to, and writes every accepted row that comes to
   * anything, in the order taken in; all of them when each comes to one database row.
   */
  lemma NothingFailsNothingLost(ticks: seq<Tick>, ending: Ending)
    requires forall tick | tick in ticks && tick.done.Some? :: Succeeds(tick.done.value)
    requires Succeeds(ending.inFlight) && Succeeds(ending.final)
    ensures var t := Final(ticks, ending);
      && t.lost == 0 && t.written == Weights(t.accepted) && t.db == Producing(t.accepted)
      && (OneEachRow(t.accepted) ==> t.db == t.accepted && t.written == |t.accepted|)
  {
    hide AllTurned, ShutDown, Conserved, Weights, Producing, AllRows, AllCommitted, AllLost, AllMissed, Accounted;
    SuccessRunsClean(ticks);
    SuccessEndsClean(AllTurned(INITIAL, ticks), ending);
    WholeRun(ticks, ending);
    var t := Final(ticks, ending);
    NothingProduced();
    assert Producing(t.accepted) == t.db;
    ProducingWeighs(t.accepted);
    AllProducing(t.accepted);
    OneEachCounts(t.accepted);
  }

  /** The end of a run in which each accepted row is written or lost and counted once. */
  ghost predicate Exact(t: State) {
    Conserved(t) && t.written + t.lost == |t.accepted|
  }

  /**
   * However the buffers bring some rows and however the flushes end, every row is written or
   * lost and counted once, exactly when each of the rows comes to one database row; and the
   * counters add up to the number of rows, whatever the run, under no weaker condition.
   */
  lemma RunsAreExactIff(rows: seq<Row>)
    ensures (forall ticks, ending :: Final(ticks, ending).accepted == rows ==> Exact(Final(ticks, ending)))
      <==> OneEachRow(rows)
    ensures (forall ticks, ending ::
               Final(ticks, ending).accepted == rows ==>
                 Final(ticks, ending).written + Final(ticks, ending).lost == |rows|)
      <==> OneEachRow(rows)
  {
    hide ShutDown, AllTurned, Conserved, Settled;
    if OneEachRow(rows) {
      forall ticks, ending | Final(ticks, ending).accepted == rows
        ensures Exact(Final(ticks, ending))
      {
        WholeRun(ticks, ending);
      }
    } else {
      var row :| row in rows && Weight(row) != 1;
      var p :| 0 <= p < |rows| && rows[p] == row;
      LoneRow(rows[..p], row, rows[p + 1..]);
      assert rows[..p] + [row] + rows[p + 1..] == rows;
      var ticks := LoneTicks(rows[..p], row, rows[p + 1..]);
      WholeRun(ticks, LONE_ENDING);
      CountsOf(ticks, LONE_ENDING);
      hide LoneTicks, Final, OneEachRow;
      assert Final(ticks, LONE_ENDING).accepted == rows;
      assert Final(ticks, LONE_ENDING).written + Final(ticks, LONE_ENDING).lost != |rows|;
    }
  }

  /** The counters of a run are the accepted rows and the surplus. */
  lemma CountsOf(ticks: seq<Tick>, ending: Ending)
    ensures var t := Final(ticks, ending); t.written + t.lost == |t.accepted| + t.surplus
  {
    hide AllTurned, ShutDown;
    WholeRun(ticks, ending);
  }

  // -------------------------------------------------------------------------
  // The loop
  // -------------------------------------------------------------------------

  /** No bundle is retained while one is in flight, so the shutdown's assignment replaces none. */
  lemma FinishingOverwritesNothing(s: State)
    requires Sound(s)
    ensures s.bgFlush.Some? ==> s.retry == None
  {
  }

  lemma AcceptedMore(updates: seq<Update>, update: Update)
    ensures AcceptedOf([]) == [] && AcceptedOf(updates + [update]) == AcceptedOf(updates) + update
  {
    assert (updates + [update])[..|updates|] == updates;
  }

  lemma DrainedMore(shards: seq<Shard>, shard: Shard)
    ensures Drained([]) == []
    ensures Drained(shards + [shard]) == Drained(shards) + shard.scalars + AcceptedOf(shard.others)
  {
    assert (shards + [shard])[..|shards|] == shards;
  }

  lemma Joined4(a: seq<Row>, b: seq<Row>, c: seq<Row>, d: seq<Row>)
    ensures a + (b + c + d) == a + b + c + d
    ensures c == [] ==> a + b + c == a + b
    ensures d == [] ==> a + b + c + d == a + b + c
  {
  }

  /** The state after a flush has ended, field by field. */
  lemma ReapedState(s: State, done: Completion)
    requires s.bgFlush.Some?
    ensures var bundle, keep := s.bgFlush.value, s.attempts < 5;
      var parts, failed := PartsOf(bundle, keep, done), FailedForNow(bundle, done);
      Reaped(s, Some(done), 0)
        == State(s.pending, None, 0, RetryAfter(bundle, s.attempts, done, s.clock), s.written + Weights(parts.sent),
                 s.lost + CountLost(bundle, keep, done), s.channel, s.clock, s.accepted, s.db + parts.sent,
                 Noted(s.batches, [], parts, if failed then [s.clock] else [],
                       if failed && s.attempts >= 5 then Some(s.clock) else None), s.surplus + Extra(bundle, done))
  {
    hide Noted, FailedForNow, PartsOf, CountLost, Extra, RetryAfter, Weights;
  }

  lemma FinishedState(s: State, end: Completion)
    requires s.bgFlush.Some?
    ensures var bundle, failed := s.bgFlush.value, FailedForNow(s.bgFlush.value, end);
      var parts := PartsOf(bundle, true, end);
      FinishedInFlight(s, end)
        == State(s.pending, None, s.attempts,
                 if failed then Some(PendingRetry(Back(bundle, end), s.attempts + 1, s.clock)) else None,
                 s.written + Weights(parts.sent), s.lost + CountLost(bundle, true, end), s.channel, s.clock, s.accepted,
                 s.db + parts.sent, Noted(s.batches, [], parts, if failed then [s.clock] else [], None),
                 s.surplus + Extra(bundle, end))
  {
    hide Noted, FailedForNow, PartsOf, CountLost, Extra, Back, Weights;
  }

  class StoreLoop {
    /** The writer's buffers. */
    var pending: seq<Row>
    var bgFlush: Option<seq<Row>>
    var inflightAttempts: nat
    var inflightRows: nat
    var pendingRetry: Option<PendingRetry>
    var totalWritten: nat
    var rowsLost: nat
    var channel: seq<Update>
    var clock: nat

    /** Every row the writer ever accepted, every row committed, and the bundles in between. */
    ghost var accepted: seq<Row>
    ghost var db: seq<Row>
    ghost var batches: seq<Batch>
    /** How much more was counted than there were rows. */
    ghost var surplus: int

    constructor ()
      ensures Valid() && View() == INITIAL
    {
      pending, bgFlush, inflightAttempts, inflightRows := [], None, 0, 0;
      pendingRetry, totalWritten, rowsLost, channel, clock := None, 0, 0, [], 0;
      accepted, db, batches, surplus := [], [], [], 0;
      new;
      InitiallySound();
    }

    ghost function View(): State
      reads this
    {
      State(pending, bgFlush, inflightAttempts, pendingRetry, totalWritten, rowsLost, channel, clock, accepted, db,
            batches, surplus)
    }

    ghost predicate Valid()
      reads this
    {
      Sound(View()) && Counted()
    }

    /** The row count kept beside a flush is that of its bundle. */
    predicate Counted()
      reads `bgFlush, `inflightRows
    {
      bgFlush.Some? ==> inflightRows == |bgFlush.value|
    }

    /** Take the in-flight flush to its end if it has ended. */
    method Reap(done: Option<Completion>, wait: nat)
      requires Valid()
      modifies this
      ensures Valid() && View() == Reaped(old(View()), done, wait)
    {
      hide Sound, Back, Delay, Noted, PartsOf, CountLost, Extra, RetryAfter, Weights;
      ReapStaysSound(View(), done, wait);
      FinishingOverwritesNothing(View());
      clock := clock + wait;
      if bgFlush.Some? && done.Some? {
        ReapEnded(done.value);
      }
    }

    method ReapEnded(done: Completion)
      requires bgFlush.Some? && pendingRetry == None && Counted()
      modifies `bgFlush, `inflightAttempts, `inflightRows, `pendingRetry, `totalWritten, `rowsLost
      modifies `db, `batches, `surplus
      ensures bgFlush == None && View() == Reaped(old(View()), Some(done), 0)
    {
      hide Noted, FailedForNow, PartsOf, CountLost, Extra, RetryAfter, Weights, Reaped, Tallied;
      ReapedState(View(), done);
      var bundle, attempts, rowsAtRisk := bgFlush.value, inflightAttempts, inflightRows;
      bgFlush, inflightAttempts, inflightRows := None, 0, 0;
      var written, lost, retry := JudgeEnd(bundle, attempts, rowsAtRisk, done);
      totalWritten, rowsLost, pendingRetry := totalWritten + written, rowsLost + lost, retry;
      ghost var parts, failed := PartsOf(bundle, attempts < 5, done), FailedForNow(bundle, done);
      db, surplus := db + parts.sent, surplus + Extra(bundle, done);
      batches := Noted(batches, [], parts, if failed then [clock] else [],
                       if failed && attempts >= 5 then Some(clock) else None);
    }

    /** What an ended flush adds to the counters, and the bundle it leaves to be retried. */
    method JudgeEnd(bundle: seq<Row>, attempts: nat, rowsAtRisk: nat, done: Completion)
      returns (written: nat, lost: nat, retry: Option<PendingRetry>)
      requires rowsAtRisk == |bundle|
      ensures written == Weights(PartsOf(bundle, attempts < 5, done).sent)
      ensures lost == CountLost(bundle, attempts < 5, done)
      ensures retry == RetryAfter(bundle, attempts, done, clock)
    {
      hide Ended, Delay, Weights, Fates;
      retry := None;
      match done {
        case Outcome(connections, answers) =>
          var lostRows, kept;
          written, lostRows, kept := FlushOf(bundle, connections, answers);
          lost := 0;
          if lostRows > 0 {
            lost := lost + lostRows;
          }
          if kept != [] {
            var failed := attempts + 1;
            if failed < |FLUSH_BACKOFF_SECS| + 1 {
              retry := Some(PendingRetry(kept, failed, clock + Delay(failed)));
            } else {
              lost := lost + |kept|;
            }
          }
        case JoinError(reached) =>
          NothingBack(bundle, reached);
          written := Weights(Ended(bundle, FateIn(bundle, done), Committed));
          lost := SaturatingSub(rowsAtRisk, written);
      }
    }

    /** The flush of a bundle taken from the writer: what it reports, what it loses, and the rows it gives back. */
    method FlushOf(bundle: seq<Row>, connections: nat, answers: Answers)
      returns (written: nat, lost: nat, kept: seq<Row>)
      ensures var fate := Fates(bundle, connections, answers);
        && written == Weights(Ended(bundle, fate, Committed)) && lost == Weights(Ended(bundle, fate, Gone))
        && kept == Ended(bundle, fate, Kept)
    {
      hide Fates, Ended, Weights, KeptBundle, Report, Lost, FatedBundle, Ids, Jsons;
      FlushByRows(bundle, connections, answers);
      var outcome, _ := FlushWithProgress(Sections(bundle), connections, answers);
      written, lost, kept := outcome.report.Total(), outcome.lost, [];
      ghost var back := Ended(bundle, Fates(bundle, connections, answers), Kept);
      SectionsCount(back);
      if outcome.retry.Some? {
        kept := Ended(bundle, Fates(bundle, connections, answers), Kept);
        assert Sections(kept) == outcome.retry.value;
      }
    }

    /** Start the retained bundle again once its delay has passed. */
    method ScheduleRetry(wait: nat)
      requires Valid()
      modifies this
      ensures Valid() && View() == Restarted(old(View()), wait)
    {
      hide Sound, Noted;
      RestartStaysSound(View(), wait);
      clock := clock + wait;
      if bgFlush == None && pendingRetry.Some? {
        var retry := pendingRetry.value;
        pendingRetry := None;
        if clock >= retry.nextTry {
          inflightAttempts := retry.attempts;
          inflightRows := |retry.bundle|;
          bgFlush := Some(retry.bundle);
          batches := Noted(batches, [clock], NOTHING, [], None);
        } else {
          pendingRetry := Some(retry);
        }
      }
    }

    /** Start a fresh bundle of everything pending, when nothing is in flight or retained. */
    method ScheduleFresh(flushDue: bool)
      requires Valid()
      modifies this
      ensures Valid() && View() == Started(old(View()), flushDue)
    {
      hide Sound;
      StartStaysSound(View(), flushDue);
      if bgFlush == None && pendingRetry == None && pending != [] && flushDue {
        var bundle := pending;
        pending := [];
        inflightAttempts := 0;
        inflightRows := |bundle|;
        bgFlush := Some(bundle);
        batches := batches + [Batch(bundle, [], [], [], [clock], [], None, None)];
      }
    }

    /** Take in what the shared buffers hold, scalars first. */
    method DrainShards(shards: seq<Shard>)
      modifies `pending, `accepted
      ensures View() == TakenIn(old(View()), Drained(shards))
    {
      hide Drained, AcceptedOf;
      DrainedMore([], Shard([], []));
      assert pending + [] == pending;
      for i := 0 to |shards|
        invariant pending == old(pending) + Drained(shards[..i]) && accepted == old(accepted)
      {
        assert shards[..i + 1] == shards[..i] + [shards[i]];
        DrainedMore(shards[..i], shards[i]);
        Joined4(old(pending), Drained(shards[..i]), shards[i].scalars, AcceptedOf(shards[i].others));
        if shards[i].scalars != [] {
          pending := pending + shards[i].scalars;
        }
        PushAll(shards[i].others);
      }
      assert shards[..|shards|] == shards;
      accepted := accepted + Drained(shards);
    }

    /** Push captures to the writer one by one. */
    method PushAll(updates: seq<Update>)
      modifies `pending
      ensures pending == old(pending) + AcceptedOf(updates)
    {
      hide AcceptedOf;
      AcceptedMore([], []);
      assert pending + [] == pending;
      for i := 0 to |updates|
        invariant pending == old(pending) + AcceptedOf(updates[..i])
      {
        assert updates[..i + 1] == updates[..i] + [updates[i]];
        AcceptedMore(updates[..i], updates[i]);
        Joined(old(pending), AcceptedOf(updates[..i]), updates[i]);
        pending := pending + updates[i];
      }
      assert updates[..|updates|] == updates;
    }

    /** Take in the messages of the fallback channel, up to the limit of one turn. */
    method DrainChannel()
      modifies `pending, `accepted, `channel
      ensures var n := Min(|old(channel)|, FALLBACK_LIMIT);
        View() == TakenIn(old(View()), AcceptedOf(old(channel)[..n])).(channel := old(channel)[n..])
    {
      hide AcceptedOf;
      ghost var before := channel;
      var nFallback := 0;
      AcceptedMore([], []);
      assert pending + [] == pending && before[..0] == [];
      while channel != [] && nFallback < FALLBACK_LIMIT
        invariant nFallback <= |before| && nFallback <= FALLBACK_LIMIT && channel == before[nFallback..]
        invariant pending == old(pending) + AcceptedOf(before[..nFallback]) && accepted == old(accepted)
        decreases |channel|
      {
        var update := channel[0];
        assert before[..nFallback + 1] == before[..nFallback] + [update];
        AcceptedMore(before[..nFallback], update);
        Joined(old(pending), AcceptedOf(before[..nFallback]), update);
        channel := channel[1..];
        pending := pending + update;
        nFallback := nFallback + 1;
      }
      accepted := accepted + AcceptedOf(before[..nFallback]);
    }

    /** Take rows in, unless a bundle is retained. */
    method Ingest(shards: seq<Shard>, sent: seq<Update>)
      requires Valid()
      modifies `pending, `accepted, `channel
      ensures Valid() && View() == Ingested(old(View()), shards, sent)
    {
      hide Sound, Drained, AcceptedOf;
      IngestStaysSound(View(), shards, sent);
      channel := channel + sent;
      if pendingRetry == None {
        DrainShards(shards);
      }
      if pendingRetry == None {
        DrainChannel();
      }
    }

    /** One turn of the loop. Nothing is taken in while a bundle is retained, and nothing accepted is forgotten. */
    method Turn(tick: Tick)
      requires Valid()
      modifies this
      ensures Valid() && View() == Turned(old(View()), tick)
      ensures old(accepted) <= accepted && old(db) <= db
      ensures pendingRetry.Some? ==> accepted == old(accepted)
    {
      hide Sound, Reaped, Restarted, Started, Ingested;
      TurnStaysSound(View(), tick);
      Reap(tick.done, tick.untilReap);
      ScheduleRetry(tick.untilCheck);
      ScheduleFresh(tick.flushDue);
      Ingest(tick.shards, tick.sent);
    }

    // ---- Shutdown ----

    /** Wait for the flush in flight, or abort it; what it leaves over is retained once more. */
    method FinishInFlight(end: Completion)
      requires Valid()
      modifies `bgFlush, `pendingRetry, `totalWritten, `rowsLost, `db, `surplus, `batches
      ensures Closing(View()) && View() == FinishedInFlight(old(View()), end)
    {
      hide Sound, Closing, Noted, FailedForNow, PartsOf, CountLost, Extra, Back, Weights, Tallied;
      FinishStaysSound(View(), end);
      FinishingOverwritesNothing(View());
      if bgFlush.Some? {
        FinishedState(View(), end);
        hide FinishedInFlight;
        var bundle := bgFlush.value;
        bgFlush := None;
        var written, lost, retry := JudgeInFlight(bundle, end);
        totalWritten, rowsLost, pendingRetry := totalWritten + written, rowsLost + lost, retry;
        db, surplus := db + PartsOf(bundle, true, end).sent, surplus + Extra(bundle, end);
        batches := Noted(batches, [], PartsOf(bundle, true, end), if FailedForNow(bundle, end) then [clock] else [],
                         None);
      }
    }

    /** What the flush in flight at the shutdown adds to the counters, and the bundle it leaves, whatever its attempts. */
    method JudgeInFlight(bundle: seq<Row>, end: Completion)
      returns (written: nat, lost: nat, retry: Option<PendingRetry>)
      requires inflightRows == |bundle|
      ensures written == Weights(PartsOf(bundle, true, end).sent) && lost == CountLost(bundle, true, end)
      ensures retry == if FailedForNow(bundle, end)
                       then Some(PendingRetry(Back(bundle, end), inflightAttempts + 1, clock)) else None
    {
      hide Ended, Weights, Fates;
      retry := None;
      match end {
        case Outcome(connections, answers) =>
          var kept;
          written, lost, kept := FlushOf(bundle, connections, answers);
          if kept != [] {
            retry := Some(PendingRetry(kept, inflightAttempts + 1, clock));
          }
        case JoinError(reached) =>
          NothingBack(bundle, reached);
          written := Weights(Ended(bundle, FateIn(bundle, end), Committed));
          lost := SaturatingSub(inflightRows, written);
      }
    }

    /** The end of a flush whose rows are not retained again. */
    method LastFlush(bundle: seq<Row>, end: Completion) returns (written: nat, lost: nat)
      ensures written == Weights(PartsOf(bundle, false, end).sent) && lost == CountLost(bundle, false, end)
    {
      hide Ended, Weights, Fates;
      match end {
        case Outcome(connections, answers) =>
          var lostRows, kept;
          written, lostRows, kept := FlushOf(bundle, connections, answers);
          lost := lostRows + |kept|;
        case JoinError(reached) =>
          NothingBack(bundle, reached);
          written := Weights(Ended(bundle, FateIn(bundle, end), Committed));
          lost := SaturatingSub(|bundle|, written);
      }
    }

    /** One more try for a retained bundle; it is not retained again. */
    method FinalRetry(end: Completion)
      requires Closing(View())
      modifies this
      ensures Closing(View()) && View() == FinallyRetried(old(View()), end)
    {
      hide Closing, PartsOf, CountLost, Extra, Weights, NotedFinal;
      RetryCloses(View(), end);
      if pendingRetry.Some? {
        var bundle := pendingRetry.value.bundle;
        pendingRetry := None;
        var written, lost := LastFlush(bundle, end);
        totalWritten, rowsLost := totalWritten + written, rowsLost + lost;
        db, surplus := db + PartsOf(bundle, false, end).sent, surplus + Extra(bundle, end);
        batches := NotedFinal(batches, PartsOf(bundle, false, end), clock);
      }
    }

    /** Empty the shared buffers and flush what the writer holds. */
    method FinalDrain(shards: seq<Shard>, end: Completion)
      requires Closing(View()) && pendingRetry == None
      modifies this
      ensures Closing(View()) && View() == FinallyDrained(old(View()), shards, end)
    {
      hide Closing, PartsOf, CountLost, Extra, Weights, Drained;
      DrainCloses(View(), shards, end);
      DrainShards(shards);
      if pending != [] {
        var bundle := pending;
        pending := [];
        var written, lost := LastFlush(bundle, end);
        totalWritten, rowsLost := totalWritten + written, rowsLost + lost;
        ghost var parts := PartsOf(bundle, false, end);
        db, surplus := db + parts.sent, surplus + Extra(bundle, end);
        batches := batches + [Batch(bundle, parts.sent, parts.gone, parts.missed, [], [], None, Some(clock))];
      }
    }

    /** The three phases of the shutdown, from any state of the loop. */
    method Shutdown(ending: Ending)
      requires Valid()
      modifies this
      ensures Settled(View()) && View() == ShutDown(old(View()), ending)
    {
      hide Sound, Closing, Settled, FinishedInFlight, FinallyRetried, FinallyDrained;
      ghost var before := View();
      ShutdownSettles(before, ending);
      FinishInFlight(ending.inFlight);
      RetryCloses(View(), ending.retry);
      FinalRetry(ending.retry);
      FinalDrain(ending.shards, ending.final);
    }

    /** A whole run, whatever the buffers bring, however the flushes end and whichever are cut short. */
    method Run(ticks: seq<Tick>, ending: Ending)
      requires Valid() && View() == INITIAL
      modifies this
      ensures View() == ShutDown(AllTurned(INITIAL, ticks), ending)
      ensures Settled(View()) && totalWritten + rowsLost == |accepted| + surplus
      ensures OneEachRow(accepted) ==> Conserved(View()) && totalWritten + rowsLost == |accepted|
    {
      hide Sound, ShutDown, Turned, Conserved, Weights, AllTidy, AllRows, AllCommitted, Accounted;
      for i := 0 to |ticks|
        invariant Valid() && View() == AllTurned(INITIAL, ticks[..i])
      {
        assert ticks[..i + 1][..i] == ticks[..i];
        Turn(ticks[i]);
      }
      assert ticks[..|ticks|] == ticks;
      ShutdownSettles(View(), ending);
      Shutdown(ending);
    }
  }
}
