/**
 * The heartbeat tracker: a table, indexed by process-variable id, of the last
 * sample stored and of the interval after which it is stored again.
 */
module Heartbeats {
  import opened Wrappers

  const MAX_PV_ID := 2_000_000

  /** A sample last stored, at the moment of the store or of its last repetition. */
  datatype Sample = Sample(value: real, severity: nat, status: int, storedAt: real)

  /** What the tracker knows of one id. An interval below zero stands for the default, zero for none. */
  datatype Cell = Cell(sample: Option<Sample>, heartbeat: real)

  datatype Row = Row(pvId: nat, value: real, severity: nat, status: int)

  const BLANK := Cell(None, -1.0)

  /** Ids outside the table are ignored; a negative one wraps to a number far beyond it. */
  predicate Tracked(id: int) {
    0 <= id <= MAX_PV_ID
  }

  function Max0(n: int): nat {
    if n < 0 then 0 else n
  }

  function Effective(cell: Cell, default: real): real {
    if cell.heartbeat < 0.0 then default else cell.heartbeat
  }

  /** What a scan does to one cell, and the row it emits. */
  function Beat(cell: Cell, id: nat, default: real, now: real, active: bool): (Cell, Option<Row>) {
    if Effective(cell, default) <= 0.0 then (cell, None)
    else if !active then (cell.(sample := None), None)
    else if cell.sample == None then (cell, None)
    else
      var s := cell.sample.value;
      if now - s.storedAt < Effective(cell, default) then (cell, None)
      else (cell.(sample := Some(s.(storedAt := now))), Some(Row(id, s.value, s.severity, s.status)))
  }

  // -------------------------------------------------------------------------
  // Histories
  // -------------------------------------------------------------------------

  datatype Event =
    | Interval(id: int, seconds: real)
    | Store(id: int, value: real, severity: int, status: int, at: real)
    | Scan(at: real, active: set<int>)

  /** No scan does anything while the default is off and no interval was ever set above zero. */
  predicate Disabled(default: real, history: seq<Event>) {
    default <= 0.0
    && forall e | e in history && e.Interval? && Tracked(e.id) :: e.seconds <= 0.0
  }

  /** The cell of one id after a history. */
  function CellAfter(default: real, history: seq<Event>, id: nat): Cell
    decreases |history|
  {
    if history == [] then BLANK
    else
      var earlier := history[..|history| - 1];
      var cell := CellAfter(default, earlier, id);
      match history[|history| - 1]
      case Interval(which, seconds) => if which == id then cell.(heartbeat := seconds) else cell
      case Store(which, value, severity, status, at) =>
        if which == id then cell.(sample := Some(Sample(value, Max0(severity), status, at))) else cell
      case Scan(at, active) =>
        if Disabled(default, earlier) then cell else Beat(cell, id, default, at, id in active).0
  }

  /** The row the last event of a history puts out for one id when that event is a scan. */
  function RowAfter(default: real, history: seq<Event>, id: nat): Option<Row> {
    if history == [] || !history[|history| - 1].Scan? then None
    else
      var earlier, scan := history[..|history| - 1], history[|history| - 1];
      if Disabled(default, earlier) then None
      else Beat(CellAfter(default, earlier, id), id, default, scan.at, id in scan.active).1
  }

  /** The interval last set for an id, or -1. */
  function Setting(history: seq<Event>, id: nat): real
    decreases |history|
  {
    if history == [] then -1.0
    else
      var last := history[|history| - 1];
      if last.Interval? && last.id == id then last.seconds else Setting(history[..|history| - 1], id)
  }

  function IntervalOf(default: real, history: seq<Event>, id: nat): real {
    if Setting(history, id) < 0.0 then default else Setting(history, id)
  }

  /** The scan at position `k` ran to its end and found the id unsubscribed while it had an interval. */
  ghost predicate Forgets(default: real, history: seq<Event>, k: nat, id: nat)
    requires k < |history|
  {
    && history[k].Scan? && !Disabled(default, history[..k])
    && IntervalOf(default, history[..k], id) > 0.0 && id !in history[k].active
  }

  /** The latest store of the id is at `k`, and no scan has made the tracker forget it since. */
  ghost predicate Remembers(default: real, history: seq<Event>, k: nat, id: nat) {
    && k < |history| && history[k].Store? && history[k].id == id
    && (forall j | k < j < |history| :: !(history[j].Store? && history[j].id == id))
    && (forall j | k < j < |history| :: !Forgets(default, history, j, id))
  }

  ghost predicate SampleOf(e: Event, s: Sample) {
    && e.Store? && s.value == e.value && s.status == e.status
    && (e.severity >= 0 ==> s.severity == e.severity) && (e.severity < 0 ==> s.severity == 0)
  }

  lemma {:induction false} SettingIsCells(default: real, history: seq<Event>, id: nat)
    ensures CellAfter(default, history, id).heartbeat == Setting(history, id)
    ensures Effective(CellAfter(default, history, id), default) == IntervalOf(default, history, id)
    decreases |history|
  {
    if history != [] {
      SettingIsCells(default, history[..|history| - 1], id);
    }
  }

  lemma RemembersLonger(default: real, earlier: seq<Event>, last: Event, k: nat, id: nat)
    requires k < |earlier|
    ensures Remembers(default, earlier + [last], k, id)
      <==> Remembers(default, earlier, k, id) && !(last.Store? && last.id == id)
           && !Forgets(default, earlier + [last], |earlier|, id)
  {
    var history := earlier + [last];
    forall j | k < j < |earlier|
      ensures history[j] == earlier[j] && (Forgets(default, history, j, id) <==> Forgets(default, earlier, j, id))
    {
      assert history[..j] == earlier[..j];
    }
    assert history[|earlier|] == last && history[k] == earlier[k];
    assert (forall j | k < j < |history| :: !Forgets(default, history, j, id))
      <==> (forall j | k < j < |earlier| :: !Forgets(default, earlier, j, id))
           && !Forgets(default, history, |earlier|, id);
    assert (forall j | k < j < |history| :: !(history[j].Store? && history[j].id == id))
      <==> (forall j | k < j < |earlier| :: !(earlier[j].Store? && earlier[j].id == id))
           && !(last.Store? && last.id == id);
  }

  /**
   * The tracker holds a sample exactly when some store was not forgotten since, and
   * then it is the value, the status and the severity (not below zero) of that store.
   */
  lemma {:induction false} SampleIsLatestStore(default: real, history: seq<Event>, id: nat)
    ensures var sample := CellAfter(default, history, id).sample;
      && (sample.Some? <==> exists k: nat :: Remembers(default, history, k, id))
      && (forall k: nat | Remembers(default, history, k, id) :: SampleOf(history[k], sample.value))
    decreases |history|
  {
    if history != [] {
      var earlier, last := history[..|history| - 1], history[|history| - 1];
      assert history == earlier + [last];
      SampleIsLatestStore(default, earlier, id);
      SettingIsCells(default, earlier, id);
      forall k: nat | k < |earlier|
        ensures Remembers(default, history, k, id)
          <==> Remembers(default, earlier, k, id) && !(last.Store? && last.id == id)
               && !Forgets(default, history, |earlier|, id)
      {
        RemembersLonger(default, earlier, last, k, id);
      }
      assert history[..|earlier|] == earlier;
      assert Remembers(default, history, |earlier|, id) <==> last.Store? && last.id == id;
      if CellAfter(default, history, id).sample.Some? {
        if last.Store? && last.id == id {
          assert Remembers(default, history, |earlier|, id);
        } else {
          var k: nat :| Remembers(default, earlier, k, id);
          assert Remembers(default, history, k, id);
        }
      }
    }
  }

  /**
   * Unsubscribing alone does not make the tracker forget: a scan that finds the id gone
   * while it has no interval leaves the old value to be repeated later.
   */
  lemma OldValueComesBack()
    ensures var seen := [Store(1, 7.0, 0, 0, 0.0), Scan(1.0, {}), Interval(1, 5.0)];
      RowAfter(0.0, seen + [Scan(10.0, {1})], 1) == Some(Row(1, 7.0, 0, 0))
  {
    var store, scan, setting := Store(1, 7.0, 0, 0, 0.0), Scan(1.0, {}), Interval(1, 5.0);
    var seen := [store, scan, setting];
    assert CellAfter(0.0, [store], 1) == Cell(Some(Sample(7.0, 0, 0, 0.0)), -1.0) by {
      assert [store][..0] == [];
    }
    assert [store, scan][..1] == [store] && seen[..2] == [store, scan];
    assert CellAfter(0.0, [store, scan], 1) == CellAfter(0.0, [store], 1);
    assert CellAfter(0.0, seen, 1) == Cell(Some(Sample(7.0, 0, 0, 0.0)), 5.0);
    assert setting in seen && !Disabled(0.0, seen);
    assert (seen + [Scan(10.0, {1})])[..3] == seen;
  }

  // -------------------------------------------------------------------------
  // When a heartbeat is emitted
  // -------------------------------------------------------------------------

  /** When the latest row of an id was written, by a store or by a heartbeat. */
  function LastRow(default: real, history: seq<Event>, id: nat): Option<real>
    decreases |history|
  {
    if history == [] then None
    else
      var last := history[|history| - 1];
      if last.Store? && last.id == id then Some(last.at)
      else if RowAfter(default, history, id).Some? then Some(last.at)
      else LastRow(default, history[..|history| - 1], id)
  }

  lemma {:induction false} StoredAtIsLastRow(default: real, history: seq<Event>, id: nat)
    ensures CellAfter(default, history, id).sample.Some? ==>
      LastRow(default, history, id) == Some(CellAfter(default, history, id).sample.value.storedAt)
    decreases |history|
  {
    if history != [] {
      StoredAtIsLastRow(default, history[..|history| - 1], id);
    }
  }

  /** An id with an interval of its own, or a default, keeps the scans going. */
  lemma {:induction false} IntervalEnables(default: real, history: seq<Event>, id: nat)
    requires Tracked(id) && IntervalOf(default, history, id) > 0.0
    ensures !Disabled(default, history)
    decreases |history|
  {
    if default <= 0.0 {
      var last, earlier := history[|history| - 1], history[..|history| - 1];
      if last.Interval? && last.id == id {
        assert last in history;
      } else {
        IntervalEnables(default, earlier, id);
        assert forall e | e in earlier :: e in history;
      }
    }
  }

  /**
   * A scan emits a heartbeat exactly when the id is active and has an interval, a store
   * of it is remembered, and the interval has passed since its latest row; the row
   * repeats that store.
   */
  lemma HeartbeatExactly(default: real, earlier: seq<Event>, at: real, active: set<int>, id: nat)
    requires id <= 2_000_000
    ensures var history := earlier + [Scan(at, active)];
      && (RowAfter(default, history, id).Some? <==>
            && id in active && IntervalOf(default, earlier, id) > 0.0
            && (exists k: nat :: Remembers(default, earlier, k, id))
            && LastRow(default, earlier, id).Some?
            && at - LastRow(default, earlier, id).value >= IntervalOf(default, earlier, id))
      && (forall k: nat | Remembers(default, earlier, k, id) && RowAfter(default, history, id).Some? ::
            RowAfter(default, history, id).value
              == Row(id, earlier[k].value, if earlier[k].severity >= 0 then earlier[k].severity else 0,
                     earlier[k].status))
  {
    var history := earlier + [Scan(at, active)];
    assert history[..|history| - 1] == earlier;
    SettingIsCells(default, earlier, id);
    SampleIsLatestStore(default, earlier, id);
    StoredAtIsLastRow(default, earlier, id);
    if IntervalOf(default, earlier, id) > 0.0 {
      IntervalEnables(default, earlier, id);
    }
    hide CellAfter, IntervalOf, Disabled, LastRow, Remembers;
  }

  /**
   * The interval of an id is the seconds last set for it, or the default when these are below
   * zero or none were ever set.
   */
  lemma {:induction false} IntervalIsLatestSetting(default: real, history: seq<Event>, id: nat, k: nat)
    ensures
      && k < |history| && history[k].Interval? && history[k].id == id
      && (forall j | k < j < |history| && history[j].Interval? :: history[j].id != id)
      ==> IntervalOf(default, history, id) == if history[k].seconds < 0.0 then default else history[k].seconds
    ensures (forall e | e in history && e.Interval? :: e.id != id) ==> IntervalOf(default, history, id) == default
    decreases |history|
  {
    if history != [] {
      var last, earlier := history[|history| - 1], history[..|history| - 1];
      IntervalIsLatestSetting(default, earlier, id, k);
      assert last in history && forall e | e in earlier :: e in history;
    }
  }

  /** The time of the last scan among the events, or the time they start from. */
  function LastLook(since: real, events: seq<Event>): real
    decreases |events|
  {
    if events == [] then since
    else if events[|events| - 1].Scan? then events[|events| - 1].at
    else LastLook(since, events[..|events| - 1])
  }

  /** Nothing happens before the last scan, nor more than `spacing` after it. */
  ghost predicate Paced(since: real, events: seq<Event>, spacing: real) {
    forall k | 0 <= k < |events| && !events[k].Interval? ::
      LastLook(since, events[..k]) <= events[k].at <= LastLook(since, events[..k]) + spacing
  }

  /** The id stays active, with one interval throughout. */
  ghost predicate Steady(default: real, before: seq<Event>, events: seq<Event>, id: nat, interval: real) {
    && (forall k | 0 <= k <= |events| :: IntervalOf(default, before + events[..k], id) == interval)
    && (forall e | e in events && e.Scan? :: id in e.active)
  }

  /** The latest row is less than an interval older than the latest scan. */
  lemma {:induction false} NeverOverdue(default: real, before: seq<Event>, events: seq<Event>, id: nat,
                                       interval: real, spacing: real)
    requires Tracked(id) && interval > 0.0
    requires CellAfter(default, before, id).sample.Some?
    requires var since := LastRow(default, before, id);
      since.Some? && Paced(since.value, events, spacing)
    requires Steady(default, before, events, id, interval)
    ensures var since := LastRow(default, before, id).value;
      && CellAfter(default, before + events, id).sample.Some?
      && LastRow(default, before + events, id).Some?
      && LastLook(since, events) - LastRow(default, before + events, id).value < interval
    decreases |events|
  {
    var since := LastRow(default, before, id).value;
    if events == [] {
      assert before + events == before;
    } else {
      var earlier, last := events[..|events| - 1], events[|events| - 1];
      assert forall k | 0 <= k <= |earlier| :: earlier[..k] == events[..k];
      assert last in events && forall e | e in earlier :: e in events;
      NeverOverdue(default, before, earlier, id, interval, spacing);
      hide CellAfter, LastRow;
      var history := before + earlier;
      assert before + events == history + [last] && (history + [last])[..|history|] == history;
      assert events[..|earlier|] == earlier;
      assert IntervalOf(default, history, id) == interval;
      assert !last.Interval? ==> LastLook(since, earlier) <= last.at;
      RowStep(default, history, last, id);
    }
  }

  lemma RowStep(default: real, history: seq<Event>, last: Event, id: nat)
    requires Tracked(id) && IntervalOf(default, history, id) > 0.0
    requires CellAfter(default, history, id).sample.Some?
    requires last.Scan? ==> id in last.active
    ensures LastRow(default, history, id).Some? && CellAfter(default, history + [last], id).sample.Some?
    ensures var due := last.Scan? && last.at - LastRow(default, history, id).value >= IntervalOf(default, history, id);
      LastRow(default, history + [last], id)
        == if (last.Store? && last.id == id) || due then Some(last.at) else LastRow(default, history, id)
  {
    assert (history + [last])[..|history|] == history;
    SettingIsCells(default, history, id);
    StoredAtIsLastRow(default, history, id);
    IntervalEnables(default, history, id);
  }

  /**
   * For an id that stays active with one interval, scanned at most `spacing` apart: every
   * next row comes less than interval + spacing after the one before it, and a heartbeat
   * comes no sooner than the interval.
   */
  lemma GapBound(default: real, before: seq<Event>, events: seq<Event>, next: Event, id: nat,
                 interval: real, spacing: real)
    requires Tracked(id) && interval > 0.0
    requires CellAfter(default, before, id).sample.Some?
    requires var since := LastRow(default, before, id);
      since.Some? && Paced(since.value, events + [next], spacing)
    requires Steady(default, before, events + [next], id, interval)
    requires !next.Interval?
    ensures var latest := LastRow(default, before + events, id);
      && latest.Some?
      && next.at - latest.value < interval + spacing
      && (next.Scan? ==>
            (RowAfter(default, before + events + [next], id).Some? <==> next.at - latest.value >= interval))
  {
    var all := events + [next];
    var since := LastRow(default, before, id).value;
    assert forall k | 0 <= k <= |events| :: all[..k] == events[..k];
    assert all[|events|] == next && all[..|events|] == events;
    assert forall e | e in events :: e in all;
    NeverOverdue(default, before, events, id, interval, spacing);
    var history := before + events;
    assert IntervalOf(default, history, id) == interval;
    if next.Scan? {
      assert next in all;
      SampleIsLatestStore(default, history, id);
      HeartbeatExactly(default, history, next.at, next.active, id);
    }
  }

  // -------------------------------------------------------------------------
  // The table
  // -------------------------------------------------------------------------

  /** A slot of the table; a severity of -1 means no sample. */
  datatype Entry = Entry(lastValue: real, lastSeverity: int, lastStatus: int, heartbeat: real, lastStoreAt: real)

  function Inactive(now: real): Entry {
    Entry(0.0, -1, 0, -1.0, now)
  }

  function CellOf(e: Entry): Cell {
    Cell(if e.lastSeverity < 0 then None
         else Some(Sample(e.lastValue, e.lastSeverity, e.lastStatus, e.lastStoreAt)), e.heartbeat)
  }

  /** The growing vector read as a total map: ids beyond its end are blank. */
  function Lookup(entries: seq<Entry>, id: nat): Cell {
    if id < |entries| then CellOf(entries[id]) else BLANK
  }

  function Resized(entries: seq<Entry>, length: nat, now: real): seq<Entry> {
    if length <= |entries| then entries else entries + seq(length - |entries|, _ => Inactive(now))
  }

  lemma ResizedSame(entries: seq<Entry>, length: nat, now: real)
    ensures |Resized(entries, length, now)| == if length <= |entries| then |entries| else length
    ensures forall id: nat :: Lookup(Resized(entries, length, now), id) == Lookup(entries, id)
  {
    if length > |entries| {
      var longer := Resized(entries, length, now);
      forall id: nat
        ensures Lookup(longer, id) == Lookup(entries, id)
      {
        if |entries| <= id < length {
          assert longer[id] == Inactive(now);
        }
      }
    }
  }

  /** The settings of a configuration as events. */
  function Settings(config: seq<(int, real)>): seq<Event> {
    seq(|config|, i requires 0 <= i < |config| => Interval(config[i].0, config[i].1))
  }

  /** The rows a scan emits for the ids below `n`, in order. */
  function RowsBelow(default: real, history: seq<Event>, n: nat): seq<Row> {
    if n == 0 then []
    else
      var row := RowAfter(default, history, n - 1);
      RowsBelow(default, history, n - 1) + (if row.Some? then [row.value] else [])
  }

  lemma RowOfId(default: real, history: seq<Event>, id: nat)
    ensures RowAfter(default, history, id).Some? ==> RowAfter(default, history, id).value.pvId == id
  {
  }

  ghost predicate RowsOf(default: real, history: seq<Event>, n: nat, rows: seq<Row>) {
    && (forall row | row in rows :: row.pvId < n && RowAfter(default, history, row.pvId) == Some(row))
    && (forall id: nat | id < n && RowAfter(default, history, id).Some? :: RowAfter(default, history, id).value in rows)
    && (forall i, j | 0 <= i < j < |rows| :: rows[i].pvId < rows[j].pvId)
  }

  /** Each id has at most one row, its own, and the rows come in the order of the ids. */
  lemma {:induction false} RowsBelowAreRows(default: real, history: seq<Event>, n: nat)
    ensures RowsOf(default, history, n, RowsBelow(default, history, n))
  {
    hide RowAfter;
    if n > 0 {
      RowsBelowAreRows(default, history, n - 1);
      hide RowsOf;
      RowOfId(default, history, n - 1);
      OneMoreRow(default, history, n - 1, RowsBelow(default, history, n - 1));
    }
  }

  lemma OneMoreRow(default: real, history: seq<Event>, n: nat, rows: seq<Row>)
    requires RowsOf(default, history, n, rows)
    requires RowAfter(default, history, n).Some? ==> RowAfter(default, history, n).value.pvId == n
    ensures var row := RowAfter(default, history, n);
      RowsOf(default, history, n + 1, rows + if row.Some? then [row.value] else [])
  {
    hide RowAfter;
    var row := RowAfter(default, history, n);
    if row.Some? {
      var more := rows + [row.value];
      assert forall r :: r in more <==> r in rows || r == row.value;
      assert forall i | 0 <= i < |rows| :: rows[i] in rows;
    } else {
      assert rows + [] == rows;
    }
  }

  class HeartbeatTracker {
    var entries: seq<Entry>
    const defaultHeartbeat: real
    var hasExplicitOverride: bool
    /** Everything that has happened to the tracker. */
    ghost var history: seq<Event>

    /** The table says of every id what the history does. */
    ghost predicate Valid()
      reads this
    {
      && |entries| <= MAX_PV_ID + 1
      && (forall id: nat | Tracked(id) :: Lookup(entries, id) == CellAfter(defaultHeartbeat, history, id))
      && (IsDisabled() <==> Disabled(defaultHeartbeat, history))
    }

    constructor (defaultHeartbeat: real)
      ensures Valid() && this.defaultHeartbeat == defaultHeartbeat && history == []
    {
      entries := [];
      this.defaultHeartbeat := defaultHeartbeat;
      hasExplicitOverride := false;
      history := [];
    }

    predicate IsDisabled()
      reads this
    {
      defaultHeartbeat <= 0.0 && !hasExplicitOverride
    }

    method SetPvHeartbeat(pvId: int, seconds: real, clock: real)
      requires Valid()
      modifies this
      ensures Valid() && history == old(history) + [Interval(pvId, seconds)]
    {
      ghost var earlier := history;
      history := history + [Interval(pvId, seconds)];
      IntervalStep(defaultHeartbeat, earlier, pvId, seconds);
      if !Tracked(pvId) {
        return;
      }
      ResizedSame(entries, pvId + 1, clock);
      entries := Resized(entries, pvId + 1, clock);
      entries := entries[pvId := entries[pvId].(heartbeat := seconds)];
      if seconds > 0.0 {
        hasExplicitOverride := true;
      }
    }

    method RecordStore(pvId: int, value: real, severity: int, status: int, now: real, clock: real)
      requires Valid()
      modifies this
      ensures Valid() && history == old(history) + [Store(pvId, value, severity, status, now)]
    {
      ghost var earlier := history;
      history := history + [Store(pvId, value, severity, status, now)];
      StoreStep(defaultHeartbeat, earlier, pvId, value, severity, status, now);
      if !Tracked(pvId) {
        return;
      }
      ResizedSame(entries, pvId + 1, clock);
      entries := Resized(entries, pvId + 1, clock);
      entries := entries[pvId := entries[pvId].(
        lastValue := value, lastSeverity := Max0(severity), lastStatus := status, lastStoreAt := now)];
    }

    /** Take over a configuration seen for the first time. */
    method Reload(config: seq<(int, real)>, clock: real)
      requires Valid()
      modifies this
      ensures Valid() && history == old(history) + Settings(config)
    {
      assert history + Settings([]) == history;
      for i := 0 to |config|
        invariant Valid() && history == old(history) + Settings(config[..i])
      {
        assert Settings(config[..i + 1]) == Settings(config[..i]) + [Interval(config[i].0, config[i].1)];
        SetPvHeartbeat(config[i].0, config[i].1, clock);
      }
      assert config[..|config|] == config;
    }

    /**
     * One scan: take over a new configuration if there is one, then walk the table.
     * The rows are those the history calls for, of every id, in the order of the ids.
     */
    method EmitHeartbeats(config: Option<seq<(int, real)>>, now: real, active: set<int>) returns (rows: seq<Row>)
      requires Valid()
      modifies this
      ensures Valid()
      ensures history == old(history) + (if config.Some? then Settings(config.value) else []) + [Scan(now, active)]
      ensures rows == RowsBelow(defaultHeartbeat, history, MAX_PV_ID + 1)
      ensures RowsOf(defaultHeartbeat, history, 2_000_001, rows)
    {
      ghost var after := history + (if config.Some? then Settings(config.value) else []) + [Scan(now, active)];
      RowsBelowAreRows(defaultHeartbeat, after, MAX_PV_ID + 1);
      hide RowsOf;
      if config.Some? {
        Reload(config.value, now);
      } else {
        assert history + [] == history;
      }
      ghost var earlier := history;
      ScanStep(defaultHeartbeat, earlier, now, active);
      if IsDisabled() {
        history := history + [Scan(now, active)];
        NoRows(defaultHeartbeat, history, MAX_PV_ID + 1);
        return [];
      }
      rows := Walk(now, active);
    }

    /** What the walk does at one slot. */
    method Visit(id: nat, entry: Entry, now: real, active: set<int>) returns (next: Entry, row: Option<Row>)
      ensures (CellOf(next), row) == Beat(CellOf(entry), id, defaultHeartbeat, now, id in active)
    {
      next, row := entry, None;
      var seconds := if entry.heartbeat < 0.0 then defaultHeartbeat else entry.heartbeat;
      if seconds <= 0.0 {
        return;
      }
      if id !in active {
        next := entry.(lastSeverity := -1);
        return;
      }
      if entry.lastSeverity < 0 {
        return;
      }
      if now - entry.lastStoreAt < seconds {
        return;
      }
      row := Some(Row(id, entry.lastValue, entry.lastSeverity, entry.lastStatus));
      next := entry.(lastStoreAt := now);
    }

    /** The loop of a scan over the table. */
    method Walk(now: real, active: set<int>) returns (rows: seq<Row>)
      requires Valid() && !IsDisabled()
      modifies this
      ensures Valid() && history == old(history) + [Scan(now, active)]
      ensures rows == RowsBelow(defaultHeartbeat, history, MAX_PV_ID + 1)
    {
      ghost var earlier, before := history, entries;
      history := history + [Scan(now, active)];
      ScanStep(defaultHeartbeat, earlier, now, active);
      hide CellAfter, RowAfter, Disabled, Beat, CellOf;
      rows := [];
      for i := 0 to |entries|
        invariant |entries| == |before| && hasExplicitOverride == old(hasExplicitOverride)
        invariant history == earlier + [Scan(now, active)]
        invariant forall k | i <= k < |entries| :: entries[k] == before[k]
        invariant forall k | 0 <= k < i :: CellOf(entries[k]) == CellAfter(defaultHeartbeat, history, k)
        invariant rows == RowsBelow(defaultHeartbeat, history, i)
      {
        assert CellOf(entries[i]) == Lookup(before, i) == CellAfter(defaultHeartbeat, earlier, i);
        var entry, row := Visit(i, entries[i], now, active);
        entries := entries[i := entry];
        if row.Some? {
          rows := rows + [row.value];
        } else {
          assert rows + [] == rows;
        }
      }
      BlankStays(defaultHeartbeat, history, earlier, now, active, |entries|);
    }
  }

  /** Beyond the end of the table nothing is remembered, so a scan finds nothing there. */
  lemma BlankStays(default: real, history: seq<Event>, earlier: seq<Event>, now: real, active: set<int>, n: nat)
    requires history == earlier + [Scan(now, active)] && n <= MAX_PV_ID + 1
    requires forall id: nat | n <= id <= MAX_PV_ID :: CellAfter(default, earlier, id) == BLANK
    ensures forall id: nat | n <= id <= MAX_PV_ID :: CellAfter(default, history, id) == BLANK
    ensures RowsBelow(default, history, MAX_PV_ID + 1) == RowsBelow(default, history, n)
  {
    ScanStep(default, earlier, now, active);
    hide CellAfter, RowAfter, Disabled;
    BlankRows(default, history, n, MAX_PV_ID + 1);
  }

  lemma {:induction false} BlankRows(default: real, history: seq<Event>, low: nat, high: nat)
    requires low <= high
    requires forall id: nat | low <= id < high :: RowAfter(default, history, id) == None
    ensures RowsBelow(default, history, high) == RowsBelow(default, history, low)
    decreases high
  {
    if low < high {
      BlankRows(default, history, low, high - 1);
    }
  }

  lemma ScanStep(default: real, earlier: seq<Event>, at: real, active: set<int>)
    ensures var history := earlier + [Scan(at, active)];
      && (forall id: nat :: CellAfter(default, history, id)
            == if Disabled(default, earlier) then CellAfter(default, earlier, id)
               else Beat(CellAfter(default, earlier, id), id, default, at, id in active).0)
      && (forall id: nat :: RowAfter(default, history, id)
            == if Disabled(default, earlier) then None
               else Beat(CellAfter(default, earlier, id), id, default, at, id in active).1)
      && (Disabled(default, history) <==> Disabled(default, earlier))
  {
    var history := earlier + [Scan(at, active)];
    assert history[..|history| - 1] == earlier;
    assert forall e :: e in history <==> e in earlier || e == Scan(at, active);
  }

  /** A scan that does nothing emits nothing. */
  lemma {:induction false} NoRows(default: real, history: seq<Event>, n: nat)
    requires forall id: nat :: RowAfter(default, history, id) == None
    ensures RowsBelow(default, history, n) == []
  {
    if n > 0 {
      NoRows(default, history, n - 1);
    }
  }

  lemma IntervalStep(default: real, earlier: seq<Event>, pvId: int, seconds: real)
    ensures var history := earlier + [Interval(pvId, seconds)];
      && (forall id: nat :: CellAfter(default, history, id)
            == if id == pvId then CellAfter(default, earlier, id).(heartbeat := seconds)
               else CellAfter(default, earlier, id))
      && (Disabled(default, history) <==> Disabled(default, earlier) && (Tracked(pvId) ==> seconds <= 0.0))
  {
    var history := earlier + [Interval(pvId, seconds)];
    assert history[..|history| - 1] == earlier;
    assert forall e :: e in history <==> e in earlier || e == Interval(pvId, seconds);
  }

  lemma StoreStep(default: real, earlier: seq<Event>, pvId: int, value: real, severity: int, status: int, at: real)
    ensures var history := earlier + [Store(pvId, value, severity, status, at)];
      && (forall id: nat :: CellAfter(default, history, id)
            == if id == pvId
               then CellAfter(default, earlier, id).(sample := Some(Sample(value, Max0(severity), status, at)))
               else CellAfter(default, earlier, id))
      && (Disabled(default, history) <==> Disabled(default, earlier))
  {
    var history := earlier + [Store(pvId, value, severity, status, at)];
    assert history[..|history| - 1] == earlier;
    assert forall e :: e in history <==> e in earlier || e == Store(pvId, value, severity, status, at);
  }
}
