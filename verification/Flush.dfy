/**
 * Flushing a bundle of rows: each section is sent in one COPY or in one COPY for
 * each chunk, and its rows are committed, kept for a retry, or lost.
 */
module Flushing {
  import opened Wrappers

  datatype SendResult = Sent | Transient | Permanent

  // -------------------------------------------------------------------------
  // One section
  // -------------------------------------------------------------------------

  /** The number of rows of a chunk; all of them when the section goes out in one piece. */
  function ChunkSize(count: nat, threshold: Option<nat>, connections: nat): (size: nat)
    ensures count > 0 ==> size > 0
  {
    assert count > 0 && connections > 1 ==> Pieces(count, connections) > 0 by {
      if count > 0 && connections > 1 {
        ChunksFitConnections(count, connections);
      }
    }
    if threshold.Some? && count >= threshold.value && connections > 1
    then Pieces(count, connections)
    else count
  }

  /** The number of pieces of a given size it takes to cover a count. */
  function Pieces(count: nat, size: nat): nat
    requires size > 0
  {
    (count + size - 1) / size
  }

  /** The chunk a position falls into. */
  function ChunkOf(p: nat, size: nat): nat
    requires size > 0
  {
    p / size
  }

  lemma Longer(a: nat, b: nat, size: nat)
    requires a <= b
    ensures a * size <= b * size
  {
  }

  lemma OneLonger(a: nat, size: nat)
    ensures (a + 1) * size == a * size + size
  {
  }

  lemma PiecesCover(count: nat, size: nat)
    requires size > 0
    ensures count <= Pieces(count, size) * size < count + size
  {
    var n := count + size - 1;
    assert n / size * size + n % size == n;
  }

  lemma ChunkHolds(p: nat, size: nat)
    requires size > 0
    ensures ChunkOf(p, size) * size <= p < ChunkOf(p, size) * size + size
  {
    assert p / size * size + p % size == p;
  }

  /** The rows, in order, whose chunk met a given result. */
  function Meeting<T>(rows: seq<T>, size: nat, send: nat -> SendResult, result: SendResult): (met: seq<T>)
    requires size > 0
    decreases |rows|
  {
    if rows == [] then []
    else
      var p := |rows| - 1;
      Meeting(rows[..p], size, send, result) + if send(ChunkOf(p, size)) == result then [rows[p]] else []
  }

  /** A section split in three by the fate of its rows. */
  ghost predicate SplitInto<T>(rows: seq<T>, sent: seq<T>, kept: seq<T>, lost: seq<T>) {
    && multiset(sent) + multiset(kept) + multiset(lost) == multiset(rows)
    && |sent| + |kept| + |lost| == |rows|
  }

  lemma NothingSplits<T>()
    ensures SplitInto<T>([], [], [], [])
  {
  }

  /** Every row is committed, kept or lost, and none is two of these. */
  lemma {:induction false} FatesPartition<T>(rows: seq<T>, size: nat, send: nat -> SendResult)
    requires size > 0
    ensures SplitInto(rows, Meeting(rows, size, send, Sent), Meeting(rows, size, send, Transient),
                      Meeting(rows, size, send, Permanent))
    decreases |rows|
  {
    hide Meeting, ChunkOf, SplitInto;
    if rows == [] {
      NothingMet(rows, size, send);
      NothingSplits<T>();
      assert rows[..0] == rows;
    } else {
      var p := |rows| - 1;
      FatesPartition(rows[..p], size, send);
      MeetingLast(rows, size, send, Sent);
      MeetingLast(rows, size, send, Transient);
      MeetingLast(rows, size, send, Permanent);
      assert rows == rows[..p] + [rows[p]];
      OneFate(Meeting(rows[..p], size, send, Sent), Meeting(rows[..p], size, send, Transient),
              Meeting(rows[..p], size, send, Permanent), rows[..p], rows[p]);
    }
  }

  lemma OneFate<T>(sent: seq<T>, kept: seq<T>, lost: seq<T>, rows: seq<T>, row: T)
    requires SplitInto(rows, sent, kept, lost)
    ensures SplitInto(rows + [row], sent + [row], kept, lost)
    ensures SplitInto(rows + [row], sent, kept + [row], lost)
    ensures SplitInto(rows + [row], sent, kept, lost + [row])
  {
  }

  lemma MeetingLast<T>(rows: seq<T>, size: nat, send: nat -> SendResult, result: SendResult)
    requires size > 0 && rows != []
    ensures var p := |rows| - 1;
      Meeting(rows, size, send, result)
        == if send(ChunkOf(p, size)) == result then Meeting(rows[..p], size, send, result) + [rows[p]]
           else Meeting(rows[..p], size, send, result)
  {
  }

  lemma InChunk(p: nat, i: nat, size: nat)
    requires size > 0 && i * size <= p < i * size + size
    ensures ChunkOf(p, size) == i
  {
    ChunkHolds(p, size);
    var q := ChunkOf(p, size);
    hide ChunkOf;
    OneLonger(q, size);
    OneLonger(i, size);
    if q < i {
      Longer(q + 1, i, size);
    } else if q > i {
      Longer(i + 1, q, size);
    }
  }

  /** A chunk meets one result as a whole. */
  lemma {:induction false} MeetingChunk<T>(rows: seq<T>, low: nat, high: nat, i: nat, size: nat,
                                          send: nat -> SendResult, result: SendResult)
    requires size > 0 && low == i * size && low <= high <= low + size && high <= |rows|
    ensures Meeting(rows[..high], size, send, result)
      == Meeting(rows[..low], size, send, result) + if send(i) == result then rows[low..high] else []
    decreases high
  {
    hide ChunkOf;
    if low == high {
      assert rows[low..high] == [];
    } else {
      MeetingChunk(rows, low, high - 1, i, size, send, result);
      InChunk(high - 1, i, size);
      assert rows[..high][..high - 1] == rows[..high - 1];
      assert rows[low..high] == rows[low..high - 1] + [rows[high - 1]];
    }
  }

  /** Chunks of the rounded-up share are at most as many as the connections. */
  lemma ChunksFitConnections(count: nat, connections: nat)
    requires count > 0 && connections > 0
    ensures Pieces(count, connections) > 0
    ensures Pieces(count, Pieces(count, connections)) <= connections
  {
    PiecesCover(count, connections);
    var size := Pieces(count, connections);
    PiecesCover(count, size);
    var chunks := Pieces(count, size);
    hide Pieces;
    assert size * connections == connections * size;
    OneLonger(connections, size);
    if chunks > connections {
      Longer(connections + 1, chunks, size);
    }
  }

  /** How many of the first `n` chunks failed. */
  function Failures(n: nat, send: nat -> SendResult): nat {
    if n == 0 then 0 else Failures(n - 1, send) + if send(n - 1) == Sent then 0 else 1
  }

  /** The rows of a section whose COPY, of all of them or of their chunk, met a given result. */
  function Fated<T>(rows: seq<T>, threshold: Option<nat>, connections: nat, send: nat -> SendResult,
                    result: SendResult): seq<T>
  {
    if rows == [] then [] else Meeting(rows, ChunkSize(|rows|, threshold, connections), send, result)
  }

  lemma FatedSplit<T>(rows: seq<T>, threshold: Option<nat>, connections: nat, send: nat -> SendResult)
    ensures SplitInto(rows, Fated(rows, threshold, connections, send, Sent),
                      Fated(rows, threshold, connections, send, Transient),
                      Fated(rows, threshold, connections, send, Permanent))
  {
    if rows != [] {
      FatesPartition(rows, ChunkSize(|rows|, threshold, connections), send);
    }
  }

  /** What flushing a section comes to. */
  datatype SectionOutcome<T> = SectionOutcome(written: nat, keep: seq<T>, lost: nat, errors: nat, progress: nat)

  /**
   * Flush one section; `send` is what the database answers to each chunk. The rows
   * kept are those of the chunks that failed for now, in their order.
   */
  method FlushSection<T>(rows: seq<T>, threshold: Option<nat>, connections: nat, send: nat -> SendResult)
    returns (o: SectionOutcome<T>)
    ensures o.written == |Fated(rows, threshold, connections, send, Sent)|
    ensures o.keep == Fated(rows, threshold, connections, send, Transient)
    ensures o.lost == |Fated(rows, threshold, connections, send, Permanent)|
    ensures o.errors == if rows == [] then 0
                        else Failures(Pieces(|rows|, ChunkSize(|rows|, threshold, connections)), send)
    ensures o.progress == o.written && o.written + |o.keep| + o.lost == |rows|
    ensures o.errors == 0 <==> o.keep == [] && o.lost == 0
  {
    var count := |rows|;
    if count == 0 {
      return SectionOutcome(0, [], 0, 0, 0);
    }
    hide Pieces, ChunkOf, Meeting;
    FatesPartition(rows, ChunkSize(count, threshold, connections), send);
    NoFailureNoneLeft(rows, ChunkSize(count, threshold, connections), send);
    if threshold.Some? && count >= threshold.value && connections > 1 {
      var size := Pieces(count, connections);
      o := FlushChunks(rows, size, send);
    } else {
      WholeMeets(rows, send);
      match send(0)
      case Sent => o := SectionOutcome(count, [], 0, 0, count);
      case Transient => o := SectionOutcome(0, rows, 0, 1, 0);
      case Permanent => o := SectionOutcome(0, [], count, 1, 0);
    }
  }

  lemma {:induction false} NoFailures(n: nat, send: nat -> SendResult)
    ensures Failures(n, send) == 0 <==> forall i: nat | i < n :: send(i) == Sent
  {
    if n > 0 {
      NoFailures(n - 1, send);
    }
  }

  lemma {:induction false} AllMeeting<T>(rows: seq<T>, size: nat, send: nat -> SendResult)
    requires size > 0
    ensures |Meeting(rows, size, send, Sent)| == |rows| <==> forall p: nat | p < |rows| :: send(ChunkOf(p, size)) == Sent
    ensures |Meeting(rows, size, send, Sent)| <= |rows|
    decreases |rows|
  {
    hide ChunkOf;
    if rows != [] {
      AllMeeting(rows[..|rows| - 1], size, send);
    }
  }

  /** Every chunk has a row. */
  lemma ChunksByRows(count: nat, size: nat, send: nat -> SendResult)
    requires size > 0
    ensures (forall i: nat | i < Pieces(count, size) :: send(i) == Sent)
      <==> forall p: nat | p < count :: send(ChunkOf(p, size)) == Sent
  {
    hide Pieces, ChunkOf;
    forall p: nat | p < count
      ensures ChunkOf(p, size) < Pieces(count, size)
    {
      InSomeChunk(p, count, size);
    }
    if (forall p: nat | p < count :: send(ChunkOf(p, size)) == Sent) {
      forall i: nat | i < Pieces(count, size)
        ensures send(i) == Sent
      {
        ChunkBegins(i, count, size);
        InChunk(i * size, i, size);
      }
    }
  }

  /** No chunk fails exactly when no row is kept or lost. */
  lemma NoFailureNoneLeft<T>(rows: seq<T>, size: nat, send: nat -> SendResult)
    requires rows != [] && size > 0
    ensures Failures(Pieces(|rows|, size), send) == 0
      <==> Meeting(rows, size, send, Transient) == [] && Meeting(rows, size, send, Permanent) == []
  {
    hide Meeting, Failures, Pieces, ChunkOf;
    NoFailures(Pieces(|rows|, size), send);
    ChunksByRows(|rows|, size, send);
    AllMeeting(rows, size, send);
    FatesPartition(rows, size, send);
  }

  /** A section sent in one piece meets one result as a whole. */
  lemma WholeMeets<T>(rows: seq<T>, send: nat -> SendResult)
    requires rows != []
    ensures forall result :: Meeting(rows, |rows|, send, result) == if send(0) == result then rows else []
    ensures Pieces(|rows|, |rows|) == 1 && Failures(1, send) == if send(0) == Sent then 0 else 1
  {
    OnePiece(|rows|);
    assert rows[..|rows|] == rows == rows[0..|rows|];
    NothingMet(rows, |rows|, send);
    forall result
      ensures Meeting(rows, |rows|, send, result) == if send(0) == result then rows else []
    {
      MeetingChunk(rows, 0, |rows|, 0, |rows|, send, result);
    }
    assert Failures(0, send) == 0;
  }

  /** The parallel form: the results of the chunks one by one, then the rows to keep by position. */
  method FlushChunks<T>(rows: seq<T>, size: nat, send: nat -> SendResult) returns (o: SectionOutcome<T>)
    requires rows != [] && size > 0
    ensures o.written == |Meeting(rows, size, send, Sent)|
    ensures o.keep == Meeting(rows, size, send, Transient)
    ensures o.lost == |Meeting(rows, size, send, Permanent)|
    ensures o.errors == Failures(Pieces(|rows|, size), send)
    ensures o.progress == o.written
  {
    var written, lost, errors, progress, retryChunk := SendChunks(rows, size, send);
    var keep := KeepRows(rows, size, send, retryChunk);
    o := SectionOutcome(written, keep, lost, errors, progress);
  }

  method SendChunks<T>(rows: seq<T>, size: nat, send: nat -> SendResult)
    returns (written: nat, lost: nat, errors: nat, progress: nat, retryChunk: seq<bool>)
    requires rows != [] && size > 0
    ensures written == |Meeting(rows, size, send, Sent)| && lost == |Meeting(rows, size, send, Permanent)|
    ensures errors == Failures(Pieces(|rows|, size), send) && progress == written
    ensures |retryChunk| == Pieces(|rows|, size)
    ensures forall k | 0 <= k < |retryChunk| :: retryChunk[k] == (send(k) == Transient)
  {
    hide Pieces, Meeting;
    var count := |rows|;
    var chunks := Pieces(count, size);
    written, lost, errors, progress, retryChunk := 0, 0, 0, 0, [];
    ghost var done := 0;
    NothingMet(rows, size, send);
    for i := 0 to chunks
      invariant done <= count && (i < chunks ==> done == i * size) && (0 < i == chunks ==> done == count)
      invariant i == 0 ==> done == 0
      invariant written == |Meeting(rows[..done], size, send, Sent)|
      invariant lost == |Meeting(rows[..done], size, send, Permanent)|
      invariant errors == Failures(i, send) && progress == written && |retryChunk| == i
      invariant forall k | 0 <= k < i :: retryChunk[k] == (send(k) == Transient)
    {
      var start := i * size;
      var end := if start + size < count then start + size else count;
      ChunkBegins(i, count, size);
      MeetingChunk(rows, start, end, i, size, send, Sent);
      MeetingChunk(rows, start, end, i, size, send, Permanent);
      match send(i) {
        case Sent =>
          progress := progress + (end - start);
          written := written + (end - start);
        case Transient =>
          errors := errors + 1;
        case Permanent =>
          errors := errors + 1;
          lost := lost + (end - start);
      }
      retryChunk := retryChunk + [send(i) == Transient];
      done := end;
    }
    InSomeChunk(0, count, size);
    assert rows[..count] == rows;
  }

  method KeepRows<T>(rows: seq<T>, size: nat, send: nat -> SendResult, retryChunk: seq<bool>) returns (keep: seq<T>)
    requires size > 0 && |retryChunk| == Pieces(|rows|, size)
    requires forall k | 0 <= k < |retryChunk| :: retryChunk[k] == (send(k) == Transient)
    ensures keep == Meeting(rows, size, send, Transient)
  {
    hide Pieces, Meeting, ChunkOf;
    keep := [];
    NothingMet(rows, size, send);
    for p := 0 to |rows|
      invariant keep == Meeting(rows[..p], size, send, Transient)
    {
      assert rows[..p + 1][..p] == rows[..p];
      InSomeChunk(p, |rows|, size);
      MeetingLast(rows[..p + 1], size, send, Transient);
      if retryChunk[ChunkOf(p, size)] {
        keep := keep + [rows[p]];
      }
    }
    assert rows[..|rows|] == rows;
  }

  lemma NothingMet<T>(rows: seq<T>, size: nat, send: nat -> SendResult)
    requires size > 0
    ensures forall result :: Meeting(rows[..0], size, send, result) == []
  {
  }

  lemma OnePiece(count: nat)
    requires count > 0
    ensures Pieces(count, count) == 1
  {
    InChunk(count + count - 1, 1, count);
  }

  lemma ChunkBegins(i: nat, count: nat, size: nat)
    requires size > 0 && i < Pieces(count, size)
    ensures i * size < count && (i + 1) * size == i * size + size
    ensures i + 1 == Pieces(count, size) <==> i * size + size >= count
  {
    PiecesCover(count, size);
    OneLonger(i, size);
    OneLonger(i + 1, size);
    Longer(i + 1, Pieces(count, size), size);
    if i + 1 < Pieces(count, size) {
      Longer(i + 2, Pieces(count, size), size);
    }
  }

  lemma InSomeChunk(p: nat, count: nat, size: nat)
    requires size > 0 && p < count
    ensures ChunkOf(p, size) < Pieces(count, size)
  {
    ChunkHolds(p, size);
    PiecesCover(count, size);
    var q, chunks := ChunkOf(p, size), Pieces(count, size);
    hide ChunkOf, Pieces;
    if q >= chunks {
      Longer(chunks, q, size);
    }
  }

  // -------------------------------------------------------------------------
  // The JSON family: one list of rows, six tables
  // -------------------------------------------------------------------------

  datatype JsonTable = Table | Custom | NameValue | Histogram | Continuum | Multi

  /** A row and the number of database rows its value is taken apart into when its table does that. */
  datatype JsonRow = JsonRow(id: int, table: JsonTable, elements: nat)

  function RowsIn(rows: seq<JsonRow>, table: JsonTable): nat
    decreases |rows|
  {
    if rows == [] then 0
    else RowsIn(rows[..|rows| - 1], table) + if rows[|rows| - 1].table == table then 1 else 0
  }

  function ElementsIn(rows: seq<JsonRow>, table: JsonTable): nat
    decreases |rows|
  {
    if rows == [] then 0
    else ElementsIn(rows[..|rows| - 1], table) + if rows[|rows| - 1].table == table then rows[|rows| - 1].elements else 0
  }

  predicate TakenApart(table: JsonTable) {
    table != Table && table != Custom
  }

  /** What a COPY of one table is counted as: its rows, or the elements they are taken apart into. */
  function Units(rows: seq<JsonRow>, table: JsonTable): nat {
    if TakenApart(table) then ElementsIn(rows, table) else RowsIn(rows, table)
  }

  /** The count that goes with the payload of one table; no payload when there is nothing in it. */
  method BuildPayload(rows: seq<JsonRow>, table: JsonTable) returns (n: Option<nat>)
    ensures n == if Units(rows, table) == 0 then None else Some(Units(rows, table))
  {
    var count := 0;
    for i := 0 to |rows|
      invariant count == Units(rows[..i], table)
    {
      assert rows[..i + 1][..i] == rows[..i];
      if rows[i].table == table {
        count := count + if TakenApart(table) then rows[i].elements else 1;
      }
    }
    assert rows[..|rows|] == rows;
    return if count == 0 then None else Some(count);
  }

  /** A table whose COPY failed for now. */
  predicate Retained(rows: seq<JsonRow>, send: JsonTable -> SendResult, table: JsonTable) {
    Units(rows, table) > 0 && send(table) == Transient
  }

  function RowsOfTables(rows: seq<JsonRow>, tables: set<JsonTable>): seq<JsonRow>
    decreases |rows|
  {
    if rows == [] then []
    else
      var last := rows[|rows| - 1];
      RowsOfTables(rows[..|rows| - 1], tables) + if last.table in tables then [last] else []
  }

  const PLAN: seq<JsonTable> := [Table, Custom, NameValue, Histogram, Continuum, Multi]

  function RetainedAmong(rows: seq<JsonRow>, send: JsonTable -> SendResult, tables: seq<JsonTable>): set<JsonTable> {
    set t | t in tables && Retained(rows, send, t)
  }

  /** The units of the listed tables whose COPY met a given result. */
  function UnitsMeeting(rows: seq<JsonRow>, send: JsonTable -> SendResult, result: SendResult,
                        tables: seq<JsonTable>): nat
    decreases |tables|
  {
    if tables == [] then 0
    else
      var last := tables[|tables| - 1];
      UnitsMeeting(rows, send, result, tables[..|tables| - 1]) + if send(last) == result then Units(rows, last) else 0
  }

  function JsonOutcome(rows: seq<JsonRow>, send: JsonTable -> SendResult): (nat, seq<JsonRow>, nat) {
    (UnitsMeeting(rows, send, Sent, PLAN), RowsOfTables(rows, RetainedAmong(rows, send, PLAN)),
     UnitsMeeting(rows, send, Permanent, PLAN))
  }

  method FlushJson(rows: seq<JsonRow>, send: JsonTable -> SendResult)
    returns (written: nat, keep: seq<JsonRow>, lost: nat, errors: nat, progress: nat)
    ensures (written, keep, lost) == JsonOutcome(rows, send) && progress == written
    ensures errors == 0 <==> forall t | t in PLAN && Units(rows, t) > 0 :: send(t) == Sent
  {
    hide Units, RowsOfTables;
    written, keep, lost, errors, progress := 0, [], 0, 0, 0;
    if rows == [] {
      NoUnits(send);
      return;
    }
    var retryTables: set<JsonTable> := {};
    for i := 0 to |PLAN|
      invariant written == UnitsMeeting(rows, send, Sent, PLAN[..i]) && progress == written
      invariant lost == UnitsMeeting(rows, send, Permanent, PLAN[..i])
      invariant retryTables == RetainedAmong(rows, send, PLAN[..i])
      invariant errors == 0 <==> forall t | t in PLAN[..i] && Units(rows, t) > 0 :: send(t) == Sent
    {
      var table := PLAN[i];
      assert PLAN[..i + 1] == PLAN[..i] + [table];
      OneMoreTable(rows, send, PLAN[..i], table);
      var payload := BuildPayload(rows, table);
      if payload.Some? {
        match send(table) {
          case Sent =>
            written := written + payload.value;
            progress := progress + payload.value;
          case Transient =>
            errors := errors + 1;
            retryTables := retryTables + {table};
          case Permanent =>
            errors := errors + 1;
            lost := lost + payload.value;
        }
      }
    }
    assert PLAN[..|PLAN|] == PLAN;
    keep := KeepOfTables(rows, retryTables);
  }

  method KeepOfTables(rows: seq<JsonRow>, retryTables: set<JsonTable>) returns (keep: seq<JsonRow>)
    ensures keep == RowsOfTables(rows, retryTables)
  {
    keep := [];
    for i := 0 to |rows|
      invariant keep == RowsOfTables(rows[..i], retryTables)
    {
      assert rows[..i + 1][..i] == rows[..i];
      if rows[i].table in retryTables {
        keep := keep + [rows[i]];
      }
    }
    assert rows[..|rows|] == rows;
  }

  lemma OneMoreTable(rows: seq<JsonRow>, send: JsonTable -> SendResult, tables: seq<JsonTable>, table: JsonTable)
    ensures forall result ::
      UnitsMeeting(rows, send, result, tables + [table])
        == UnitsMeeting(rows, send, result, tables) + if send(table) == result then Units(rows, table) else 0
    ensures RetainedAmong(rows, send, tables + [table])
      == RetainedAmong(rows, send, tables) + if Retained(rows, send, table) then {table} else {}
    ensures forall t :: t in tables + [table] <==> t in tables || t == table
  {
    assert (tables + [table])[..|tables|] == tables;
    assert forall t :: t in tables + [table] <==> t in tables || t == table;
  }

  lemma NoUnits(send: JsonTable -> SendResult)
    ensures JsonOutcome([], send) == (0, [], 0)
    ensures forall t :: Units([], t) == 0
  {
    NoUnitsAmong([], send, PLAN);
  }

  lemma {:induction false} NoUnitsAmong(rows: seq<JsonRow>, send: JsonTable -> SendResult, tables: seq<JsonTable>)
    requires forall t | t in tables :: Units(rows, t) == 0
    ensures forall result :: UnitsMeeting(rows, send, result, tables) == 0
    decreases |tables|
  {
    if tables != [] {
      NoUnitsAmong(rows, send, tables[..|tables| - 1]);
    }
  }

  lemma {:induction false} NoneOfResult(rows: seq<JsonRow>, send: JsonTable -> SendResult, result: SendResult,
                                       tables: seq<JsonTable>)
    ensures UnitsMeeting(rows, send, result, tables) == 0
      <==> forall t | t in tables && send(t) == result :: Units(rows, t) == 0
    decreases |tables|
  {
    hide Units;
    if tables != [] {
      var last, earlier := tables[|tables| - 1], tables[..|tables| - 1];
      NoneOfResult(rows, send, result, earlier);
      assert forall t :: t in tables <==> t in earlier || t == last;
    }
  }

  lemma {:induction false} NoRowOf(rows: seq<JsonRow>, tables: set<JsonTable>)
    ensures RowsOfTables(rows, tables) == [] <==> forall i | 0 <= i < |rows| :: rows[i].table !in tables
    decreases |rows|
  {
    if rows != [] {
      NoRowOf(rows[..|rows| - 1], tables);
    }
  }

  /** No COPY of a JSON table fails exactly when nothing is kept or lost: every table with a COPY has a row. */
  lemma JsonClean(rows: seq<JsonRow>, send: JsonTable -> SendResult)
    ensures (forall t | t in PLAN && Units(rows, t) > 0 :: send(t) == Sent)
      <==> JsonOutcome(rows, send).1 == [] && JsonOutcome(rows, send).2 == 0
  {
    var retained := RetainedAmong(rows, send, PLAN);
    NoneOfResult(rows, send, Permanent, PLAN);
    NoRowOf(rows, retained);
    forall t
      ensures t in retained <==> t in PLAN && Units(rows, t) > 0 && send(t) == Transient
      ensures Units(rows, t) > 0 ==> exists i | 0 <= i < |rows| :: rows[i].table == t
    {
      SomeUnits(rows, t);
    }
    hide Units, UnitsMeeting, RowsOfTables, RetainedAmong;
  }

  lemma {:induction false} RowsOfOneMore(rows: seq<JsonRow>, tables: set<JsonTable>, table: JsonTable)
    ensures |RowsOfTables(rows, tables + {table})|
      == |RowsOfTables(rows, tables)| + if table in tables then 0 else RowsIn(rows, table)
    decreases |rows|
  {
    if rows != [] {
      RowsOfOneMore(rows[..|rows| - 1], tables, table);
    }
  }

  lemma {:induction false} RowsOfAll(rows: seq<JsonRow>, tables: set<JsonTable>)
    ensures (forall t :: t in tables) ==> RowsOfTables(rows, tables) == rows
    ensures tables == {} ==> RowsOfTables(rows, tables) == []
    decreases |rows|
  {
    if rows != [] {
      RowsOfAll(rows[..|rows| - 1], tables);
    }
  }

  /** How many more units than rows a settled table is counted as. */
  function Surplus(rows: seq<JsonRow>, send: JsonTable -> SendResult, table: JsonTable): int {
    if Retained(rows, send, table) then 0 else Units(rows, table) - RowsIn(rows, table)
  }

  function SurplusOver(rows: seq<JsonRow>, send: JsonTable -> SendResult, tables: seq<JsonTable>): int
    decreases |tables|
  {
    if tables == [] then 0
    else SurplusOver(rows, send, tables[..|tables| - 1]) + Surplus(rows, send, tables[|tables| - 1])
  }

  ghost predicate NoneTwice(tables: seq<JsonTable>) {
    forall i, j | 0 <= i < j < |tables| :: tables[i] != tables[j]
  }

  function SetOf(tables: seq<JsonTable>): set<JsonTable> {
    set t | t in tables
  }

  lemma {:induction false} TablesBalance(rows: seq<JsonRow>, send: JsonTable -> SendResult, tables: seq<JsonTable>)
    requires NoneTwice(tables)
    ensures UnitsMeeting(rows, send, Sent, tables) + UnitsMeeting(rows, send, Permanent, tables)
      + |RowsOfTables(rows, RetainedAmong(rows, send, tables))|
      == |RowsOfTables(rows, SetOf(tables))| + SurplusOver(rows, send, tables)
    decreases |tables|
  {
    if tables == [] {
      RowsOfAll(rows, RetainedAmong(rows, send, tables));
      RowsOfAll(rows, SetOf(tables));
    } else {
      var table, earlier := tables[|tables| - 1], tables[..|tables| - 1];
      TablesBalance(rows, send, earlier);
      assert tables == earlier + [table];
      OneMoreTable(rows, send, earlier, table);
      assert table !in earlier && SetOf(tables) == SetOf(earlier) + {table};
      RowsOfOneMore(rows, SetOf(earlier), table);
      RowsOfOneMore(rows, RetainedAmong(rows, send, earlier), table);
      assert RetainedAmong(rows, send, earlier) + {} == RetainedAmong(rows, send, earlier);
      hide Units, RowsIn, RowsOfTables;
    }
  }

  lemma PlanIsComplete()
    ensures NoneTwice(PLAN) && forall t :: t in SetOf(PLAN) && t in PLAN
  {
    assert PLAN[0] == Table && PLAN[1] == Custom && PLAN[2] == NameValue;
    assert PLAN[3] == Histogram && PLAN[4] == Continuum && PLAN[5] == Multi;
    forall t
      ensures t in PLAN
    {
      match t
      case Table =>
      case Custom =>
      case NameValue =>
      case Histogram =>
      case Continuum =>
      case Multi =>
    }
  }

  /** Committed, lost and kept rows miss the rows given by exactly the surplus of the settled tables. */
  lemma JsonBalance(rows: seq<JsonRow>, send: JsonTable -> SendResult)
    ensures var (written, keep, lost) := JsonOutcome(rows, send);
      written + lost + |keep| == |rows| + SurplusOver(rows, send, PLAN)
  {
    PlanIsComplete();
    TablesBalance(rows, send, PLAN);
    RowsOfAll(rows, SetOf(PLAN));
  }

  /** No table counts more or fewer units than rows. */
  ghost predicate OnePerRow(rows: seq<JsonRow>) {
    forall t :: Units(rows, t) == RowsIn(rows, t)
  }

  ghost predicate Conserves(rows: seq<JsonRow>, send: JsonTable -> SendResult) {
    var (written, keep, lost) := JsonOutcome(rows, send);
    written + lost + |keep| == |rows|
  }

  /** The surplus of a list of tables when all but one of them have none. */
  lemma {:induction false} SurplusOfOne(rows: seq<JsonRow>, send: JsonTable -> SendResult, tables: seq<JsonTable>,
                                       table: JsonTable)
    requires NoneTwice(tables)
    requires forall t | t != table :: Surplus(rows, send, t) == 0
    ensures SurplusOver(rows, send, tables) == if table in tables then Surplus(rows, send, table) else 0
    decreases |tables|
  {
    if tables != [] {
      var last, earlier := tables[|tables| - 1], tables[..|tables| - 1];
      SurplusOfOne(rows, send, earlier, table);
      assert tables == earlier + [last];
    }
  }

  /** When every COPY fails for now, only tables without a payload are settled, and each misses its rows. */
  lemma {:induction false} NothingSent(rows: seq<JsonRow>, send: JsonTable -> SendResult, tables: seq<JsonTable>)
    requires forall t: JsonTable :: send(t) == Transient
    ensures SurplusOver(rows, send, tables) <= 0
    ensures SurplusOver(rows, send, tables) == 0 ==> forall t | t in tables :: Surplus(rows, send, t) == 0
    decreases |tables|
  {
    if tables != [] {
      var last, earlier := tables[|tables| - 1], tables[..|tables| - 1];
      NothingSent(rows, send, earlier);
      assert tables == earlier + [last];
    }
  }

  /** Rows are conserved, whatever the database answers, exactly when every table counts as many units as rows. */
  lemma ConservesIffOnePerRow(rows: seq<JsonRow>)
    ensures (forall send: JsonTable -> SendResult :: Conserves(rows, send)) <==> OnePerRow(rows)
  {
    PlanIsComplete();
    if OnePerRow(rows) {
      forall send: JsonTable -> SendResult
        ensures Conserves(rows, send)
      {
        JsonBalance(rows, send);
        SurplusOfOne(rows, send, PLAN, Table);
      }
    } else {
      var table :| Units(rows, table) != RowsIn(rows, table);
      SomeSendMiscounts(rows, table);
    }
  }

  lemma SomeSendMiscounts(rows: seq<JsonRow>, table: JsonTable)
    requires Units(rows, table) != RowsIn(rows, table)
    ensures exists send: JsonTable -> SendResult :: !Conserves(rows, send)
  {
    PlanIsComplete();
    var none: JsonTable -> SendResult := (_: JsonTable) => Transient;
    var one: JsonTable -> SendResult := (u: JsonTable) => if u == table then Sent else Transient;
    hide Units, RowsIn;
    JsonBalance(rows, none);
    NothingSent(rows, none, PLAN);
    if Conserves(rows, none) {
      assert forall t | t != table :: Surplus(rows, one, t) == Surplus(rows, none, t) == 0;
      JsonBalance(rows, one);
      SurplusOfOne(rows, one, PLAN, table);
      assert !Conserves(rows, one);
    }
  }

  // ---- Row by row ----

  /** A row that a COPY has something of: taken apart, it needs an element. */
  predicate Produces(row: JsonRow) {
    TakenApart(row.table) ==> row.elements > 0
  }

  /** The rows that were in a COPY which met a given result; a row without elements is in none. */
  function Reaching(rows: seq<JsonRow>, send: JsonTable -> SendResult, result: SendResult): seq<JsonRow>
    decreases |rows|
  {
    if rows == [] then []
    else
      var last := rows[|rows| - 1];
      Reaching(rows[..|rows| - 1], send, result)
      + if Produces(last) && send(last.table) == result then [last] else []
  }

  /** Every row is committed, kept or lost, and the counts are counts of such rows. */
  ghost predicate RowByRow(rows: seq<JsonRow>, send: JsonTable -> SendResult) {
    var (written, keep, lost) := JsonOutcome(rows, send);
    var committed, gone := Reaching(rows, send, Sent), Reaching(rows, send, Permanent);
    SplitInto(rows, committed, keep, gone) && written == |committed| && lost == |gone|
  }

  /** Each row that is taken apart comes to one database row. */
  predicate OneEach(rows: seq<JsonRow>) {
    forall row | row in rows && TakenApart(row.table) :: row.elements == 1
  }

  lemma {:induction false} OneEachIsOnePerRow(rows: seq<JsonRow>)
    requires OneEach(rows)
    ensures OnePerRow(rows)
    decreases |rows|
  {
    if rows != [] {
      OneEachIsOnePerRow(rows[..|rows| - 1]);
      forall t
        ensures Units(rows, t) == RowsIn(rows, t)
      {
        assert Units(rows[..|rows| - 1], t) == RowsIn(rows[..|rows| - 1], t);
      }
    }
  }

  lemma {:induction false} SameTables(rows: seq<JsonRow>, a: set<JsonTable>, b: set<JsonTable>)
    requires forall row | row in rows :: row.table in a <==> row.table in b
    ensures RowsOfTables(rows, a) == RowsOfTables(rows, b)
    decreases |rows|
  {
    if rows != [] {
      SameTables(rows[..|rows| - 1], a, b);
    }
  }

  function TablesMeeting(send: JsonTable -> SendResult, result: SendResult, tables: seq<JsonTable>): set<JsonTable> {
    set t | t in tables && send(t) == result
  }

  lemma {:induction false} UnitsAreRows(rows: seq<JsonRow>, send: JsonTable -> SendResult, result: SendResult,
                                       tables: seq<JsonTable>)
    requires OnePerRow(rows) && NoneTwice(tables)
    ensures UnitsMeeting(rows, send, result, tables) == |RowsOfTables(rows, TablesMeeting(send, result, tables))|
    decreases |tables|
  {
    if tables == [] {
      RowsOfAll(rows, TablesMeeting(send, result, tables));
    } else {
      var table, earlier := tables[|tables| - 1], tables[..|tables| - 1];
      UnitsAreRows(rows, send, result, earlier);
      assert tables == earlier + [table];
      assert Units(rows, table) == RowsIn(rows, table);
      RowsOfOneMore(rows, TablesMeeting(send, result, earlier), table);
      assert TablesMeeting(send, result, tables)
        == TablesMeeting(send, result, earlier) + if send(table) == result then {table} else {};
      hide Units, RowsIn, RowsOfTables;
      assert TablesMeeting(send, result, earlier) + {} == TablesMeeting(send, result, earlier);
    }
  }

  lemma {:induction false} ReachingIsOfTables(rows: seq<JsonRow>, send: JsonTable -> SendResult, result: SendResult)
    requires forall row | row in rows :: Produces(row)
    ensures Reaching(rows, send, result) == RowsOfTables(rows, TablesMeeting(send, result, PLAN))
    decreases |rows|
  {
    PlanIsComplete();
    if rows != [] {
      ReachingIsOfTables(rows[..|rows| - 1], send, result);
    }
  }

  /** A table with a row that produces something has a payload. */
  lemma {:induction false} RowGivesUnits(rows: seq<JsonRow>, row: JsonRow)
    requires row in rows && Produces(row)
    ensures Units(rows, row.table) > 0
    decreases |rows|
  {
    if rows[|rows| - 1] != row {
      RowGivesUnits(rows[..|rows| - 1], row);
    }
  }

  lemma {:induction false} ReachingSplit(rows: seq<JsonRow>, send: JsonTable -> SendResult)
    requires forall row | row in rows :: Produces(row)
    ensures SplitInto(rows, Reaching(rows, send, Sent), Reaching(rows, send, Transient), Reaching(rows, send, Permanent))
    decreases |rows|
  {
    if rows != [] {
      hide Reaching, SplitInto;
      var last, earlier := rows[|rows| - 1], rows[..|rows| - 1];
      ReachingSplit(earlier, send);
      assert rows == earlier + [last];
      assert last in rows && Produces(last);
      ReachingLast(rows, send);
      OneFate(Reaching(earlier, send, Sent), Reaching(earlier, send, Transient), Reaching(earlier, send, Permanent),
              earlier, last);
    }
  }

  lemma ReachingLast(rows: seq<JsonRow>, send: JsonTable -> SendResult)
    requires rows != [] && Produces(rows[|rows| - 1])
    ensures var last, earlier := rows[|rows| - 1], rows[..|rows| - 1];
      forall result :: Reaching(rows, send, result)
        == if send(last.table) == result then Reaching(earlier, send, result) + [last]
           else Reaching(earlier, send, result)
  {
  }

  /** What the flush of the JSON family does when each row comes to one database row. */
  lemma JsonByRows(rows: seq<JsonRow>, send: JsonTable -> SendResult)
    requires OneEach(rows)
    ensures JsonOutcome(rows, send)
      == (|Reaching(rows, send, Sent)|, Reaching(rows, send, Transient), |Reaching(rows, send, Permanent)|)
    ensures RowByRow(rows, send)
  {
    PlanIsComplete();
    OneEachIsOnePerRow(rows);
    UnitsAreRows(rows, send, Sent, PLAN);
    UnitsAreRows(rows, send, Permanent, PLAN);
    ReachingIsOfTables(rows, send, Sent);
    ReachingIsOfTables(rows, send, Transient);
    ReachingIsOfTables(rows, send, Permanent);
    forall row | row in rows
      ensures Units(rows, row.table) > 0
    {
      RowGivesUnits(rows, row);
    }
    SameTables(rows, RetainedAmong(rows, send, PLAN), TablesMeeting(send, Transient, PLAN));
    ReachingSplit(rows, send);
  }

  lemma {:induction false} ReachingAll(rows: seq<JsonRow>, send: JsonTable -> SendResult)
    requires forall t: JsonTable :: send(t) == Sent
    ensures |Reaching(rows, send, Sent)| <= |rows|
    ensures |Reaching(rows, send, Sent)| == |rows| ==> forall row | row in rows :: Produces(row)
    ensures Reaching(rows, send, Permanent) == []
    decreases |rows|
  {
    if rows != [] {
      var last, earlier := rows[|rows| - 1], rows[..|rows| - 1];
      ReachingAll(earlier, send);
      assert rows == earlier + [last];
    }
  }

  lemma {:induction false} UnitsAtLeastRows(rows: seq<JsonRow>, table: JsonTable)
    requires forall row | row in rows :: Produces(row)
    ensures Units(rows, table) >= RowsIn(rows, table)
    ensures Units(rows, table) == RowsIn(rows, table) ==>
      forall row | row in rows && row.table == table && TakenApart(table) :: row.elements == 1
    decreases |rows|
  {
    if rows != [] {
      var last, earlier := rows[|rows| - 1], rows[..|rows| - 1];
      UnitsAtLeastRows(earlier, table);
      assert rows == earlier + [last] && last in rows;
      InOneMore(earlier, last, table);
      hide RowsIn, ElementsIn;
      assert Units(rows, table) - RowsIn(rows, table) == Units(earlier, table) - RowsIn(earlier, table)
        + if last.table == table && TakenApart(table) then last.elements - 1 else 0;
      assert forall row | row in rows :: row in earlier || row == last;
    }
  }

  lemma {:induction false} NoSurplusAnywhere(rows: seq<JsonRow>, send: JsonTable -> SendResult, tables: seq<JsonTable>)
    requires forall t: JsonTable :: Surplus(rows, send, t) >= 0
    ensures SurplusOver(rows, send, tables) >= 0
    ensures SurplusOver(rows, send, tables) == 0 ==> forall t | t in tables :: Surplus(rows, send, t) == 0
    decreases |tables|
  {
    if tables != [] {
      NoSurplusAnywhere(rows, send, tables[..|tables| - 1]);
      assert tables == tables[..|tables| - 1] + [tables[|tables| - 1]];
    }
  }

  /**
   * Every row is committed, kept or lost, and counted as such, whatever the database
   * answers, exactly when each row that is taken apart comes to one database row. One
   * answer is enough to tell: the one that commits everything.
   */
  lemma RowByRowIffOneEach(rows: seq<JsonRow>)
    ensures (forall send: JsonTable -> SendResult :: RowByRow(rows, send)) <==> OneEach(rows)
    ensures forall send: JsonTable -> SendResult |
      (forall t: JsonTable :: send(t) == Sent) && RowByRow(rows, send) :: OneEach(rows)
  {
    var all: JsonTable -> SendResult := (_: JsonTable) => Sent;
    forall send: JsonTable -> SendResult | (forall t: JsonTable :: send(t) == Sent) && RowByRow(rows, send)
      ensures OneEach(rows)
    {
      RowByRowTells(rows, send);
    }
    if OneEach(rows) {
      forall send: JsonTable -> SendResult
        ensures RowByRow(rows, send)
      {
        JsonByRows(rows, send);
      }
    } else {
      assert forall t: JsonTable :: all(t) == Sent;
      assert !RowByRow(rows, all);
    }
  }

  /** When everything is committed, two counts tell: the rows that were in a COPY, and the units they were counted as. */
  lemma AllSentTells(rows: seq<JsonRow>, send: JsonTable -> SendResult)
    requires forall t: JsonTable :: send(t) == Sent
    requires JsonOutcome(rows, send).0 == |Reaching(rows, send, Sent)| == |rows|
    ensures OneEach(rows)
  {
    PlanIsComplete();
    JsonBalance(rows, send);
    NothingElse(rows, send);
    ReachingAll(rows, send);
    forall t: JsonTable
      ensures Surplus(rows, send, t) >= 0
      ensures Surplus(rows, send, t) == 0 ==>
        forall row | row in rows && row.table == t && TakenApart(t) :: row.elements == 1
    {
      UnitsAtLeastRows(rows, t);
    }
    NoSurplusAnywhere(rows, send, PLAN);
  }

  lemma NothingElse(rows: seq<JsonRow>, send: JsonTable -> SendResult)
    requires forall t: JsonTable :: send(t) == Sent
    ensures JsonOutcome(rows, send).1 == [] && JsonOutcome(rows, send).2 == 0
  {
    assert RetainedAmong(rows, send, PLAN) == {};
    RowsOfAll(rows, {});
    NoneMeeting(rows, send, PLAN);
  }

  lemma {:induction false} NoneMeeting(rows: seq<JsonRow>, send: JsonTable -> SendResult, tables: seq<JsonTable>)
    requires forall t: JsonTable :: send(t) == Sent
    ensures UnitsMeeting(rows, send, Permanent, tables) == 0
    decreases |tables|
  {
    if tables != [] {
      NoneMeeting(rows, send, tables[..|tables| - 1]);
    }
  }

  lemma RowByRowTells(rows: seq<JsonRow>, send: JsonTable -> SendResult)
    requires (forall t: JsonTable :: send(t) == Sent) && RowByRow(rows, send)
    ensures OneEach(rows)
  {
    NothingElse(rows, send);
    ReachingAll(rows, send);
    AllSentTells(rows, send);
  }

  /** Counts can balance while rows do not: one row stands in for another that is in no COPY. */
  lemma OneRowCountedForAnother(send: JsonTable -> SendResult)
    requires forall t: JsonTable :: send(t) == Sent
    ensures var rows := [JsonRow(1, NameValue, 2), JsonRow(2, NameValue, 0)];
      OnePerRow(rows) && Conserves(rows, send) && !RowByRow(rows, send)
  {
    var rows := [JsonRow(1, NameValue, 2), JsonRow(2, NameValue, 0)];
    var first := [JsonRow(1, NameValue, 2)];
    assert rows == first + [JsonRow(2, NameValue, 0)] && first == [] + [JsonRow(1, NameValue, 2)];
    forall t
      ensures Units(rows, t) == RowsIn(rows, t)
    {
      InOneMore(first, JsonRow(2, NameValue, 0), t);
      InOneMore([], JsonRow(1, NameValue, 2), t);
    }
    ConservesIffOnePerRow(rows);
    assert rows[1] in rows && !OneEach(rows);
    if RowByRow(rows, send) {
      RowByRowTells(rows, send);
    }
  }

  /** A histogram of three bars is counted as three rows; an empty one is neither written, lost nor kept. */
  lemma MiscountedRows(send: JsonTable -> SendResult)
    ensures send(Histogram) == Sent ==> !Conserves([JsonRow(1, Histogram, 3)], send)
    ensures JsonOutcome([JsonRow(1, Histogram, 0)], send) == (0, [], 0)
  {
    OneHistogram(3);
    OneHistogram(0);
    PlanIsComplete();
    var three, zero := [JsonRow(1, Histogram, 3)], [JsonRow(1, Histogram, 0)];
    JsonBalance(three, send);
    SurplusOfOne(three, send, PLAN, Histogram);
    NoUnitsAmong(zero, send, PLAN);
    assert RetainedAmong(zero, send, PLAN) == {};
    RowsOfAll(zero, {});
  }

  lemma OneHistogram(elements: nat)
    ensures forall t :: Units([JsonRow(1, Histogram, elements)], t) == if t == Histogram then elements else 0
    ensures forall t :: RowsIn([JsonRow(1, Histogram, elements)], t) == if t == Histogram then 1 else 0
  {
    var rows := [JsonRow(1, Histogram, elements)];
    assert rows[..|rows| - 1] == [];
    forall t
      ensures Units(rows, t) == (if t == Histogram then elements else 0)
      ensures RowsIn(rows, t) == if t == Histogram then 1 else 0
    {
      assert ElementsIn(rows, t) == ElementsIn([], t) + if t == Histogram then elements else 0;
      assert RowsIn(rows, t) == RowsIn([], t) + if t == Histogram then 1 else 0;
    }
  }

  lemma InOneMore(rows: seq<JsonRow>, last: JsonRow, table: JsonTable)
    ensures RowsIn(rows + [last], table) == RowsIn(rows, table) + if last.table == table then 1 else 0
    ensures ElementsIn(rows + [last], table)
      == ElementsIn(rows, table) + if last.table == table then last.elements else 0
  {
    assert (rows + [last])[..|rows|] == rows;
  }

  // -------------------------------------------------------------------------
  // The bundle
  // -------------------------------------------------------------------------

  datatype FlushBundle = FlushBundle(
    scalar: seq<int>, text: seq<int>, arrayNum: seq<int>, arrayStr: seq<int>, json: seq<JsonRow>, image: seq<int>)
  {
    function TotalRows(): nat {
      |scalar| + |text| + |arrayNum| + |arrayStr| + |json| + |image|
    }

    predicate IsEmpty() {
      scalar == [] && text == [] && arrayNum == [] && arrayStr == [] && json == [] && image == []
    }
  }

  datatype FlushReport = FlushReport(scalar: nat, text: nat, arrays: nat, json: nat, image: nat) {
    function Total(): nat {
      scalar + text + arrays + json + image
    }
  }

  datatype FlushOutcome = FlushOutcome(report: FlushReport, retry: Option<FlushBundle>, lost: nat, errors: nat)

  /** What the database answers to each COPY of a bundle. */
  datatype Answers = Answers(
    scalar: nat -> SendResult, text: nat -> SendResult, arrayNum: nat -> SendResult, arrayStr: nat -> SendResult,
    json: JsonTable -> SendResult, image: nat -> SendResult)

  const PARALLEL_THRESHOLD := 10_000

  /** The rows of a bundle that met a given result. */
  function FatedBundle(b: FlushBundle, connections: nat, answers: Answers, result: SendResult): FlushBundle {
    var parallel := Some(PARALLEL_THRESHOLD);
    FlushBundle(
      Fated(b.scalar, parallel, connections, answers.scalar, result),
      Fated(b.text, parallel, connections, answers.text, result),
      Fated(b.arrayNum, parallel, connections, answers.arrayNum, result),
      Fated(b.arrayStr, None, connections, answers.arrayStr, result),
      Reaching(b.json, answers.json, result),
      Fated(b.image, None, connections, answers.image, result))
  }

  function Report(b: FlushBundle, connections: nat, answers: Answers): FlushReport {
    var sent := FatedBundle(b, connections, answers, Sent);
    FlushReport(|sent.scalar|, |sent.text|, |sent.arrayNum| + |sent.arrayStr|, JsonOutcome(b.json, answers.json).0,
                |sent.image|)
  }

  /** The bundle a flush leaves to be retried, possibly without any row. */
  function KeptBundle(b: FlushBundle, connections: nat, answers: Answers): FlushBundle {
    FatedBundle(b, connections, answers, Transient).(json := JsonOutcome(b.json, answers.json).1)
  }

  /** The rows a flush counts as lost. */
  function Lost(b: FlushBundle, connections: nat, answers: Answers): nat {
    var gone := FatedBundle(b, connections, answers, Permanent);
    |gone.scalar| + |gone.text| + |gone.arrayNum| + |gone.arrayStr| + JsonOutcome(b.json, answers.json).2 + |gone.image|
  }

  /** Section by section, every row of a bundle is in one of three. */
  ghost predicate SplitBundle(b: FlushBundle, sent: FlushBundle, kept: FlushBundle, lost: FlushBundle) {
    && SplitInto(b.scalar, sent.scalar, kept.scalar, lost.scalar)
    && SplitInto(b.text, sent.text, kept.text, lost.text)
    && SplitInto(b.arrayNum, sent.arrayNum, kept.arrayNum, lost.arrayNum)
    && SplitInto(b.arrayStr, sent.arrayStr, kept.arrayStr, lost.arrayStr)
    && SplitInto(b.json, sent.json, kept.json, lost.json)
    && SplitInto(b.image, sent.image, kept.image, lost.image)
  }

  /**
   * The contract the store loop relies on, for bundles whose JSON rows each come to one
   * database row: every row is committed, lost or in the retry bundle, the counts are
   * the numbers of those rows, and the retry bundle is of the same kind.
   */
  lemma FlushContract(b: FlushBundle, connections: nat, answers: Answers)
    requires OneEach(b.json)
    ensures var sent, kept, gone := FatedBundle(b, connections, answers, Sent), KeptBundle(b, connections, answers),
                                    FatedBundle(b, connections, answers, Permanent);
      && SplitBundle(b, sent, kept, gone)
      && Report(b, connections, answers).Total() == sent.TotalRows()
      && Lost(b, connections, answers) == gone.TotalRows()
      && kept == FatedBundle(b, connections, answers, Transient) && OneEach(kept.json)
  {
    hide Fated, SplitInto, JsonOutcome, Reaching;
    var parallel := Some(PARALLEL_THRESHOLD);
    FatedSplit(b.scalar, parallel, connections, answers.scalar);
    FatedSplit(b.text, parallel, connections, answers.text);
    FatedSplit(b.arrayNum, parallel, connections, answers.arrayNum);
    FatedSplit(b.arrayStr, None, connections, answers.arrayStr);
    FatedSplit(b.image, None, connections, answers.image);
    JsonByRows(b.json, answers.json);
    ReachingAreRows(b.json, answers.json, Transient);
  }

  lemma {:induction false} ReachingAreRows(rows: seq<JsonRow>, send: JsonTable -> SendResult, result: SendResult)
    ensures forall row | row in Reaching(rows, send, result) :: row in rows
    decreases |rows|
  {
    if rows != [] {
      ReachingAreRows(rows[..|rows| - 1], send, result);
    }
  }

  /** The balance of a flush in counts, for any bundle. */
  lemma FlushBalance(b: FlushBundle, connections: nat, answers: Answers)
    ensures Report(b, connections, answers).Total() + Lost(b, connections, answers)
      + KeptBundle(b, connections, answers).TotalRows() == b.TotalRows() + SurplusOver(b.json, answers.json, PLAN)
  {
    hide Fated, SurplusOver, JsonOutcome, Reaching;
    var parallel := Some(PARALLEL_THRESHOLD);
    FatedSplit(b.scalar, parallel, connections, answers.scalar);
    FatedSplit(b.text, parallel, connections, answers.text);
    FatedSplit(b.arrayNum, parallel, connections, answers.arrayNum);
    FatedSplit(b.arrayStr, None, connections, answers.arrayStr);
    FatedSplit(b.image, None, connections, answers.image);
    JsonBalance(b.json, answers.json);
  }

  /**
   * Flush a bundle. Committed, lost and kept rows together miss the rows of the bundle
   * by exactly the surplus of its JSON tables, and the progress counts what is committed.
   */
  method FlushWithProgress(b: FlushBundle, connections: nat, answers: Answers)
    returns (o: FlushOutcome, progress: nat)
    ensures var kept := KeptBundle(b, connections, answers);
      && o.retry == (if kept.IsEmpty() then None else Some(kept))
      && o.report.Total() + o.lost + kept.TotalRows() == b.TotalRows() + SurplusOver(b.json, answers.json, PLAN)
    ensures o.report == Report(b, connections, answers) && progress == o.report.Total()
    ensures o.lost == Lost(b, connections, answers)
    ensures o.errors == 0 <==> o.retry == None && o.lost == 0
  {
    hide Fated, Failures, JsonOutcome, SurplusOver, Reaching;
    JsonClean(b.json, answers.json);
    FlushBalance(b, connections, answers);
    var parallel := Some(PARALLEL_THRESHOLD);
    var scalar := FlushSection(b.scalar, parallel, connections, answers.scalar);
    var text := FlushSection(b.text, parallel, connections, answers.text);
    var arrayNum := FlushSection(b.arrayNum, parallel, connections, answers.arrayNum);
    var arrayStr := FlushSection(b.arrayStr, None, connections, answers.arrayStr);
    var written, keep, lost, errors, jsonProgress := FlushJson(b.json, answers.json);
    var image := FlushSection(b.image, None, connections, answers.image);
    var report := FlushReport(scalar.written, text.written, arrayNum.written + arrayStr.written, written,
                              image.written);
    progress := scalar.progress + text.progress + arrayNum.progress + arrayStr.progress + jsonProgress
      + image.progress;
    var kept := FlushBundle(scalar.keep, text.keep, arrayNum.keep, arrayStr.keep, keep, image.keep);
    var hasRetry := scalar.keep != [] || text.keep != [] || arrayNum.keep != [] || arrayStr.keep != []
      || keep != [] || image.keep != [];
    o := FlushOutcome(report, if hasRetry then Some(kept) else None,
                      scalar.lost + text.lost + arrayNum.lost + arrayStr.lost + lost + image.lost,
                      scalar.errors + text.errors + arrayNum.errors + arrayStr.errors + errors + image.errors);
  }

  // -------------------------------------------------------------------------
  // The writer's buffers as one list
  // -------------------------------------------------------------------------

  datatype Kind = Scalar | Text | ArrayNum | ArrayStr | Image

  /** A row as the writer accepts it; its kind decides the buffer it waits in. */
  datatype Row = Plain(kind: Kind, id: int) | Json(json: JsonRow)

  function Ids(rows: seq<Row>, kind: Kind): seq<int>
    decreases |rows|
  {
    if rows == [] then []
    else
      var last := rows[|rows| - 1];
      Ids(rows[..|rows| - 1], kind) + if last.Plain? && last.kind == kind then [last.id] else []
  }

  function Jsons(rows: seq<Row>): seq<JsonRow>
    decreases |rows|
  {
    if rows == [] then []
    else
      var last := rows[|rows| - 1];
      Jsons(rows[..|rows| - 1]) + if last.Json? then [last.json] else []
  }

  /** The bundle taken when these rows are waiting. */
  function Sections(rows: seq<Row>): FlushBundle {
    FlushBundle(Ids(rows, Scalar), Ids(rows, Text), Ids(rows, ArrayNum), Ids(rows, ArrayStr), Jsons(rows),
                Ids(rows, Image))
  }

  lemma IdsOneMore(rows: seq<Row>, row: Row, kind: Kind)
    ensures Ids(rows + [row], kind)
      == if row.Plain? && row.kind == kind then Ids(rows, kind) + [row.id] else Ids(rows, kind)
    ensures Jsons(rows + [row]) == if row.Json? then Jsons(rows) + [row.json] else Jsons(rows)
  {
    assert (rows + [row])[..|rows|] == rows;
  }

  lemma {:induction false} SectionsCount(rows: seq<Row>)
    ensures Sections(rows).TotalRows() == |rows|
    decreases |rows|
  {
    hide Ids, Jsons;
    if rows == [] {
      NothingWaits();
    } else {
      var last, earlier := rows[|rows| - 1], rows[..|rows| - 1];
      SectionsCount(earlier);
      assert rows == earlier + [last];
      forall kind
        ensures |Ids(rows, kind)| == |Ids(earlier, kind)| + if last.Plain? && last.kind == kind then 1 else 0
      {
        IdsOneMore(earlier, last, kind);
      }
      IdsOneMore(earlier, last, Scalar);
    }
  }

  lemma NothingWaits()
    ensures Jsons([]) == [] && forall kind :: Ids([], kind) == []
  {
  }

  /** Splitting rows into sections neither adds, drops nor changes one. */
  lemma {:induction false} SectionsHoldTheRows(rows: seq<Row>, kind: Kind, id: int, json: JsonRow)
    ensures Sections(rows).TotalRows() == |rows|
    ensures multiset(rows)[Plain(kind, id)] == multiset(Ids(rows, kind))[id]
    ensures multiset(rows)[Json(json)] == multiset(Jsons(rows))[json]
    decreases |rows|
  {
    SectionsCount(rows);
    hide Ids, Jsons, Sections;
    if rows == [] {
      NothingWaits();
    } else {
      var last, earlier := rows[|rows| - 1], rows[..|rows| - 1];
      SectionsHoldTheRows(earlier, kind, id, json);
      assert rows == earlier + [last];
      IdsOneMore(earlier, last, kind);
    }
  }

  /** What becomes of a row: in a COPY that is committed, kept for a retry, in a COPY that is lost, or in no COPY. */
  datatype Fate = Committed | Kept | Gone | Missed

  function FateOf(result: SendResult): Fate {
    match result
    case Sent => Committed
    case Transient => Kept
    case Permanent => Gone
  }

  function Threshold(kind: Kind): Option<nat> {
    if kind == ArrayStr || kind == Image then None else Some(PARALLEL_THRESHOLD)
  }

  function AnswersTo(answers: Answers, kind: Kind): nat -> SendResult {
    match kind
    case Scalar => answers.scalar
    case Text => answers.text
    case ArrayNum => answers.arrayNum
    case ArrayStr => answers.arrayStr
    case Image => answers.image
  }

  function SectionChunk(rows: seq<Row>, connections: nat, kind: Kind): nat {
    ChunkSize(|Ids(rows, kind)|, Threshold(kind), connections)
  }

  /** The fate of the row at a position: its chunk's answer, or its table's. */
  function FateAt(rows: seq<Row>, connections: nat, answers: Answers, p: nat): Fate
    requires p < |rows|
  {
    match rows[p]
    case Plain(kind, _) =>
      var size := SectionChunk(rows, connections, kind);
      if size == 0 then Missed else FateOf(AnswersTo(answers, kind)(ChunkOf(|Ids(rows[..p], kind)|, size)))
    case Json(json) =>
      if Retained(Jsons(rows), answers.json, json.table) then Kept
      else if Produces(json) then FateOf(answers.json(json.table))
      else Missed
  }

  function Fates(rows: seq<Row>, connections: nat, answers: Answers): nat -> Fate {
    (p: nat) => if p < |rows| then FateAt(rows, connections, answers, p) else Missed
  }

  /** The rows, in order, that met a given end. */
  function Ended(rows: seq<Row>, fate: nat -> Fate, end: Fate): seq<Row>
    decreases |rows|
  {
    if rows == [] then []
    else
      var p := |rows| - 1;
      Ended(rows[..p], fate, end) + if fate(p) == end then [rows[p]] else []
  }

  lemma EndedMore(rows: seq<Row>, row: Row, fate: nat -> Fate, end: Fate)
    ensures Ended(rows + [row], fate, end)
      == if fate(|rows|) == end then Ended(rows, fate, end) + [row] else Ended(rows, fate, end)
  {
    assert (rows + [row])[..|rows|] == rows;
  }

  lemma NothingEnded(fate: nat -> Fate)
    ensures forall end :: Ended([], fate, end) == []
  {
  }

  /** A list of rows split in four. */
  ghost predicate SplitInFour(rows: seq<Row>, a: seq<Row>, b: seq<Row>, c: seq<Row>, d: seq<Row>) {
    && multiset(a) + multiset(b) + multiset(c) + multiset(d) == multiset(rows)
    && |a| + |b| + |c| + |d| == |rows|
  }

  lemma InOneOfFour(rows: seq<Row>, a: seq<Row>, b: seq<Row>, c: seq<Row>, d: seq<Row>, row: Row)
    requires SplitInFour(rows, a, b, c, d)
    ensures SplitInFour(rows + [row], a + [row], b, c, d)
    ensures SplitInFour(rows + [row], a, b + [row], c, d)
    ensures SplitInFour(rows + [row], a, b, c + [row], d)
    ensures SplitInFour(rows + [row], a, b, c, d + [row])
  {
  }

  /** Every row has one of the four fates. */
  lemma {:induction false} FourFates(rows: seq<Row>, fate: nat -> Fate)
    ensures SplitInFour(rows, Ended(rows, fate, Committed), Ended(rows, fate, Kept), Ended(rows, fate, Gone),
                        Ended(rows, fate, Missed))
    decreases |rows|
  {
    hide Ended;
    if rows == [] {
      NothingEnded(fate);
    } else {
      hide SplitInFour;
      var row, earlier := rows[|rows| - 1], rows[..|rows| - 1];
      FourFates(earlier, fate);
      assert rows == earlier + [row];
      EndedMore(earlier, row, fate, Committed);
      EndedMore(earlier, row, fate, Kept);
      EndedMore(earlier, row, fate, Gone);
      EndedMore(earlier, row, fate, Missed);
      InOneOfFour(earlier, Ended(earlier, fate, Committed), Ended(earlier, fate, Kept), Ended(earlier, fate, Gone),
                  Ended(earlier, fate, Missed), row);
    }
  }

  /** The database rows a row comes to, and is counted as. */
  function Weight(row: Row): nat {
    if row.Json? && TakenApart(row.json.table) then row.json.elements else 1
  }

  function Weights(rows: seq<Row>): nat
    decreases |rows|
  {
    if rows == [] then 0 else Weights(rows[..|rows| - 1]) + Weight(rows[|rows| - 1])
  }

  function JsonWeights(rows: seq<JsonRow>): nat
    decreases |rows|
  {
    if rows == [] then 0 else JsonWeights(rows[..|rows| - 1]) + Weight(Json(rows[|rows| - 1]))
  }

  lemma WeightsOneMore(rows: seq<Row>, row: Row)
    ensures Weights(rows + [row]) == Weights(rows) + Weight(row)
  {
    assert (rows + [row])[..|rows|] == rows;
  }

  lemma JsonWeightsOneMore(rows: seq<JsonRow>, row: JsonRow)
    ensures JsonWeights(rows + [row]) == JsonWeights(rows) + Weight(Json(row))
  {
    assert (rows + [row])[..|rows|] == rows;
  }

  /** How many rows go into the sections other than that of the JSON rows. */
  function PlainRows(rows: seq<Row>): nat {
    Sections(rows).(json := []).TotalRows()
  }

  lemma PlainRowsOneMore(rows: seq<Row>, row: Row)
    ensures PlainRows([]) == 0
    ensures PlainRows(rows + [row]) == PlainRows(rows) + if row.Plain? then 1 else 0
  {
    hide Ids, Jsons;
    NothingWaits();
    IdsOneMore(rows, row, Scalar);
    IdsOneMore(rows, row, Text);
    IdsOneMore(rows, row, ArrayNum);
    IdsOneMore(rows, row, ArrayStr);
    IdsOneMore(rows, row, Image);
  }

  lemma {:induction false} WeightsBySection(rows: seq<Row>)
    ensures Weights(rows) == PlainRows(rows) + JsonWeights(Jsons(rows))
    decreases |rows|
  {
    hide Weights, PlainRows, JsonWeights, Jsons;
    if rows == [] {
      NothingWeighs();
      PlainRowsOneMore([], Plain(Scalar, 0));
    } else {
      var row, earlier := rows[|rows| - 1], rows[..|rows| - 1];
      WeightsBySection(earlier);
      assert rows == earlier + [row];
      PlainRowsOneMore(earlier, row);
      WeightsOneMore(earlier, row);
      IdsOneMore(earlier, row, Scalar);
      if row.Json? {
        JsonWeightsOneMore(Jsons(earlier), row.json);
      }
    }
  }

  lemma NothingWeighs()
    ensures Weights([]) == 0 && JsonWeights([]) == 0 && Jsons([]) == []
  {
  }

  // ---- The fates describe the flush ----

  lemma {:induction false} IdsGrow(rows: seq<Row>, p: nat, kind: Kind)
    requires p <= |rows|
    ensures |Ids(rows[..p], kind)| <= |Ids(rows, kind)|
    decreases |rows|
  {
    if p < |rows| {
      IdsGrow(rows[..|rows| - 1], p, kind);
      assert rows[..|rows| - 1][..p] == rows[..p];
    } else {
      assert rows[..p] == rows;
    }
  }

  lemma SectionOfRow(rows: seq<Row>, connections: nat, p: nat, kind: Kind)
    requires p < |rows| && rows[p].Plain? && rows[p].kind == kind
    ensures SectionChunk(rows, connections, kind) > 0
  {
    IdsGrow(rows, p + 1, kind);
    assert rows[..p + 1] == rows[..p] + [rows[p]];
    IdsOneMore(rows[..p], rows[p], kind);
  }

  lemma FateOfPlain(rows: seq<Row>, connections: nat, answers: Answers, p: nat)
    requires p < |rows| && rows[p].Plain?
    ensures var kind := rows[p].kind; var size := SectionChunk(rows, connections, kind);
      && size > 0
      && Fates(rows, connections, answers)(p)
        == FateOf(AnswersTo(answers, kind)(ChunkOf(|Ids(rows[..p], kind)|, size)))
  {
    SectionOfRow(rows, connections, p, rows[p].kind);
  }

  lemma {:induction false} JsonInJsons(rows: seq<Row>, row: Row)
    requires row in rows && row.Json?
    ensures row.json in Jsons(rows)
    decreases |rows|
  {
    if rows[|rows| - 1] != row {
      JsonInJsons(rows[..|rows| - 1], row);
    }
  }

  /** A JSON row is kept with its table, or else has its table's answer if it produces anything. */
  lemma FateOfJson(rows: seq<Row>, connections: nat, answers: Answers, p: nat)
    requires p < |rows| && rows[p].Json?
    ensures var json, fate := rows[p].json, Fates(rows, connections, answers)(p);
      && (fate == Committed <==> Produces(json) && answers.json(json.table) == Sent)
      && (fate == Gone <==> Produces(json) && answers.json(json.table) == Permanent)
      && (fate == Kept <==> json.table in RetainedAmong(Jsons(rows), answers.json, PLAN))
  {
    PlanIsComplete();
    JsonInJsons(rows, rows[p]);
    if Produces(rows[p].json) {
      RowGivesUnits(Jsons(rows), rows[p].json);
    }
  }

  /** The least number of rows that so many pieces of it cover all rows. */
  lemma ShareIsLeast(count: nat, connections: nat, share: nat)
    requires count > 0 && connections > 0
    ensures share == Pieces(count, connections) <==>
      share > 0 && share * connections >= count && (share - 1) * connections < count
  {
    PiecesCover(count, connections);
    var least := Pieces(count, connections);
    hide Pieces;
    assert (least - 1) * connections == least * connections - connections;
    if share < least {
      Longer(share, least - 1, connections);
    } else if share > least {
      Longer(least, share - 1, connections);
    }
  }

  /**
   * Which COPY a row is in and what its answer makes of it. The scalars, the texts and the
   * numeric arrays go out in parallel when there are 10,000 of them or more and more than one
   * connection: then each connection has the least equal share that covers all, in order, and
   * the row has the answer of its share. Otherwise the section has one answer.
   */
  lemma FateByAnswer(rows: seq<Row>, connections: nat, answers: Answers, p: nat, share: nat, chunk: nat)
    requires p < |rows| && rows[p].Plain?
    ensures var kind := rows[p].kind; var count, before := |Ids(rows, kind)|, |Ids(rows[..p], kind)|;
      var answer := (n: nat) => match kind
        case Scalar => answers.scalar(n)
        case Text => answers.text(n)
        case ArrayNum => answers.arrayNum(n)
        case ArrayStr => answers.arrayStr(n)
        case Image => answers.image(n);
      var end := (result: SendResult) =>
        match result case Sent => Committed case Transient => Kept case Permanent => Gone;
      && ((kind == Scalar || kind == Text || kind == ArrayNum) && count >= 10_000 && connections > 1
          && share > 0 && share * connections >= count && (share - 1) * connections < count
          && chunk * share <= before < chunk * share + share
          ==> Fates(rows, connections, answers)(p) == end(answer(chunk)))
      && (kind == ArrayStr || kind == Image || count < 10_000 || connections <= 1
          ==> Fates(rows, connections, answers)(p) == end(answer(0)))
  {
    hide Fates, Ids, ChunkOf, Pieces;
    var kind := rows[p].kind;
    FateOfPlain(rows, connections, answers, p);
    IdsGrow(rows, p + 1, kind);
    assert rows[..p + 1] == rows[..p] + [rows[p]];
    IdsOneMore(rows[..p], rows[p], kind);
    var count, before := |Ids(rows, kind)|, |Ids(rows[..p], kind)|;
    if Threshold(kind).Some? && count >= 10_000 && connections > 1 {
      ShareIsLeast(count, connections, share);
      if share > 0 && chunk * share <= before < chunk * share + share {
        InChunk(before, chunk, share);
      }
    } else {
      InChunk(before, 0, count);
    }
  }

  /** What a JSON row comes to, table by table, and what the answer to its table makes of it. */
  lemma FateByTable(rows: seq<Row>, connections: nat, answers: Answers, p: nat)
    requires p < |rows| && rows[p].Json?
    ensures var json, fate := rows[p].json, Fates(rows, connections, answers)(p);
      var elements := json.table == NameValue || json.table == Histogram || json.table == Continuum
                      || json.table == Multi;
      && Weight(rows[p]) == (if elements then json.elements else 1)
      && (answers.json(json.table) == Sent ==> fate == if elements && json.elements == 0 then Missed else Committed)
      && (answers.json(json.table) == Permanent ==> fate == if elements && json.elements == 0 then Missed else Gone)
      && (answers.json(json.table) == Transient ==>
            (fate == Kept <==>
              exists q | 0 <= q < |Jsons(rows)| ::
                Jsons(rows)[q].table == json.table && (elements ==> Jsons(rows)[q].elements > 0)))
  {
    var json := rows[p].json;
    FateOfJson(rows, connections, answers, p);
    PlanIsComplete();
    SomeUnits(Jsons(rows), json.table);
    hide Fates, Jsons, Units;
  }

  /** A table has units when one of its rows produces something. */
  lemma {:induction false} SomeUnits(rows: seq<JsonRow>, table: JsonTable)
    ensures Units(rows, table) > 0 <==>
      exists q | 0 <= q < |rows| :: rows[q].table == table && (TakenApart(table) ==> rows[q].elements > 0)
    decreases |rows|
  {
    if rows != [] {
      var last, earlier := rows[|rows| - 1], rows[..|rows| - 1];
      SomeUnits(earlier, table);
      assert rows == earlier + [last];
      InOneMore(earlier, last, table);
      hide RowsIn, ElementsIn;
      if q :| 0 <= q < |earlier| && earlier[q].table == table && (TakenApart(table) ==> earlier[q].elements > 0) {
        assert rows[q] == earlier[q];
      }
      if q :| 0 <= q < |rows| && rows[q].table == table && (TakenApart(table) ==> rows[q].elements > 0) {
        assert q == |earlier| || rows[q] == earlier[q];
      }
    }
  }

  lemma MeetingMore<T>(rows: seq<T>, row: T, size: nat, send: nat -> SendResult, result: SendResult)
    requires size > 0
    ensures Meeting(rows + [row], size, send, result)
      == if send(ChunkOf(|rows|, size)) == result then Meeting(rows, size, send, result) + [row]
         else Meeting(rows, size, send, result)
  {
    assert (rows + [row])[..|rows|] == rows;
    MeetingLast(rows + [row], size, send, result);
  }

  lemma NothingThere(kind: Kind, size: nat, send: nat -> SendResult, result: SendResult)
    requires size > 0
    ensures Ids([], kind) == [] && Jsons([]) == []
    ensures Meeting<int>([], size, send, result) == []
  {
  }

  /** One section of the rows that met an end is what the flush of that section gives. */
  lemma {:induction false} EndedSection(rows: seq<Row>, connections: nat, answers: Answers, p: nat, kind: Kind,
                                       result: SendResult)
    requires p <= |rows|
    ensures var size, ended := SectionChunk(rows, connections, kind),
                               Ended(rows[..p], Fates(rows, connections, answers), FateOf(result));
      Ids(ended, kind) == if size == 0 then [] else Meeting(Ids(rows[..p], kind), size, AnswersTo(answers, kind), result)
    decreases p
  {
    hide Fates, FateAt, SectionChunk, AnswersTo, ChunkOf, Ended, Ids, Meeting;
    var fate, size, send := Fates(rows, connections, answers), SectionChunk(rows, connections, kind),
                            AnswersTo(answers, kind);
    if p == 0 {
      assert rows[..0] == [];
      NothingEnded(fate);
      NothingThere(kind, if size == 0 then 1 else size, send, result);
    } else {
      EndedSection(rows, connections, answers, p - 1, kind, result);
      var before, row := rows[..p - 1], rows[p - 1];
      assert rows[..p] == before + [row];
      EndedMore(before, row, fate, FateOf(result));
      IdsOneMore(before, row, kind);
      IdsOneMore(Ended(before, fate, FateOf(result)), row, kind);
      if row.Plain? && row.kind == kind {
        FateOfPlain(rows, connections, answers, p - 1);
        MeetingMore(Ids(before, kind), row.id, size, send, result);
      }
    }
  }

  lemma ReachingMore(rows: seq<JsonRow>, row: JsonRow, send: JsonTable -> SendResult, result: SendResult)
    ensures Reaching([], send, result) == []
    ensures Reaching(rows + [row], send, result)
      == if Produces(row) && send(row.table) == result then Reaching(rows, send, result) + [row]
         else Reaching(rows, send, result)
  {
    assert (rows + [row])[..|rows|] == rows;
  }

  lemma OfTablesMore(rows: seq<JsonRow>, row: JsonRow, tables: set<JsonTable>)
    ensures RowsOfTables([], tables) == []
    ensures RowsOfTables(rows + [row], tables)
      == if row.table in tables then RowsOfTables(rows, tables) + [row] else RowsOfTables(rows, tables)
  {
    assert (rows + [row])[..|rows|] == rows;
  }

  lemma {:induction false} EndedJson(rows: seq<Row>, connections: nat, answers: Answers, p: nat, result: SendResult)
    requires p <= |rows|
    ensures var ended := Ended(rows[..p], Fates(rows, connections, answers), FateOf(result));
      Jsons(ended)
        == if result == Transient then RowsOfTables(Jsons(rows[..p]), RetainedAmong(Jsons(rows), answers.json, PLAN))
           else Reaching(Jsons(rows[..p]), answers.json, result)
    decreases p
  {
    hide Fates, FateAt, Ended, Jsons, Ids, Reaching, RowsOfTables, RetainedAmong, Produces;
    var fate, kept := Fates(rows, connections, answers), RetainedAmong(Jsons(rows), answers.json, PLAN);
    if p == 0 {
      assert rows[..0] == [];
      NothingEnded(fate);
      NothingThere(Scalar, 1, answers.scalar, result);
      ReachingMore([], JsonRow(0, Table, 0), answers.json, result);
      OfTablesMore([], JsonRow(0, Table, 0), kept);
    } else {
      EndedJson(rows, connections, answers, p - 1, result);
      var before, row := rows[..p - 1], rows[p - 1];
      assert rows[..p] == before + [row];
      EndedMore(before, row, fate, FateOf(result));
      IdsOneMore(before, row, Scalar);
      IdsOneMore(Ended(before, fate, FateOf(result)), row, Scalar);
      if row.Json? {
        FateOfJson(rows, connections, answers, p - 1);
        ReachingMore(Jsons(before), row.json, answers.json, result);
        OfTablesMore(Jsons(before), row.json, kept);
      }
    }
  }

  lemma {:induction false} UnitsOneMore(rows: seq<JsonRow>, row: JsonRow, send: JsonTable -> SendResult,
                                       result: SendResult, tables: seq<JsonTable>)
    requires NoneTwice(tables)
    ensures UnitsMeeting(rows + [row], send, result, tables)
      == UnitsMeeting(rows, send, result, tables)
         + if row.table in tables && send(row.table) == result then Weight(Json(row)) else 0
    decreases |tables|
  {
    if tables != [] {
      var last, earlier := tables[|tables| - 1], tables[..|tables| - 1];
      UnitsOneMore(rows, row, send, result, earlier);
      InOneMore(rows, row, last);
      assert tables == earlier + [last];
      hide RowsIn, ElementsIn;
    }
  }

  /** The units counted for a result are the weights of the rows that were in a COPY with it. */
  lemma {:induction false} UnitsAreWeights(rows: seq<JsonRow>, send: JsonTable -> SendResult, result: SendResult)
    ensures UnitsMeeting(rows, send, result, PLAN) == JsonWeights(Reaching(rows, send, result))
    decreases |rows|
  {
    if rows == [] {
      NoUnits(send);
      NoUnitsAmong(rows, send, PLAN);
    } else {
      var row, earlier := rows[|rows| - 1], rows[..|rows| - 1];
      UnitsAreWeights(earlier, send, result);
      assert rows == earlier + [row];
      PlanIsComplete();
      UnitsOneMore(earlier, row, send, result, PLAN);
      ReachingMore(earlier, row, send, result);
      JsonWeightsOneMore(Reaching(earlier, send, result), row);
      hide UnitsMeeting, JsonWeights, Reaching;
    }
  }

  lemma NothingFated(ids: seq<int>, connections: nat, kind: Kind, send: nat -> SendResult, result: SendResult)
    ensures var size := ChunkSize(|ids|, Threshold(kind), connections);
      Fated(ids, Threshold(kind), connections, send, result)
        == if size == 0 then [] else Meeting(ids, size, send, result)
  {
  }

  lemma EndedBundle(rows: seq<Row>, connections: nat, answers: Answers, result: SendResult)
    ensures var b, ended := Sections(rows), Sections(Ended(rows, Fates(rows, connections, answers), FateOf(result)));
      ended == if result == Transient then KeptBundle(b, connections, answers)
               else FatedBundle(b, connections, answers, result)
  {
    hide Ended, Ids, Meeting, Jsons, Reaching, RowsOfTables;
    assert rows[..|rows|] == rows;
    forall kind
      ensures Ids(Ended(rows, Fates(rows, connections, answers), FateOf(result)), kind)
        == Fated(Ids(rows, kind), Threshold(kind), connections, AnswersTo(answers, kind), result)
    {
      EndedSection(rows, connections, answers, |rows|, kind, result);
      NothingFated(Ids(rows, kind), connections, kind, AnswersTo(answers, kind), result);
    }
    EndedJson(rows, connections, answers, |rows|, result);
  }

  /**
   * Any flush, row by row: its retry bundle holds the rows kept, and its report and its losses
   * are the weights of the rows committed and gone.
   */
  lemma FlushByRows(rows: seq<Row>, connections: nat, answers: Answers)
    ensures var fate, b := Fates(rows, connections, answers), Sections(rows);
      && Sections(Ended(rows, fate, Committed)) == FatedBundle(b, connections, answers, Sent)
      && Sections(Ended(rows, fate, Gone)) == FatedBundle(b, connections, answers, Permanent)
      && Sections(Ended(rows, fate, Kept)) == KeptBundle(b, connections, answers)
      && Weights(Ended(rows, fate, Committed)) == Report(b, connections, answers).Total()
      && Weights(Ended(rows, fate, Gone)) == Lost(b, connections, answers)
  {
    var fate, b := Fates(rows, connections, answers), Sections(rows);
    EndedBundle(rows, connections, answers, Sent);
    EndedBundle(rows, connections, answers, Permanent);
    EndedBundle(rows, connections, answers, Transient);
    WeightsBySection(Ended(rows, fate, Committed));
    WeightsBySection(Ended(rows, fate, Gone));
    UnitsAreWeights(b.json, answers.json, Sent);
    UnitsAreWeights(b.json, answers.json, Permanent);
    hide Fates, FateAt, Ended, Weights, Fated, Reaching, JsonWeights, UnitsMeeting, RowsOfTables, Ids, Jsons;
  }

  /** The fields of the report, the losses and the retry bundle, by the fates of the rows. */
  lemma ReportByKind(rows: seq<Row>, connections: nat, answers: Answers)
    ensures var fate, b := Fates(rows, connections, answers), Sections(rows);
      var sent, report, kept := Ended(rows, fate, Committed), Report(b, connections, answers),
                                Ended(rows, fate, Kept);
      && report.scalar == |Ids(sent, Scalar)| && report.text == |Ids(sent, Text)|
      && report.arrays == |Ids(sent, ArrayNum)| + |Ids(sent, ArrayStr)|
      && report.image == |Ids(sent, Image)| && report.json == JsonWeights(Jsons(sent))
      && KeptBundle(b, connections, answers)
        == FlushBundle(Ids(kept, Scalar), Ids(kept, Text), Ids(kept, ArrayNum), Ids(kept, ArrayStr), Jsons(kept),
                       Ids(kept, Image))
  {
    FlushByRows(rows, connections, answers);
    UnitsAreWeights(Jsons(rows), answers.json, Sent);
    hide Fates, Ended, Ids, Jsons, Fated, Reaching, JsonWeights, UnitsMeeting, RowsOfTables;
  }

  /** Rows at increasing positions: the second list is the first with some left out. */
  ghost predicate LeavesOut<T(!new)>(rows: seq<T>, fewer: seq<T>, at: seq<nat>) {
    && |at| == |fewer| && (forall i | 0 <= i < |at| :: at[i] < |rows| && rows[at[i]] == fewer[i])
    && forall i, j | 0 <= i < j < |at| :: at[i] < at[j]
  }

  lemma LeavesOutMore<T(!new)>(rows: seq<T>, fewer: seq<T>, at: seq<nat>, row: T)
    requires LeavesOut(rows, fewer, at)
    ensures LeavesOut(rows + [row], fewer, at)
    ensures LeavesOut(rows + [row], fewer + [row], at + [|rows|])
  {
  }

  /** The rows that met an end are in the order of the bundle, and are those at the positions with that fate. */
  lemma {:induction false} EndedInOrder(rows: seq<Row>, fate: nat -> Fate, end: Fate) returns (at: seq<nat>)
    ensures LeavesOut(rows, Ended(rows, fate, end), at)
    ensures forall p: nat :: p in at <==> p < |rows| && fate(p) == end
    decreases |rows|
  {
    at := [];
    if rows != [] {
      hide LeavesOut, Ended;
      var last, row, before := |rows| - 1, rows[|rows| - 1], rows[..|rows| - 1];
      var earlier := EndedInOrder(before, fate, end);
      assert rows == before + [row];
      EndedMore(before, row, fate, end);
      LeavesOutMore(before, Ended(before, fate, end), earlier, row);
      at := if fate(last) == end then earlier + [last] else earlier;
      assert forall p: nat :: p in at <==> p in earlier || (fate(last) == end && p == last);
    }
  }

  // ---- When rows and counts agree ----

  /** Each of the rows comes to one database row. */
  predicate OneEachRow(rows: seq<Row>) {
    forall row | row in rows :: Weight(row) == 1
  }

  lemma {:induction false} OneEachCounts(rows: seq<Row>)
    ensures OneEachRow(rows) ==> Weights(rows) == |rows|
    ensures (forall row | row in rows :: Weight(row) >= 1) ==>
      Weights(rows) >= |rows| && (Weights(rows) == |rows| ==> OneEachRow(rows))
    decreases |rows|
  {
    if rows != [] {
      var row, earlier := rows[|rows| - 1], rows[..|rows| - 1];
      OneEachCounts(earlier);
      assert rows == earlier + [row] && row in rows;
      assert forall r | r in rows :: r in earlier || r == row;
      assert forall r | r in earlier :: r in rows;
    }
  }

  lemma {:induction false} EndedAreRows(rows: seq<Row>, fate: nat -> Fate, end: Fate)
    ensures forall row | row in Ended(rows, fate, end) :: row in rows
    decreases |rows|
  {
    if rows != [] {
      EndedAreRows(rows[..|rows| - 1], fate, end);
    }
  }

  /** No row is in no COPY, and the report and the losses are numbers of rows. */
  ghost predicate RowsAreCounted(rows: seq<Row>, connections: nat, answers: Answers) {
    var fate, b := Fates(rows, connections, answers), Sections(rows);
    && Ended(rows, fate, Missed) == []
    && Report(b, connections, answers).Total() == |Ended(rows, fate, Committed)|
    && Lost(b, connections, answers) == |Ended(rows, fate, Gone)|
  }

  lemma {:induction false} NoneMissed(rows: seq<Row>, fate: nat -> Fate)
    requires forall p: nat | p < |rows| :: fate(p) != Missed
    ensures Ended(rows, fate, Missed) == []
    decreases |rows|
  {
    if rows != [] {
      NoneMissed(rows[..|rows| - 1], fate);
    }
  }

  lemma OneEachIsCounted(rows: seq<Row>, connections: nat, answers: Answers)
    requires OneEachRow(rows)
    ensures RowsAreCounted(rows, connections, answers)
  {
    var fate := Fates(rows, connections, answers);
    forall p: nat | p < |rows|
      ensures fate(p) != Missed
    {
      assert Weight(rows[p]) == 1;
      if rows[p].Plain? {
        FateOfPlain(rows, connections, answers, p);
      } else {
        FateOfJson(rows, connections, answers, p);
      }
    }
    NoneMissed(rows, fate);
    FlushByRows(rows, connections, answers);
    EndedAreRows(rows, fate, Committed);
    EndedAreRows(rows, fate, Gone);
    OneEachCounts(Ended(rows, fate, Committed));
    OneEachCounts(Ended(rows, fate, Gone));
  }

  /** The rows that come to anything in the database. */
  function Producing(rows: seq<Row>): seq<Row>
    decreases |rows|
  {
    if rows == [] then []
    else Producing(rows[..|rows| - 1]) + if Weight(rows[|rows| - 1]) > 0 then [rows[|rows| - 1]] else []
  }

  /** The database takes every COPY. */
  ghost predicate TakesAll(answers: Answers) {
    && (forall i: nat :: answers.scalar(i) == Sent) && (forall i: nat :: answers.text(i) == Sent)
    && (forall i: nat :: answers.arrayNum(i) == Sent) && (forall i: nat :: answers.arrayStr(i) == Sent)
    && (forall t: JsonTable :: answers.json(t) == Sent) && (forall i: nat :: answers.image(i) == Sent)
  }

  const ALL_SENT := Answers((_: nat) => Sent, (_: nat) => Sent, (_: nat) => Sent, (_: nat) => Sent,
                            (_: JsonTable) => Sent, (_: nat) => Sent)

  /** When everything is sent, a row is committed if it comes to anything and in no COPY otherwise. */
  lemma AllSentFates(rows: seq<Row>, connections: nat, answers: Answers, p: nat)
    requires p < |rows| && TakesAll(answers)
    ensures Fates(rows, connections, answers)(p) == if Weight(rows[p]) > 0 then Committed else Missed
  {
    if rows[p].Plain? {
      FateOfPlain(rows, connections, answers, p);
    } else {
      FateOfJson(rows, connections, answers, p);
    }
  }

  lemma {:induction false} EverythingCommitted(rows: seq<Row>, fate: nat -> Fate)
    requires forall p: nat | p < |rows| :: fate(p) == if Weight(rows[p]) > 0 then Committed else Missed
    ensures Ended(rows, fate, Committed) == Producing(rows)
    ensures Ended(rows, fate, Gone) == [] && Ended(rows, fate, Kept) == []
    decreases |rows|
  {
    if rows != [] {
      EverythingCommitted(rows[..|rows| - 1], fate);
    }
  }

  /** A flush of which the database takes every COPY commits every row that comes to anything, and no other end is met. */
  lemma AllSentCommits(rows: seq<Row>, connections: nat, answers: Answers)
    requires TakesAll(answers)
    ensures var fate := Fates(rows, connections, answers);
      Ended(rows, fate, Committed) == Producing(rows) && Ended(rows, fate, Gone) == [] && Ended(rows, fate, Kept) == []
  {
    forall p: nat | p < |rows|
      ensures Fates(rows, connections, answers)(p) == if Weight(rows[p]) > 0 then Committed else Missed
    {
      AllSentFates(rows, connections, answers, p);
    }
    EverythingCommitted(rows, Fates(rows, connections, answers));
  }

  lemma {:induction false} ProducingJoins(a: seq<Row>, b: seq<Row>)
    ensures Producing(a + b) == Producing(a) + Producing(b)
    decreases |b|
  {
    if b == [] {
      assert a + b == a;
    } else {
      ProducingJoins(a, b[..|b| - 1]);
      assert (a + b)[..|a + b| - 1] == a + b[..|b| - 1];
    }
  }

  /** What produces nothing weighs nothing. */
  lemma {:induction false} ProducingWeighs(rows: seq<Row>)
    ensures Weights(Producing(rows)) == Weights(rows)
    decreases |rows|
  {
    if rows != [] {
      var row, earlier := rows[|rows| - 1], rows[..|rows| - 1];
      ProducingWeighs(earlier);
      WeightsOneMore(Producing(earlier), row);
      assert Producing(earlier) + [] == Producing(earlier);
    }
  }

  lemma ProducingOneMore(rows: seq<Row>, row: Row)
    ensures Producing(rows + [row]) == if Weight(row) > 0 then Producing(rows) + [row] else Producing(rows)
  {
    assert (rows + [row])[..|rows|] == rows;
  }

  /** When all rows produce something, they are the rows that do, and there are fewer of these otherwise. */
  lemma {:induction false} AllProducing(rows: seq<Row>)
    ensures |Producing(rows)| <= |rows|
    ensures (forall i | 0 <= i < |rows| :: Weight(rows[i]) > 0) ==> Producing(rows) == rows
    ensures |Producing(rows)| == |rows| ==> forall i | 0 <= i < |rows| :: Weight(rows[i]) > 0
    decreases |rows|
  {
    if rows != [] {
      hide Producing;
      var row, earlier := rows[|rows| - 1], rows[..|rows| - 1];
      AllProducing(earlier);
      assert rows == earlier + [row];
      ProducingOneMore(earlier, row);
    }
  }

  /** A flush that sends everything shows whether each row comes to one database row. */
  lemma AllSentTellsRows(rows: seq<Row>)
    requires RowsAreCounted(rows, 1, ALL_SENT)
    ensures OneEachRow(rows)
  {
    hide Fates, Ended, Producing, Sections, Report, Lost, KeptBundle, FatedBundle, Weights;
    var fate := Fates(rows, 1, ALL_SENT);
    AllSentCommits(rows, 1, ALL_SENT);
    FourFates(rows, fate);
    AllProducing(rows);
    FlushByRows(rows, 1, ALL_SENT);
    assert Producing(rows) == rows && Weights(rows) == |rows|;
    OneEachCounts(rows);
  }

  /**
   * Whatever the database answers, every row of a bundle is committed, kept or lost and
   * counted as one, exactly when each row comes to one database row.
   */
  lemma FlushByRowsIff(rows: seq<Row>)
    ensures (forall connections: nat, answers: Answers :: RowsAreCounted(rows, connections, answers))
      <==> OneEachRow(rows)
  {
    if OneEachRow(rows) {
      forall connections: nat, answers: Answers
        ensures RowsAreCounted(rows, connections, answers)
      {
        OneEachIsCounted(rows, connections, answers);
      }
    } else if RowsAreCounted(rows, 1, ALL_SENT) {
      AllSentTellsRows(rows);
    }
  }
}
