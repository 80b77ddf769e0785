/**
 * The byte limit of the writer's buffers for strings, arrays, JSON documents and images.
 * A buffer refuses a push that would take its count of bytes past the limit; taking the
 * rows out for a flush in the background does not lower that count.
 */
module Buffers {
  datatype PushResult = Accepted | Full | BackpressureExceeded

  /** What one push brings: one row, or one row for each element of an array, and its bytes. */
  datatype Capture = Capture(rows: seq<int>, bytes: nat)

  /** Every row takes memory. */
  predicate Real(c: Capture) {
    c.rows != [] ==> c.bytes > 0
  }

  /** What happens to a buffer. A flush of its own is sent or fails. */
  datatype Event = Push(capture: Capture) | Take | Flush(sent: bool) | Discard

  /**
   * A buffer by its captures: those it holds, those taken from it since its count of bytes
   * was last zeroed, and those it has refused.
   */
  datatype State = State(held: seq<Capture>, carried: seq<Capture>, refused: seq<Capture>)

  const EMPTY := State([], [], [])

  function Bytes(captures: seq<Capture>): nat
    decreases |captures|
  {
    if captures == [] then 0 else Bytes(captures[..|captures| - 1]) + captures[|captures| - 1].bytes
  }

  function RowsOf(captures: seq<Capture>): seq<int>
    decreases |captures|
  {
    if captures == [] then [] else RowsOf(captures[..|captures| - 1]) + captures[|captures| - 1].rows
  }

  /** The bytes counted against the limit. */
  function Counted(s: State): nat {
    Bytes(s.carried) + Bytes(s.held)
  }

  predicate Refuses(max: nat, s: State, c: Capture) {
    s.held != [] && c.rows != [] && Counted(s) + c.bytes > max
  }

  /** What the limit is for: the buffer would hold more than it allows. */
  predicate WouldPass(max: nat, s: State, c: Capture) {
    Bytes(s.held) + c.bytes > max
  }

  function After(max: nat, s: State, e: Event): State {
    match e
    case Push(c) =>
      if c.rows == [] then s
      else if Refuses(max, s, c) then s.(refused := s.refused + [c])
      else s.(held := s.held + [c])
    case Take => s.(held := [], carried := s.carried + s.held)
    case Flush(sent) => if s.held != [] && sent then s.(held := [], carried := []) else s
    case Discard => s.(held := [], carried := [])
  }

  function AfterAll(max: nat, s: State, events: seq<Event>): State
    decreases |events|
  {
    if events == [] then s else After(max, AfterAll(max, s, events[..|events| - 1]), events[|events| - 1])
  }

  lemma OneCaptureMore(captures: seq<Capture>, c: Capture)
    ensures Bytes(captures + [c]) == Bytes(captures) + c.bytes
    ensures RowsOf(captures + [c]) == RowsOf(captures) + c.rows
  {
    assert (captures + [c])[..|captures|] == captures;
  }

  lemma OneEventMore(max: nat, s: State, events: seq<Event>, e: Event)
    ensures AfterAll(max, s, []) == s
    ensures AfterAll(max, s, events + [e]) == After(max, AfterAll(max, s, events), e)
  {
    assert (events + [e])[..|events|] == events;
  }

  lemma {:induction false} BytesJoin(a: seq<Capture>, b: seq<Capture>)
    ensures Bytes(a + b) == Bytes(a) + Bytes(b)
    decreases |b|
  {
    if b == [] {
      assert a + b == a;
    } else {
      var shorter, c := b[..|b| - 1], b[|b| - 1];
      BytesJoin(a, shorter);
      assert a + b == (a + shorter) + [c] && b == shorter + [c];
      OneCaptureMore(a + shorter, c);
      OneCaptureMore(shorter, c);
    }
  }

  // -------------------------------------------------------------------------
  // When a refusal is for the limit
  // -------------------------------------------------------------------------

  /**
   * A buffer refuses a capture only when what it holds would pass the limit, whatever comes
   * next, exactly when it is empty, nothing was taken from it since its count was zeroed, or
   * what it holds has reached the limit.
   */
  lemma RefusesForTheLimitIff(max: nat, s: State)
    ensures (forall c | Real(c) :: Refuses(max, s, c) ==> WouldPass(max, s, c))
      <==> s.held == [] || Bytes(s.carried) == 0 || Bytes(s.held) >= max
  {
    if s.held != [] && Bytes(s.carried) > 0 && Bytes(s.held) < max {
      var c := Capture([0], max - Bytes(s.held));
      assert Real(c) && Refuses(max, s, c) && !WouldPass(max, s, c);
    }
  }

  /** A capture refused by a buffer that holds 10 bytes of 1024. */
  lemma RefusedWithRoom(id: int)
    ensures var large, small, next := Capture([id], 1000), Capture([id], 10), Capture([id], 20);
      var s := AfterAll(1024, EMPTY, [Push(large), Take, Push(small)]);
      && s == State([small], [large], []) && After(1024, s, Push(next)).refused == [next]
      && !WouldPass(1024, s, next)
  {
    hide AfterAll;
    var large, small := Capture([id], 1000), Capture([id], 10);
    OneCaptureMore([], large);
    OneCaptureMore([], small);
    assert [] + [large] == [large] && [] + [small] == [small];
    OneEventMore(1024, EMPTY, [], Push(large));
    assert [] + [Push(large)] == [Push(large)];
    OneEventMore(1024, EMPTY, [Push(large)], Take);
    assert [Push(large)] + [Take] == [Push(large), Take];
    OneEventMore(1024, EMPTY, [Push(large), Take], Push(small));
    assert [Push(large), Take] + [Push(small)] == [Push(large), Take, Push(small)];
  }

  // -------------------------------------------------------------------------
  // Once the limit is reached
  // -------------------------------------------------------------------------

  function Takes(events: seq<Event>): nat
    decreases |events|
  {
    if events == [] then 0 else Takes(events[..|events| - 1]) + if events[|events| - 1].Take? then 1 else 0
  }

  /** The captures pushed, without those that bring nothing. */
  function Pushes(events: seq<Event>): seq<Capture>
    decreases |events|
  {
    if events == [] then []
    else
      var last := events[|events| - 1];
      Pushes(events[..|events| - 1]) + if last.Push? && last.capture.rows != [] then [last.capture] else []
  }

  /** Only pushes and takes, as in the store loop, and every row takes memory. */
  predicate PushesAndTakes(events: seq<Event>) {
    forall e | e in events :: e.Take? || (e.Push? && Real(e.capture))
  }

  /** Without a flush of its own or a discard, the count never falls, and every capture is taken, held or refused. */
  lemma {:induction false} NothingElsewhere(max: nat, s: State, events: seq<Event>)
    requires PushesAndTakes(events)
    ensures var t := AfterAll(max, s, events);
      && Counted(s) <= Counted(t) && s.carried <= t.carried && s.refused <= t.refused
      && multiset(t.carried + t.held + t.refused) == multiset(s.carried + s.held + s.refused) + multiset(Pushes(events))
    decreases |events|
  {
    hide After, Bytes;
    if events != [] {
      var earlier, last := events[..|events| - 1], events[|events| - 1];
      assert events == earlier + [last];
      NothingElsewhere(max, s, earlier);
      NothingElsewhereByOne(max, AfterAll(max, s, earlier), last);
    }
  }

  lemma NothingElsewhereByOne(max: nat, s: State, e: Event)
    requires e.Take? || e.Push?
    ensures var t := After(max, s, e);
      && Counted(s) <= Counted(t) && s.carried <= t.carried && s.refused <= t.refused
      && multiset(t.carried + t.held + t.refused)
        == multiset(s.carried + s.held + s.refused)
           + if e.Push? && e.capture.rows != [] then multiset{e.capture} else multiset{}
  {
    match e
    case Push(c) =>
      OneCaptureMore(s.held, c);
    case Take =>
      BytesJoin(s.carried, s.held);
  }

  /**
   * Once the limit is reached, a buffer accepts at most one capture between two takes: over
   * any further events, one more than there are takes at most, and it never holds more than
   * one unless it did before.
   */
  lemma {:induction false} OneCaptureATake(max: nat, s: State, events: seq<Event>)
    requires PushesAndTakes(events) && Counted(s) >= max
    ensures var t := AfterAll(max, s, events);
      && |t.held| <= (if |s.held| > 1 then |s.held| else 1)
      && |t.carried| + |t.held|
        <= |s.carried| + |s.held| + Takes(events) + (if s.held == [] then 1 else 0) - (if t.held == [] then 1 else 0)
    decreases |events|
  {
    if events != [] {
      var earlier, last := events[..|events| - 1], events[|events| - 1];
      assert events == earlier + [last] && last in events;
      OneCaptureATake(max, s, earlier);
      NothingElsewhere(max, s, earlier);
      hide Bytes;
    }
  }

  function PushEach(captures: seq<Capture>): seq<Event> {
    seq(|captures|, i requires 0 <= i < |captures| => Push(captures[i]))
  }

  /** Of the captures that come after a take, the first is held and the others are refused. */
  lemma {:induction false} OnlyTheFirst(max: nat, s: State, captures: seq<Capture>)
    requires Counted(s) >= max && s.held == [] && captures != []
    requires forall c | c in captures :: c.rows != [] && Real(c)
    ensures AfterAll(max, s, PushEach(captures)) == s.(held := [captures[0]], refused := s.refused + captures[1..])
    decreases |captures|
  {
    hide After, AfterAll, Counted, Refuses;
    var n := |captures| - 1;
    var earlier, c := captures[..n], captures[n];
    assert captures == earlier + [c] && c in captures && captures[0] in captures;
    assert PushEach(captures) == PushEach(earlier) + [Push(c)];
    OneEventMore(max, s, PushEach(earlier), Push(c));
    FullBuffer(max, s, captures[0], earlier[if n == 0 then 0 else 1..], c);
    if n == 0 {
      assert PushEach(earlier) == [] && captures[1..] == [] && s.refused + [] == s.refused;
    } else {
      assert forall e | e in earlier :: e in captures;
      OnlyTheFirst(max, s, earlier);
      assert captures[1..] == earlier[1..] + [c];
      assert s.refused + earlier[1..] + [c] == s.refused + captures[1..];
    }
  }

  /** A buffer that has counted to the limit takes a capture while it is empty and no other. */
  lemma FullBuffer(max: nat, s: State, first: Capture, refused: seq<Capture>, c: Capture)
    requires Counted(s) >= max && s.held == [] && first.rows != [] && c.rows != [] && Real(c)
    ensures After(max, s, Push(first)) == s.(held := [first])
    ensures After(max, s.(held := [first], refused := s.refused + refused), Push(c))
      == s.(held := [first], refused := s.refused + refused + [c])
  {
    OneCaptureMore([], first);
    assert [] + [first] == [first];
    hide Bytes;
  }

  // -------------------------------------------------------------------------
  // The buffer
  // -------------------------------------------------------------------------

  lemma {:induction false} HeldRows(captures: seq<Capture>)
    requires forall c | c in captures :: c.rows != []
    ensures RowsOf(captures) == [] <==> captures == []
  {
    if captures != [] {
      assert captures[|captures| - 1] in captures;
    }
  }

  function Max(a: nat, b: nat): nat {
    if a < b then b else a
  }

  class Buffer {
    const batchSize: nat
    const maxBufferBytes: nat
    var rows: seq<int>
    var currentBytes: nat
    var totalBackpressure: nat

    /** The captures behind the rows and the count. */
    ghost var view: State

    /** Both settings are raised to a minimum; the limit's is 64 bytes for JSON and 1024 for the others. */
    constructor (batchSize: nat, maxBufferBytes: nat, leastLimit: nat)
      ensures Valid() && view == EMPTY
      ensures this.batchSize == if batchSize < 1 then 1 else batchSize
      ensures this.maxBufferBytes == if maxBufferBytes < leastLimit then leastLimit else maxBufferBytes
    {
      this.batchSize, this.maxBufferBytes := Max(batchSize, 1), Max(maxBufferBytes, leastLimit);
      rows, currentBytes, totalBackpressure, view := [], 0, 0, EMPTY;
    }

    ghost predicate Valid()
      reads this
    {
      && rows == RowsOf(view.held) && currentBytes == Counted(view) && totalBackpressure == |view.refused|
      && forall c | c in view.held :: c.rows != []
    }

    method Push(capture: Capture) returns (result: PushResult)
      requires Valid()
      modifies this
      ensures Valid() && view == After(maxBufferBytes, old(view), Event.Push(capture))
      ensures result == BackpressureExceeded <==>
        capture.rows != [] && old(rows) != [] && old(currentBytes) + capture.bytes > maxBufferBytes
      ensures result == Full <==> capture.rows != [] && result != BackpressureExceeded && |rows| >= batchSize
      ensures rows == old(rows) + if result == BackpressureExceeded then [] else capture.rows
      ensures currentBytes
        == old(currentBytes) + if capture.rows == [] || result == BackpressureExceeded then 0 else capture.bytes
      ensures totalBackpressure == old(totalBackpressure) + if result == BackpressureExceeded then 1 else 0
    {
      HeldRows(view.held);
      if capture.rows == [] {
        return Accepted;
      }
      if rows != [] && currentBytes + capture.bytes > maxBufferBytes {
        totalBackpressure := totalBackpressure + 1;
        view := view.(refused := view.refused + [capture]);
        return BackpressureExceeded;
      }
      OneCaptureMore(view.held, capture);
      currentBytes := currentBytes + capture.bytes;
      rows := rows + capture.rows;
      view := view.(held := view.held + [capture]);
      return if |rows| >= batchSize then Full else Accepted;
    }

    /** Push captures one by one; a refusal is not looked at, and all of them are reported as dispatched. */
    method IngestOtherRows(captures: seq<Capture>) returns (count: nat)
      requires Valid()
      modifies this
      ensures Valid() && count == |captures|
      ensures view == AfterAll(maxBufferBytes, old(view), PushEach(captures))
    {
      ghost var events := PushEach(captures);
      for i := 0 to |captures|
        invariant Valid() && view == AfterAll(maxBufferBytes, old(view), events[..i])
      {
        assert events[..i + 1][..i] == events[..i];
        var _ := Push(captures[i]);
      }
      assert events[..|captures|] == events;
      return |captures|;
    }

    /** The rows go to a flush in the background; the count of bytes stays. */
    method TakeRows() returns (taken: seq<int>)
      requires Valid()
      modifies this
      ensures Valid() && view == After(maxBufferBytes, old(view), Take) && taken == old(rows)
      ensures rows == [] && currentBytes == old(currentBytes) && totalBackpressure == old(totalBackpressure)
    {
      BytesJoin(view.carried, view.held);
      taken, rows := rows, [];
      view := view.(held := [], carried := view.carried + view.held);
    }

    /** A flush of its own, which the database takes or not. */
    method FlushRows(sent: bool) returns (count: nat)
      requires Valid()
      modifies this
      ensures Valid() && view == After(maxBufferBytes, old(view), Event.Flush(sent))
      ensures count == if sent then |old(rows)| else 0
      ensures rows == (if sent then [] else old(rows)) && totalBackpressure == old(totalBackpressure)
      ensures currentBytes == if sent && old(rows) != [] then 0 else old(currentBytes)
    {
      HeldRows(view.held);
      if rows == [] || !sent {
        return 0;
      }
      count := |rows|;
      rows, currentBytes := [], 0;
      view := view.(held := [], carried := []);
    }

    method DiscardRows()
      requires Valid()
      modifies this
      ensures Valid() && view == After(maxBufferBytes, old(view), Event.Discard)
      ensures rows == [] && currentBytes == 0 && totalBackpressure == old(totalBackpressure)
    {
      rows, currentBytes := [], 0;
      view := view.(held := [], carried := []);
    }
  }
}
