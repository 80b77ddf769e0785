/**
 * The configuration poller: it keeps the last enabled snapshot and turns a new
 * one into a list of changes.
 */
module ConfigPollers {
  import opened Wrappers

  /** A row of the configuration table; times are opaque stamps. */
  datatype PvConfig = PvConfig(
    pvName: string,
    description: Option<string>,
    unit: Option<string>,
    heartbeat: real,
    expectedIoc: Option<string>,
    enabled: bool,
    createdAt: Option<int>,
    updatedAt: Option<int>)

  datatype PvChange = Added(config: PvConfig) | Removed(name: string) | Modified(config: PvConfig) {
    function Name(): string {
      if Removed? then name else config.pvName
    }
  }

  type Snapshot = map<string, PvConfig>

  /** The enabled rows by name; of two enabled rows with one name the later stays. */
  function Enabled(rows: seq<PvConfig>): Snapshot
    decreases |rows|
  {
    if rows == [] then map[]
    else
      var last := rows[|rows| - 1];
      var earlier := Enabled(rows[..|rows| - 1]);
      if last.enabled then earlier[last.pvName := last] else earlier
  }

  ghost predicate Keyed(m: Snapshot) {
    forall n | n in m :: m[n].pvName == n && m[n].enabled
  }

  lemma {:induction false} EnabledIsKeyed(rows: seq<PvConfig>)
    ensures Keyed(Enabled(rows))
    ensures forall n :: n in Enabled(rows) <==> exists c :: c in rows && c.enabled && c.pvName == n
    decreases |rows|
  {
    if rows != [] {
      var last, earlier := rows[|rows| - 1], rows[..|rows| - 1];
      EnabledIsKeyed(earlier);
      assert forall c :: c in rows <==> c in earlier || c == last;
    }
  }

  /** Whether a field the archiver acts on differs. */
  predicate ConfigChanged(a: PvConfig, b: PvConfig) {
    a.heartbeat != b.heartbeat || a.enabled != b.enabled || a.expectedIoc != b.expectedIoc
  }

  // -------------------------------------------------------------------------
  // The difference of two snapshots
  // -------------------------------------------------------------------------

  /** The change a name has undergone, if any. */
  function ChangeOf(known: Snapshot, latest: Snapshot, name: string): Option<PvChange> {
    if name in latest then
      if name !in known then Some(Added(latest[name]))
      else if ConfigChanged(known[name], latest[name]) then Some(Modified(latest[name]))
      else None
    else if name in known then Some(Removed(name))
    else None
  }

  /** The snapshot the poller is left with: the latest, except that rows it sees no change in stay as they were. */
  function Merged(known: Snapshot, latest: Snapshot): Snapshot {
    map n | n in latest :: if n in known && !ConfigChanged(known[n], latest[n]) then known[n] else latest[n]
  }

  ghost predicate Distinct(changes: seq<PvChange>) {
    forall i, j | 0 <= i < j < |changes| :: changes[i].Name() != changes[j].Name()
  }

  /** The list holds the changes of exactly the names in `within` that have one, each name once, in any order. */
  ghost predicate ListsWithin(changes: seq<PvChange>, known: Snapshot, latest: Snapshot, within: set<string>) {
    && Distinct(changes)
    && (forall c | c in changes :: c.Name() in within && ChangeOf(known, latest, c.Name()) == Some(c))
    && (forall n | n in within && ChangeOf(known, latest, n).Some? :: ChangeOf(known, latest, n).value in changes)
  }

  ghost predicate Lists(changes: seq<PvChange>, known: Snapshot, latest: Snapshot) {
    ListsWithin(changes, known, latest, known.Keys + latest.Keys)
  }

  lemma ListNothing(known: Snapshot, latest: Snapshot)
    ensures ListsWithin([], known, latest, {})
  {
  }

  lemma ListUnchanged(changes: seq<PvChange>, known: Snapshot, latest: Snapshot, within: set<string>, name: string)
    requires ListsWithin(changes, known, latest, within)
    requires ChangeOf(known, latest, name) == None
    ensures ListsWithin(changes, known, latest, within + {name})
  {
  }

  lemma ListOneMore(changes: seq<PvChange>, known: Snapshot, latest: Snapshot, within: set<string>, change: PvChange)
    requires ListsWithin(changes, known, latest, within)
    requires change.Name() !in within && ChangeOf(known, latest, change.Name()) == Some(change)
    ensures ListsWithin(changes + [change], known, latest, within + {change.Name()})
  {
    var longer := changes + [change];
    assert forall c :: c in longer <==> c in changes || c == change;
    assert change == longer[|changes|];
  }

  function Applied(known: Snapshot, change: PvChange): Snapshot {
    match change
    case Added(c) => known[c.pvName := c]
    case Modified(c) => known[c.pvName := c]
    case Removed(n) => known - {n}
  }

  function AllApplied(known: Snapshot, changes: seq<PvChange>): Snapshot
    decreases |changes|
  {
    if changes == [] then known
    else Applied(AllApplied(known, changes[..|changes| - 1]), changes[|changes| - 1])
  }

  /** What a list of changes with distinct names does to one name, wherever in the list that name is. */
  lemma {:induction false} AppliedPointwise(known: Snapshot, changes: seq<PvChange>, n: string)
    requires Distinct(changes)
    ensures var after := AllApplied(known, changes);
      && (forall c | c in changes && c.Name() == n ::
            if c.Removed? then n !in after else n in after && after[n] == c.config)
      && ((forall c | c in changes :: c.Name() != n) ==>
            (n in after <==> n in known) && (n in known ==> after[n] == known[n]))
    decreases |changes|
  {
    if changes != [] {
      var last, earlier := changes[|changes| - 1], changes[..|changes| - 1];
      AppliedPointwise(known, earlier, n);
      assert forall c :: c in changes <==> c in earlier || c == last;
      assert forall c | c in earlier :: c.Name() != last.Name();
    }
  }

  /** Applying a difference to the old snapshot gives the merged one, in whatever order it is listed. */
  lemma DifferenceMerges(known: Snapshot, latest: Snapshot, changes: seq<PvChange>)
    requires Keyed(known) && Keyed(latest)
    requires Lists(changes, known, latest)
    ensures AllApplied(known, changes) == Merged(known, latest)
  {
    var after, merged := AllApplied(known, changes), Merged(known, latest);
    forall n
      ensures n in after <==> n in merged
      ensures n in after ==> after[n] == merged[n]
    {
      AppliedPointwise(known, changes, n);
      assert forall c | c in changes && c.Name() == n :: ChangeOf(known, latest, n) == Some(c);
    }
    assert after.Keys == merged.Keys;
  }

  /** After a merge the names and the acted-on fields are the latest ones, so the same snapshot differs in nothing. */
  lemma MergedIsCurrent(known: Snapshot, latest: Snapshot)
    requires Keyed(known) && Keyed(latest)
    ensures var merged := Merged(known, latest);
      && Keyed(merged)
      && merged.Keys == latest.Keys
      && (forall n | n in latest ::
            && merged[n].heartbeat == latest[n].heartbeat && merged[n].enabled == latest[n].enabled
            && merged[n].expectedIoc == latest[n].expectedIoc)
      && (forall changes: seq<PvChange> | Lists(changes, merged, latest) :: changes == [])
  {
    var merged := Merged(known, latest);
    forall changes: seq<PvChange> | Lists(changes, merged, latest)
      ensures changes == []
    {
      assert changes == [] || changes[0] in changes;
      forall c ensures c !in changes {
        assert ChangeOf(merged, latest, c.Name()) != Some(c);
      }
    }
  }

  /** The changes between two snapshots, on the fields of their rows: what is listed, and as what. */
  ghost predicate ListsByFields(changes: seq<PvChange>, known: Snapshot, latest: Snapshot) {
    && (forall c :: Added(c) in changes <==>
          c.pvName in latest && c == latest[c.pvName] && c.pvName !in known)
    && (forall n :: Removed(n) in changes <==> n in known && n !in latest)
    && (forall c :: Modified(c) in changes <==>
          && c.pvName in latest && c == latest[c.pvName] && c.pvName in known
          && (known[c.pvName].heartbeat != c.heartbeat || known[c.pvName].enabled != c.enabled
              || known[c.pvName].expectedIoc != c.expectedIoc))
  }

  /**
   * A name is listed as added or removed when it is in one snapshot only, and as modified when
   * it is in both and its heartbeat, its enabled flag or its expected server differs.
   */
  lemma DifferenceByFields(known: Snapshot, latest: Snapshot, changes: seq<PvChange>)
    requires Keyed(known) && Keyed(latest) && Lists(changes, known, latest)
    ensures ListsByFields(changes, known, latest)
  {
    forall c
      ensures c in changes <==> ChangeOf(known, latest, c.Name()) == Some(c)
    {
      assert ChangeOf(known, latest, c.Name()).Some? ==> c.Name() in known.Keys + latest.Keys;
    }
  }

  /** Of the enabled rows with one name, the snapshot has the last. */
  lemma {:induction false} LastEnabledRow(rows: seq<PvConfig>, i: nat)
    requires i < |rows| && rows[i].enabled
    requires forall j | i < j < |rows| && rows[j].enabled :: rows[j].pvName != rows[i].pvName
    ensures rows[i].pvName in Enabled(rows) && Enabled(rows)[rows[i].pvName] == rows[i]
    decreases |rows|
  {
    if i < |rows| - 1 {
      LastEnabledRow(rows[..|rows| - 1], i);
    }
  }

  // -------------------------------------------------------------------------
  // The poller
  // -------------------------------------------------------------------------

  class ConfigPoller {
    var known: Snapshot

    constructor ()
      ensures known == map[]
    {
      known := map[];
    }

    /** Replace the snapshot; the count returned is of all rows given. */
    method LoadInitial(rows: seq<PvConfig>) returns (count: nat)
      modifies this
      ensures known == Enabled(rows) && count == |rows|
    {
      count := |rows|;
      known := map[];
      for i := 0 to |rows|
        invariant known == Enabled(rows[..i])
      {
        assert rows[..i + 1][..i] == rows[..i];
        if rows[i].enabled {
          known := known[rows[i].pvName := rows[i]];
        }
      }
      assert rows[..|rows|] == rows;
    }

    /**
     * List what changed, in any order the hash sets happen to give, and take the
     * changes over.
     */
    method Diff(rows: seq<PvConfig>) returns (changes: seq<PvChange>)
      requires Keyed(known)
      modifies this
      ensures Lists(changes, old(known), Enabled(rows))
      ensures ListsByFields(changes, old(known), Enabled(rows))
      ensures known == Merged(old(known), Enabled(rows))
      ensures Keyed(known) && known.Keys == Enabled(rows).Keys
      ensures forall n | n in Enabled(rows) ::
        && known[n].heartbeat == Enabled(rows)[n].heartbeat && known[n].enabled == Enabled(rows)[n].enabled
        && known[n].expectedIoc == Enabled(rows)[n].expectedIoc
    {
      hide Keyed, Enabled, Lists, ListsWithin, ListsByFields, Merged;
      EnabledIsKeyed(rows);
      var latest := Collect(rows);
      changes := ListChanges(known, latest);
      ghost var before := known;
      for i := 0 to |changes|
        invariant known == AllApplied(before, changes[..i])
      {
        assert changes[..i + 1][..i] == changes[..i];
        match changes[i]
        case Added(c) => known := known[c.pvName := c];
        case Modified(c) => known := known[c.pvName := c];
        case Removed(n) => known := known - {n};
      }
      assert changes[..|changes|] == changes;
      DifferenceMerges(before, latest, changes);
      DifferenceByFields(before, latest, changes);
      MergedIsCurrent(before, latest);
    }
  }

  method Collect(rows: seq<PvConfig>) returns (latest: Snapshot)
    ensures latest == Enabled(rows)
  {
    latest := map[];
    for i := 0 to |rows|
      invariant latest == Enabled(rows[..i])
    {
      assert rows[..i + 1][..i] == rows[..i];
      if rows[i].enabled {
        latest := latest[rows[i].pvName := rows[i]];
      }
    }
    assert rows[..|rows|] == rows;
  }

  /** The three passes over the two name sets. */
  method ListChanges(known: Snapshot, latest: Snapshot) returns (changes: seq<PvChange>)
    requires Keyed(known) && Keyed(latest)
    ensures Lists(changes, known, latest)
  {
    hide ListsWithin, ConfigChanged;
    ListNothing(known, latest);
    changes := [];
    ghost var handled: set<string> := {};
    var left := latest.Keys - known.Keys;
    while left != {}
      invariant left !! handled && left + handled == latest.Keys - known.Keys
      invariant ListsWithin(changes, known, latest, handled)
      decreases left
    {
      var n :| n in left;
      ListOneMore(changes, known, latest, handled, Added(latest[n]));
      changes, left, handled := changes + [Added(latest[n])], left - {n}, handled + {n};
    }
    left := known.Keys - latest.Keys;
    while left != {}
      invariant left !! handled && left + handled == (latest.Keys - known.Keys) + (known.Keys - latest.Keys)
      invariant ListsWithin(changes, known, latest, handled)
      decreases left
    {
      var n :| n in left;
      ListOneMore(changes, known, latest, handled, Removed(n));
      changes, left, handled := changes + [Removed(n)], left - {n}, handled + {n};
    }
    left := known.Keys * latest.Keys;
    while left != {}
      invariant left !! handled && left + handled == known.Keys + latest.Keys
      invariant ListsWithin(changes, known, latest, handled)
      decreases left
    {
      var n :| n in left;
      if ConfigChanged(known[n], latest[n]) {
        ListOneMore(changes, known, latest, handled, Modified(latest[n]));
        changes := changes + [Modified(latest[n])];
      } else {
        ListUnchanged(changes, known, latest, handled, n);
      }
      left, handled := left - {n}, handled + {n};
    }
    assert handled == known.Keys + latest.Keys;
  }
}
