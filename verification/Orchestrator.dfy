/**
 * The discovery loop: a snapshot of the configuration is compared with the last
 * one, the changes are reconciled, and the actions become commands. Replaying
 * the commands gives exactly the configured names.
 */
module Orchestrators {
  import opened Wrappers
  import opened ConfigPollers
  import opened Reconcilers
  import opened CommandPublisher

  // -------------------------------------------------------------------------
  // What a difference asks of the reconciler
  // -------------------------------------------------------------------------

  function ChangedNames(known: Snapshot, latest: Snapshot): set<string> {
    set n | n in known && n in latest
            && (known[n].heartbeat != latest[n].heartbeat || known[n].enabled != latest[n].enabled
                || known[n].expectedIoc != latest[n].expectedIoc)
  }

  lemma DifferenceInSets(known: Snapshot, latest: Snapshot, changes: seq<PvChange>)
    requires Keyed(known) && Keyed(latest) && Lists(changes, known, latest)
    ensures AddedNames(changes) == latest.Keys - known.Keys
    ensures RemovedNames(changes) == known.Keys - latest.Keys
    ensures ModifiedNames(changes) == ChangedNames(known, latest)
  {
    forall n
      ensures n in AddedNames(changes) <==> n in latest.Keys - known.Keys
      ensures n in RemovedNames(changes) <==> n in known.Keys - latest.Keys
      ensures n in ModifiedNames(changes) <==> n in ChangedNames(known, latest)
    {
      if ChangeOf(known, latest, n).Some? {
        assert ChangeOf(known, latest, n).value in changes && ChangeOf(known, latest, n).value.Name() == n;
      }
    }
  }

  /** What the reconciler is asked to do when the known names go from `known` to `latest`. */
  ghost predicate Planned(before: Pvs, w: Work, known: set<string>, latest: set<string>) {
    && w.pvs.resolved == before.resolved - (known - latest)
    && w.pvs.notFound == before.notFound - (known - latest)
    && w.pvs.resolved + w.pvs.pending == latest
    && NamesIn(w.toResolve) <= latest
    && Holds(w.toUnsubscribe, known - latest)
  }

  lemma SetsPlan(before: Pvs, modified: set<string>, w: Work, known: set<string>, latest: set<string>)
    requires BySets(before, latest - known, known - latest, modified, w)
    requires modified <= known * latest && before.resolved + before.pending == known
    ensures Planned(before, w, known, latest)
    ensures Holds(w.toUpdate, modified * before.resolved)
  {
    assert NamesIn(w.toResolve) == (latest - known) + (modified - before.resolved);
    hide NamesIn, NoneTwice;
  }

  lemma DifferencePlans(before: Pvs, known: Snapshot, latest: Snapshot, changes: seq<PvChange>)
    requires Keyed(known) && Keyed(latest) && Lists(changes, known, latest)
    requires before.resolved + before.pending == known.Keys
    ensures Planned(before, Reconciled(before, changes), known.Keys, latest.Keys)
    ensures Holds(Reconciled(before, changes).toUpdate, ChangedNames(known, latest) * before.resolved)
  {
    DifferenceInSets(known, latest, changes);
    ReconciledBySets(before, changes);
    hide Holds, AddedNames, RemovedNames, ModifiedNames, Keyed, Reconciled, BySets, Planned;
    SetsPlan(before, ChangedNames(known, latest), Reconciled(before, changes), known.Keys, latest.Keys);
  }

  // -------------------------------------------------------------------------
  // Executing the actions
  // -------------------------------------------------------------------------

  /** The names the actions still unsubscribe, resolve and update. */
  function ToUnsubscribe(actions: seq<Action>): seq<string> {
    if actions == [] then []
    else (if actions[0].Unsubscribe? then actions[0].names else []) + ToUnsubscribe(actions[1..])
  }

  function ToResolve(actions: seq<Action>): seq<string> {
    if actions == [] then []
    else (if actions[0].Resolve? then actions[0].names else []) + ToResolve(actions[1..])
  }

  function ToUpdate(actions: seq<Action>): seq<string> {
    if actions == [] then []
    else (if actions[0].UpdateFilter? then actions[0].names else []) + ToUpdate(actions[1..])
  }

  function Alerts(actions: seq<Action>): nat {
    if actions == [] then 0 else (if actions[0].Alert? then 1 else 0) + Alerts(actions[1..])
  }

  lemma ActionsCarryWork(w: Work)
    ensures ToUnsubscribe(Actions(w)) == w.toUnsubscribe
    ensures ToResolve(Actions(w)) == w.toResolve
    ensures ToUpdate(Actions(w)) == w.toUpdate
    ensures Alerts(Actions(w)) == 0
  {
    var third := if w.toUpdate == [] then [] else [UpdateFilter(w.toUpdate)];
    var second := (if w.toUnsubscribe == [] then [] else [Action.Unsubscribe(w.toUnsubscribe)]) + third;
    if w.toUpdate != [] {
      CarriesFirst(UpdateFilter(w.toUpdate), []);
      assert third == [UpdateFilter(w.toUpdate)] + [];
    }
    if w.toUnsubscribe != [] {
      CarriesFirst(Action.Unsubscribe(w.toUnsubscribe), third);
    } else {
      assert second == third;
    }
    if w.toResolve != [] {
      CarriesFirst(Resolve(w.toResolve), second);
      assert Actions(w) == [Resolve(w.toResolve)] + second;
    } else {
      assert Actions(w) == second;
    }
  }

  lemma CarriesFirst(action: Action, rest: seq<Action>)
    ensures ToUnsubscribe([action] + rest) == (if action.Unsubscribe? then action.names else []) + ToUnsubscribe(rest)
    ensures ToResolve([action] + rest) == (if action.Resolve? then action.names else []) + ToResolve(rest)
    ensures ToUpdate([action] + rest) == (if action.UpdateFilter? then action.names else []) + ToUpdate(rest)
    ensures Alerts([action] + rest) == (if action.Alert? then 1 else 0) + Alerts(rest)
  {
    assert ([action] + rest)[1..] == rest;
  }

  /** What the receiver holds after one more batch. */
  function AfterBatch(replay: Option<set<string>>, on: bool, names: seq<string>): Option<set<string>> {
    match replay
    case None => None
    case Some(subscribed) => Replay(subscribed, Each(on, names))
  }

  /**
   * Midway through the actions. `stray` is a name to be unsubscribed that was
   * never subscribed, if there is one; the receiver rejects it in its turn.
   */
  ghost predicate Executing(replay: Option<set<string>>, pvs: Pvs, rest: seq<Action>, known: set<string>,
                            stray: Option<string>) {
    && pvs.resolved + pvs.pending == known
    && NamesIn(ToResolve(rest)) <= known
    && NoneTwice(ToUnsubscribe(rest)) && NamesIn(ToUnsubscribe(rest)) !! known
    && match stray
       case None => replay == Some(pvs.resolved + NamesIn(ToUnsubscribe(rest)))
       case Some(name) =>
         && name !in known
         && (replay.Some? ==> name in NamesIn(ToUnsubscribe(rest)) && name !in replay.value)
  }

  lemma NamesInJoin(a: seq<string>, b: seq<string>)
    ensures NamesIn(a + b) == NamesIn(a) + NamesIn(b)
    ensures NoneTwice(a + b) ==> NoneTwice(a) && NoneTwice(b) && NamesIn(a) !! NamesIn(b)
  {
    assert forall n :: n in a + b <==> n in a || n in b;
    if NoneTwice(a + b) {
      assert forall i | 0 <= i < |a| :: (a + b)[i] == a[i];
      assert forall i | 0 <= i < |b| :: (a + b)[|a| + i] == b[i];
    }
  }

  lemma ExecuteResolve(replay: Option<set<string>>, pvs: Pvs, names: seq<string>, rest: seq<Action>,
                       known: set<string>, stray: Option<string>)
    requires Executing(replay, pvs, [Resolve(names)] + rest, known, stray)
    ensures Executing(AfterBatch(replay, true, FirstSeen(names, pvs.resolved)),
                      MarkedResolved(pvs, NamesIn(names)), rest, known, stray)
  {
    var all := [Resolve(names)] + rest;
    assert all[1..] == rest;
    assert ToResolve(all) == names + ToResolve(rest) && ToUnsubscribe(all) == ToUnsubscribe(rest);
    NamesInJoin(names, ToResolve(rest));
    var news := FirstSeen(names, pvs.resolved);
    FirstSeenIsNew(names, pvs.resolved);
    if replay.Some? {
      ReplayEach(replay.value, true, news);
    }
    hide NamesIn, NoneTwice, Replay, Each, FirstSeen, ToResolve, ToUnsubscribe;
    ResolveInSets(pvs, NamesIn(names), NamesIn(ToUnsubscribe(rest)), known);
  }

  lemma ResolveInSets(pvs: Pvs, names: set<string>, unsubscribed: set<string>, known: set<string>)
    requires pvs.resolved + pvs.pending == known && names <= known && unsubscribed !! known
    ensures MarkedResolved(pvs, names).resolved + MarkedResolved(pvs, names).pending == known
    ensures names - pvs.resolved !! pvs.resolved + unsubscribed
    ensures pvs.resolved + unsubscribed + (names - pvs.resolved) == MarkedResolved(pvs, names).resolved + unsubscribed
  {
  }

  lemma ExecuteUnsubscribe(replay: Option<set<string>>, pvs: Pvs, names: seq<string>, rest: seq<Action>,
                           known: set<string>, stray: Option<string>)
    requires Executing(replay, pvs, [Action.Unsubscribe(names)] + rest, known, stray)
    ensures Executing(AfterBatch(replay, false, names), pvs, rest, known, stray)
  {
    var all := [Action.Unsubscribe(names)] + rest;
    assert all[1..] == rest;
    assert ToUnsubscribe(all) == names + ToUnsubscribe(rest) && ToResolve(all) == ToResolve(rest);
    NamesInJoin(names, ToUnsubscribe(rest));
    if replay.Some? {
      ReplayEach(replay.value, false, names);
    }
    hide NamesIn, NoneTwice, Replay, Each;
    assert pvs.resolved + (NamesIn(names) + NamesIn(ToUnsubscribe(rest))) - NamesIn(names)
      == pvs.resolved + NamesIn(ToUnsubscribe(rest));
  }

  /** An action that sends nothing. */
  lemma ExecuteSilent(replay: Option<set<string>>, pvs: Pvs, action: Action, rest: seq<Action>,
                      known: set<string>, stray: Option<string>)
    requires Executing(replay, pvs, [action] + rest, known, stray)
    requires ToUnsubscribe([action] + rest) == ToUnsubscribe(rest)
    ensures Executing(replay, pvs, rest, known, stray)
  {
    assert ([action] + rest)[1..] == rest;
    NamesInJoin(if action.Resolve? then action.names else [], ToResolve(rest));
  }

  lemma HoldsCount(names: seq<string>, members: set<string>)
    requires Holds(names, members)
    ensures |names| == |members|
    decreases |names|
  {
    if names == [] {
      assert members == {};
    } else {
      var last, earlier := names[|names| - 1], names[..|names| - 1];
      assert names == earlier + [last];
      NamesInJoin(earlier, [last]);
      assert NamesIn([last]) == {last};
      assert NamesIn(earlier) == members - {last};
      HoldsCount(earlier, members - {last});
    }
  }

  /** How many names differ between two snapshots. */
  function Differences(known: Snapshot, latest: Snapshot): nat {
    |(latest.Keys - known.Keys) + (known.Keys - latest.Keys) + ChangedNames(known, latest)|
  }

  lemma DifferenceCount(known: Snapshot, latest: Snapshot, changes: seq<PvChange>)
    requires Keyed(known) && Keyed(latest) && Lists(changes, known, latest)
    ensures |changes| == Differences(known, latest)
  {
    var names := seq(|changes|, i requires 0 <= i < |changes| => changes[i].Name());
    assert NoneTwice(names);
    DifferenceInSets(known, latest, changes);
    forall n
      ensures n in names <==> n in AddedNames(changes) + RemovedNames(changes) + ModifiedNames(changes)
    {
      NameOfSome(changes, names, n);
    }
    hide ChangedNames, AddedNames, RemovedNames, ModifiedNames, Lists, Keyed;
    HoldsCount(names, (latest.Keys - known.Keys) + (known.Keys - latest.Keys) + ChangedNames(known, latest));
  }

  lemma NameOfSome(changes: seq<PvChange>, names: seq<string>, n: string)
    requires |names| == |changes| && forall i | 0 <= i < |changes| :: names[i] == changes[i].Name()
    ensures n in names <==> n in AddedNames(changes) + RemovedNames(changes) + ModifiedNames(changes)
  {
    if n in names {
      var i :| 0 <= i < |changes| && names[i] == n;
      assert changes[i] in changes;
    }
    if n in AddedNames(changes) + RemovedNames(changes) + ModifiedNames(changes) {
      var c :| c in changes && c.Name() == n;
      var i :| 0 <= i < |changes| && changes[i] == c;
      assert names[i] == n;
    }
  }

  lemma CountMore(base: set<string>, held: set<string>, names: set<string>, news: seq<string>)
    requires base <= held && Holds(news, names - held)
    ensures |held - base| + |news| == |held + names - base|
  {
    HoldsCount(news, names - held);
    assert held + names - base == (held - base) + (names - held);
  }

  lemma StrayName(names: set<string>, latest: set<string>) returns (stray: Option<string>)
    ensures stray == None <==> names <= latest
    ensures stray.Some? ==> stray.value in names && stray.value !in latest
  {
    stray := None;
    if !(names <= latest) {
      var name :| name in names && name !in latest;
      stray := Some(name);
    }
  }

  /** The start of the execution: a stray name is a gone name that was only pending. */
  lemma BeginExecuting(before: Pvs, w: Work, known: set<string>, latest: set<string>)
    returns (stray: Option<string>)
    requires Planned(before, w, known, latest)
    requires before.resolved + before.pending == known
    ensures stray == None <==> before.pending - before.resolved <= latest
    ensures Executing(Some(before.resolved), w.pvs, Actions(w), latest, stray)
    ensures latest - w.pvs.resolved == latest - before.resolved
    ensures ToUpdate(Actions(w)) == w.toUpdate && Alerts(Actions(w)) == 0
    ensures |ToUnsubscribe(Actions(w))| == |known - latest|
  {
    stray := StrayName(before.pending - before.resolved, latest);
    ActionsCarryWork(w);
    HoldsCount(w.toUnsubscribe, known - latest);
    hide Actions, ToUnsubscribe, ToResolve, ToUpdate, Alerts, NamesIn, NoneTwice;
    GoneNames(before, known, latest);
  }

  lemma GoneNames(before: Pvs, known: set<string>, latest: set<string>)
    requires before.resolved + before.pending == known
    ensures before.pending - before.resolved <= latest ==>
      before.resolved - (known - latest) + (known - latest) == before.resolved
    ensures latest - (before.resolved - (known - latest)) == latest - before.resolved
    ensures known - latest !! latest
  {
  }

  lemma PlanOfNothing(before: Pvs, known: set<string>)
    requires before.resolved + before.pending == known
    ensures Planned(before, Reconciled(before, []), known, known)
    ensures Reconciled(before, []).toUpdate == []
  {
    assert known - known == {};
  }

  lemma PlanOfDifference(before: Pvs, known: Snapshot, rows: seq<PvConfig>, changes: seq<PvChange>)
    requires Keyed(known) && Lists(changes, known, Enabled(rows))
    requires before.resolved + before.pending == known.Keys
    ensures Merged(known, Enabled(rows)).Keys == Enabled(rows).Keys
    ensures Planned(before, Reconciled(before, changes), known.Keys, Enabled(rows).Keys)
    ensures |changes| == Differences(known, Enabled(rows))
    ensures |Reconciled(before, changes).toUpdate| == |ChangedNames(known, Enabled(rows)) * before.resolved|
  {
    hide Lists, Holds, Keyed, Enabled, ChangedNames, Differences, Planned, Reconciled;
    EnabledIsKeyed(rows);
    DifferencePlans(before, known, Enabled(rows), changes);
    DifferenceCount(known, Enabled(rows), changes);
    HoldsCount(Reconciled(before, changes).toUpdate, ChangedNames(known, Enabled(rows)) * before.resolved);
  }

  lemma BeginRetry(replay: Option<set<string>>, pvs: Pvs, names: seq<string>, known: set<string>,
                   stray: Option<string>)
    requires Executing(replay, pvs, [], known, stray) && Holds(names, pvs.pending)
    ensures Executing(replay, pvs, [Resolve(names)] + [], known, stray)
  {
    var retry := [Resolve(names)] + [];
    assert retry[1..] == [];
    assert ToResolve(retry) == names + [] == names && ToUnsubscribe(retry) == [] + [] == [];
  }

  lemma FinishExecuting(replay: Option<set<string>>, pvs: Pvs, known: set<string>, stray: Option<string>)
    requires Executing(replay, pvs, [], known, stray)
    ensures pvs.pending == {} ==> pvs.resolved == known
    ensures replay == if stray == None then Some(pvs.resolved) else None
  {
    assert pvs.resolved + {} == pvs.resolved && NamesIn([]) == {};
  }

  // -------------------------------------------------------------------------
  // The orchestrator
  // -------------------------------------------------------------------------

  datatype CycleResult = CycleResult(
    configChanges: nat, resolved: nat, subscribed: nat, unsubscribed: nat, filterUpdates: nat, alerts: nat)
  {
    predicate IsEmpty() {
      configChanges == 0 && resolved == 0 && subscribed == 0 && unsubscribed == 0 && alerts == 0
    }
  }

  /** The counts a cycle reports, as sizes of the sets of names it dealt with. */
  ghost predicate Counts(result: CycleResult, resolved: set<string>, known: Snapshot, latest: Option<Snapshot>) {
    var names := if latest.Some? then latest.value.Keys else known.Keys;
    && result.resolved == |names - resolved|
    && result.unsubscribed == |known.Keys - names|
    && result.subscribed == 0 && result.alerts == 0
    && result.configChanges == (if latest.Some? then Differences(known, latest.value) else 0)
    && result.filterUpdates == (if latest.Some? then |ChangedNames(known, latest.value) * resolved| else 0)
  }

  lemma NothingToDo(before: Pvs, known: Snapshot)
    requires before.resolved + before.pending == known.Keys && |before.pending| == 0
    ensures before.pending == {} && before.resolved == known.Keys
    ensures Counts(CycleResult(0, 0, 0, 0, 0, 0), before.resolved, known, None)
  {
    assert before.resolved + {} == before.resolved;
    assert known.Keys - before.resolved == {} && known.Keys - known.Keys == {};
  }

  lemma AllCounted(result: CycleResult, resolved: set<string>, known: Snapshot, latest: Option<Snapshot>,
                   names: set<string>)
    requires names == if latest.Some? then latest.value.Keys else known.Keys
    requires result.resolved == |names - resolved| && result.unsubscribed == |known.Keys - names|
    requires result.subscribed == 0 && result.alerts == 0
    requires result.configChanges == (if latest.Some? then Differences(known, latest.value) else 0)
    requires result.filterUpdates == (if latest.Some? then |ChangedNames(known, latest.value) * resolved| else 0)
    ensures Counts(result, resolved, known, latest)
  {
  }

  /** What one tick of the interval meets: the answers of the two queries (None when one fails) and of the publisher. */
  datatype Tick = Tick(changed: Option<seq<PvConfig>>, allEnabled: Option<seq<PvConfig>>, published: bool)

  /** Whether a cycle takes a new snapshot. */
  predicate TakesSnapshot(changed: Option<seq<PvConfig>>, allEnabled: Option<seq<PvConfig>>) {
    changed.Some? && changed.value != [] && allEnabled.Some?
  }

  /** The last snapshot taken in a run. */
  function LastSnapshot(rows: seq<PvConfig>, ticks: seq<Tick>): Snapshot
    decreases |ticks|
  {
    if ticks == [] then Enabled(rows)
    else
      var last := ticks[|ticks| - 1];
      if TakesSnapshot(last.changed, last.allEnabled) then Enabled(last.allEnabled.value)
      else LastSnapshot(rows, ticks[..|ticks| - 1])
  }

  function RowNames(rows: seq<PvConfig>): (names: seq<string>)
    ensures |names| == |rows|
  {
    seq(|rows|, i requires 0 <= i < |rows| => rows[i].pvName)
  }

  function AllAdded(rows: seq<PvConfig>): seq<PvChange> {
    seq(|rows|, i requires 0 <= i < |rows| => Added(rows[i]))
  }

  lemma {:induction false} AddedRows(before: Pvs, rows: seq<PvConfig>)
    ensures Reconciled(before, AllAdded(rows))
      == Work(before.(pending := before.pending + NamesIn(RowNames(rows))), RowNames(rows), [], [])
    decreases |rows|
  {
    if rows == [] {
      assert NamesIn([]) == {};
      assert before.pending + {} == before.pending;
    } else {
      var earlier := rows[..|rows| - 1];
      AddedRows(before, earlier);
      assert AllAdded(rows)[..|rows| - 1] == AllAdded(earlier);
      var n := rows[|rows| - 1].pvName;
      assert RowNames(rows) == RowNames(earlier) + [n];
      NamesInJoin(RowNames(earlier), [n]);
      assert NamesIn([n]) == {n};
      hide NamesIn, RowNames;
      assert before.pending + NamesIn(RowNames(rows)) == before.pending + NamesIn(RowNames(earlier)) + {n};
    }
  }

  ghost predicate HasEnabledRow(rows: seq<PvConfig>, name: string) {
    exists d :: d in rows && d.enabled && d.pvName == name
  }

  lemma RowsAreNamed(rows: seq<PvConfig>)
    ensures forall c | c in rows :: c.pvName in NamesIn(RowNames(rows))
    ensures forall n | n in NamesIn(RowNames(rows)) :: exists c :: c in rows && c.pvName == n
  {
    forall c | c in rows
      ensures c.pvName in NamesIn(RowNames(rows))
    {
      var i :| 0 <= i < |rows| && rows[i] == c;
      assert RowNames(rows)[i] == c.pvName;
    }
    forall n | n in NamesIn(RowNames(rows))
      ensures exists c :: c in rows && c.pvName == n
    {
      var i :| 0 <= i < |rows| && RowNames(rows)[i] == n;
      assert rows[i] in rows;
    }
  }

  /**
   * Startup hands every row to the reconciler but only the enabled ones to the
   * poller, so the two agree exactly when every name has an enabled row.
   */
  lemma StartupAgrees(rows: seq<PvConfig>)
    ensures NamesIn(RowNames(rows)) == Enabled(rows).Keys <==> forall c | c in rows :: HasEnabledRow(rows, c.pvName)
  {
    EnabledIsKeyed(rows);
    RowsAreNamed(rows);
    assert forall n :: n in Enabled(rows).Keys <==> HasEnabledRow(rows, n);
    hide Enabled, NamesIn, RowNames, HasEnabledRow;
    if forall c | c in rows :: HasEnabledRow(rows, c.pvName) {
      assert NamesIn(RowNames(rows)) <= Enabled(rows).Keys;
    }
    assert Enabled(rows).Keys <= NamesIn(RowNames(rows));
  }

  lemma EnabledRows(rows: seq<PvConfig>)
    requires forall c | c in rows :: c.enabled
    ensures forall c | c in rows :: HasEnabledRow(rows, c.pvName)
  {
  }

  lemma NoNames()
    ensures NamesIn([]) == {}
  {
  }

  lemma BeginStartup(pvs: Pvs, names: seq<string>, actions: seq<Action>)
    requires pvs == Pvs({}, NamesIn(names), {})
    requires actions == if names == [] then [] else [Resolve(names)]
    ensures Executing(Subscribed([]), pvs, actions, NamesIn(names), None)
    ensures ToUnsubscribe(actions) == [] && ToResolve(actions) == names
  {
    if names != [] {
      assert actions[1..] == [];
      assert ToResolve(actions) == names + [] == names;
    }
    assert {} + NamesIn(names) == NamesIn(names);
    assert NamesIn([]) == {} && pvs.resolved + {} == {};
  }

  /** The poller's rows are a snapshot: the same names, and the same values of the fields acted on. */
  ghost predicate Reflects(known: Snapshot, snapshot: Snapshot) {
    && known.Keys == snapshot.Keys
    && forall n | n in snapshot ::
         && known[n].heartbeat == snapshot[n].heartbeat && known[n].enabled == snapshot[n].enabled
         && known[n].expectedIoc == snapshot[n].expectedIoc
  }

  /**
   * The names of the last snapshot, on the fields of the ticks: those of the enabled rows of
   * the last tick that reports a change and gets all rows, or of the startup without such a tick.
   */
  lemma {:induction false} SnapshotOfLastChange(rows: seq<PvConfig>, ticks: seq<Tick>, k: nat)
    ensures
      && k < |ticks| && ticks[k].changed.Some? && ticks[k].changed.value != [] && ticks[k].allEnabled.Some?
      && (forall j | k < j < |ticks| ::
            ticks[j].changed == None || ticks[j].changed.value == [] || ticks[j].allEnabled == None)
      ==> LastSnapshot(rows, ticks).Keys == set c | c in ticks[k].allEnabled.value && c.enabled :: c.pvName
    ensures (forall t | t in ticks :: t.changed == None || t.changed.value == [] || t.allEnabled == None)
      ==> LastSnapshot(rows, ticks).Keys == set c | c in rows && c.enabled :: c.pvName
    decreases |ticks|
  {
    hide Enabled;
    EnabledIsKeyed(rows);
    if ticks != [] {
      var last, earlier := ticks[|ticks| - 1], ticks[..|ticks| - 1];
      SnapshotOfLastChange(rows, earlier, k);
      assert last in ticks && forall t | t in earlier :: t in ticks;
      if last.allEnabled.Some? {
        EnabledIsKeyed(last.allEnabled.value);
      }
    }
  }

  lemma OneMoreTick(rows: seq<PvConfig>, ticks: seq<Tick>, tick: Tick, known: Snapshot)
    requires Keyed(known) && Reflects(known, LastSnapshot(rows, ticks))
    ensures var next := if TakesSnapshot(tick.changed, tick.allEnabled)
                        then Merged(known, Enabled(tick.allEnabled.value)) else known;
      Reflects(next, LastSnapshot(rows, ticks + [tick]))
  {
    hide Enabled;
    assert (ticks + [tick])[..|ticks|] == ticks;
    if tick.allEnabled.Some? {
      EnabledIsKeyed(tick.allEnabled.value);
      MergedIsCurrent(known, Enabled(tick.allEnabled.value));
    }
  }

  /**
   * A stray unsubscription: a name is loaded at startup, its actions are not carried out, and
   * the next snapshot is without it. The difference asks to unsubscribe the name, which no
   * command has subscribed.
   */
  lemma StrayUnsubscription(config: PvConfig)
    requires config.enabled
    ensures var n, known := config.pvName, Enabled([config]);
      var before := Reconciled(Pvs({}, {}, {}), AllAdded([config])).pvs;
      && before == Pvs({}, {n}, {}) && Lists([Removed(n)], known, Enabled([]))
      && Actions(Reconciled(before, [Removed(n)])) == [Action.Unsubscribe([n])]
      && Subscribed([UnsubscribeBatch([n])]) == None
  {
    hide Subscribed, Enabled, Lists;
    var n, nothing := config.pvName, Pvs({}, {}, {});
    AddedRows(nothing, [config]);
    assert RowNames([config]) == [n] && NamesIn([n]) == {n} && {} + {n} == {n};
    hide AllAdded;
    assert Reconciled(nothing, AllAdded([config])).pvs == Pvs({}, {n}, {});
    var before := Work(Pvs({}, {n}, {}), [], [], []);
    assert [PvChange.Removed(n)][..0] == [];
    assert Reconciled(before.pvs, [Removed(n)]) == Step(before, Removed(n));
    OnlyRemoved(config);
    NeverSubscribed(n);
  }

  lemma OnlyRemoved(config: PvConfig)
    requires config.enabled
    ensures Lists([Removed(config.pvName)], Enabled([config]), Enabled([]))
  {
    assert [config][..0] == [] && Enabled([config]) == map[config.pvName := config];
  }

  lemma NeverSubscribed(n: string)
    ensures Subscribed([UnsubscribeBatch([n])]) == None
  {
    SubscribedOneMore([], UnsubscribeBatch([n]));
    assert [] + [UnsubscribeBatch([n])] == [UnsubscribeBatch([n])];
    ReplayEach({}, false, [n]);
    assert n in NamesIn([n]);
  }

  lemma NothingFound(pvs: Pvs, heard: Option<set<string>>)
    ensures MarkedResolved(pvs, NamesIn([])) == pvs && FirstSeen([], pvs.resolved) == []
    ensures AfterBatch(heard, true, []) == heard
  {
    assert NamesIn([]) == {};
    assert pvs.resolved + {} == pvs.resolved && pvs.pending - {} == pvs.pending && pvs.notFound - {} == pvs.notFound;
  }

  const DEFAULT_ADDR: Addr := "0.0.0.0:5075"

  class Orchestrator {
    const poller: ConfigPoller
    const reconciler: Reconciler
    const commands: CommandBatch
    const nameServers: seq<Addr>
    var cycles: nat
    var totalResolved: nat
    var totalAlerts: nat

    constructor (nameServers: seq<Addr>)
      ensures this.nameServers == nameServers && cycles == 0 && totalResolved == 0 && totalAlerts == 0
      ensures fresh(poller) && fresh(reconciler) && fresh(commands)
      ensures poller.known == map[] && reconciler.View() == Pvs({}, {}, {})
      ensures commands.commands == [] && commands.taken == []
    {
      this.nameServers := nameServers;
      poller := new ConfigPoller();
      reconciler := new Reconciler();
      commands := new CommandBatch();
      cycles, totalResolved, totalAlerts := 0, 0, 0;
    }

    /** The names a strict receiver of everything queued so far is subscribed to. */
    ghost function Heard(): Option<set<string>>
      reads commands
    {
      Subscribed(commands.Issued())
    }

    method Startup(rows: Option<seq<PvConfig>>) returns (actions: Option<seq<Action>>)
      modifies poller, reconciler
      ensures actions.Some? <==> rows.Some?
      ensures rows == None ==> poller.known == old(poller.known) && reconciler.View() == old(reconciler.View())
      ensures rows.Some? ==>
        && poller.known == Enabled(rows.value)
        && reconciler.View() == old(reconciler.View()).(
             pending := old(reconciler.pending) + NamesIn(RowNames(rows.value)))
        && actions.value == if rows.value == [] then [] else [Resolve(RowNames(rows.value))]
    {
      if rows == None {
        return None;
      }
      var changes := AllAdded(rows.value);
      AddedRows(reconciler.View(), rows.value);
      var _ := poller.LoadInitial(rows.value);
      var produced := reconciler.Reconcile(changes);
      assert rows.value == [] <==> RowNames(rows.value) == [];
      return Some(produced);
    }

    /** Declare the names found and queue one subscription batch for those that are new. */
    method ResolveBatch(names: seq<string>) returns (count: nat)
      modifies this`totalResolved, reconciler, commands
      ensures reconciler.View() == MarkedResolved(old(reconciler.View()), NamesIn(names))
      ensures var news := FirstSeen(names, old(reconciler.resolved));
        && count == |news| && totalResolved == old(totalResolved) + count
        && Heard() == AfterBatch(old(Heard()), true, news)
        && commands.commands == old(commands.commands) + if news == [] then []
             else [SubscribeBatch(news, if nameServers == [] then None else Some(nameServers[0]))]
      ensures commands.taken == old(commands.taken)
    {
      hide Replay, Events, NamesIn, FirstSeen;
      NothingFound(reconciler.View(), Heard());
      if names == [] {
        return 0;
      }
      var ioc := if nameServers == [] then DEFAULT_ADDR else nameServers[0];
      ghost var news := FirstSeen(names, reconciler.resolved);
      var toSubscribe := reconciler.MarkResolved(names, ioc);
      if toSubscribe != [] {
        var pvs := seq(|toSubscribe|, i requires 0 <= i < |toSubscribe| => toSubscribe[i].pv);
        assert pvs == news;
        var command := SubscribeBatch(pvs, if nameServers == [] then None else Some(nameServers[0]));
        SubscribedOneMore(commands.Issued(), command);
        commands.Push(command);
      }
      count := |toSubscribe|;
      totalResolved := totalResolved + count;
    }

    /** ResolveBatch as one step of an execution, counted against the names resolved at its start. */
    method ResolveStep(names: seq<string>, ghost rest: seq<Action>, ghost known: set<string>,
                       ghost stray: Option<string>, ghost base: set<string>)
      returns (count: nat)
      requires Executing(Heard(), reconciler.View(), [Resolve(names)] + rest, known, stray)
      requires base <= reconciler.resolved
      modifies this`totalResolved, reconciler, commands
      ensures Executing(Heard(), reconciler.View(), rest, known, stray)
      ensures reconciler.View() == MarkedResolved(old(reconciler.View()), NamesIn(names))
      ensures |old(reconciler.resolved) - base| + count == |reconciler.resolved - base|
      ensures totalResolved == old(totalResolved) + count
      ensures commands.taken == old(commands.taken)
      ensures count == 0 ==> commands.commands == old(commands.commands)
    {
      hide Executing, FirstSeen, NamesIn, NoneTwice, AfterBatch;
      ExecuteResolve(Heard(), reconciler.View(), names, rest, known, stray);
      FirstSeenIsNew(names, reconciler.resolved);
      CountMore(base, reconciler.resolved, NamesIn(names), FirstSeen(names, reconciler.resolved));
      count := ResolveBatch(names);
    }

    method UnsubscribeStep(names: seq<string>, ghost rest: seq<Action>, ghost known: set<string>,
                           ghost stray: Option<string>)
      requires Executing(Heard(), reconciler.View(), [Action.Unsubscribe(names)] + rest, known, stray)
      modifies commands
      ensures Executing(Heard(), reconciler.View(), rest, known, stray)
      ensures commands.taken == old(commands.taken)
      ensures commands.commands == old(commands.commands) + if names == [] then [] else [UnsubscribeBatch(names)]
    {
      hide Executing, Events;
      ExecuteUnsubscribe(Heard(), reconciler.View(), names, rest, known, stray);
      SubscribedOneMore(commands.Issued(), UnsubscribeBatch(names));
      ghost var next := AfterBatch(Heard(), false, names);
      assert names == [] ==> next == Heard();
      commands.PushUnsubscribeBatch(names);
      assert names == [] ==> commands.Issued() == old(commands.Issued());
    }

    /** The loop over the actions of one cycle. */
    method Execute(actions: seq<Action>, changes: nat, ghost known: set<string>, ghost stray: Option<string>)
      returns (result: CycleResult)
      requires Executing(Heard(), reconciler.View(), actions, known, stray)
      modifies this`totalResolved, this`totalAlerts, reconciler, commands
      ensures Executing(Heard(), reconciler.View(), [], known, stray)
      ensures old(reconciler.resolved) <= reconciler.resolved
      ensures result == CycleResult(changes, |reconciler.resolved - old(reconciler.resolved)|, 0,
                                    |ToUnsubscribe(actions)|, |ToUpdate(actions)|, Alerts(actions))
      ensures totalResolved == old(totalResolved) + result.resolved
      ensures totalAlerts == old(totalAlerts) + result.alerts
      ensures commands.taken == old(commands.taken)
      ensures result.resolved == 0 && result.unsubscribed == 0 ==> commands.commands == old(commands.commands)
    {
      hide Executing, Subscribed, NamesIn;
      result := CycleResult(changes, 0, 0, 0, 0, 0);
      ghost var base := reconciler.resolved;
      assert base - base == {};
      var rest := actions;
      while rest != []
        invariant Executing(Heard(), reconciler.View(), rest, known, stray)
        invariant base <= reconciler.resolved && result.resolved == |reconciler.resolved - base|
        invariant result.configChanges == changes && result.subscribed == 0
        invariant result.unsubscribed + |ToUnsubscribe(rest)| == |ToUnsubscribe(actions)|
        invariant result.filterUpdates + |ToUpdate(rest)| == |ToUpdate(actions)|
        invariant result.alerts + Alerts(rest) == Alerts(actions)
        invariant totalResolved == old(totalResolved) + result.resolved
        invariant totalAlerts == old(totalAlerts) + result.alerts
        invariant commands.taken == old(commands.taken)
        invariant result.resolved == 0 && result.unsubscribed == 0 ==> commands.commands == old(commands.commands)
        decreases |rest|
      {
        ghost var whole := rest;
        var action := rest[0];
        rest := rest[1..];
        assert whole == [action] + rest;
        match action
        case Resolve(names) =>
          var count := ResolveStep(names, rest, known, stray, base);
          result := result.(resolved := result.resolved + count);
        case Unsubscribe(names) =>
          UnsubscribeStep(names, rest, known, stray);
          result := result.(unsubscribed := result.unsubscribed + |names|);
        case UpdateFilter(names) =>
          ExecuteSilent(Heard(), reconciler.View(), action, rest, known, stray);
          result := result.(filterUpdates := result.filterUpdates + |names|);
        case Alert(_) =>
          ExecuteSilent(Heard(), reconciler.View(), action, rest, known, stray);
          totalAlerts := totalAlerts + 1;
          result := result.(alerts := result.alerts + 1);
      }
    }

    /** Between cycles: every known name is resolved or pending, and the receiver has heard of the resolved ones. */
    ghost predicate Tracking()
      reads poller, reconciler, commands
    {
      && Keyed(poller.known)
      && reconciler.resolved + reconciler.pending == poller.known.Keys
      && Heard() == Some(reconciler.resolved)
    }

    /** The names a cycle may be asked to unsubscribe that were never subscribed. */
    ghost function OnlyPending(): set<string>
      reads reconciler
    {
      reconciler.pending - reconciler.resolved
    }

    /** The comparison with the newest snapshot, reconciled; nothing is compared when no snapshot was taken. */
    method Plan(all: Option<seq<PvConfig>>) returns (count: nat, actions: seq<Action>, ghost w: Work)
      requires Tracking()
      modifies poller, reconciler
      ensures all == None ==> poller.known == old(poller.known)
      ensures all.Some? ==> poller.known == Merged(old(poller.known), Enabled(all.value))
      ensures all.Some? ==> poller.known.Keys == Enabled(all.value).Keys
      ensures Keyed(poller.known)
      ensures Planned(old(reconciler.View()), w, old(poller.known).Keys, poller.known.Keys)
      ensures reconciler.View() == w.pvs && actions == Actions(w)
      ensures all == None ==> count == 0 && w.toUpdate == []
      ensures all.Some? ==> count == Differences(old(poller.known), Enabled(all.value))
      ensures all.Some? ==>
        |w.toUpdate| == |ChangedNames(old(poller.known), Enabled(all.value)) * old(reconciler.resolved)|
    {
      hide Merged, Lists, Holds, Keyed, Enabled, ChangedNames, Differences, Planned, Reconciled, Subscribed, Actions;
      var changes := [];
      ghost var before, known := reconciler.View(), poller.known;
      if all.Some? {
        changes := poller.Diff(all.value);
        PlanOfDifference(before, known, all.value, changes);
      } else {
        PlanOfNothing(before, known.Keys);
      }
      count := |changes|;
      w := Reconciled(before, changes);
      actions := reconciler.Reconcile(changes);
    }

    /** The actions of a plan, and then one more try for the names still pending. */
    method CarryOut(actions: seq<Action>, count: nat, ghost latest: set<string>, ghost stray: Option<string>)
      returns (result: CycleResult)
      requires Executing(Heard(), reconciler.View(), actions, latest, stray)
      modifies this`totalResolved, this`totalAlerts, reconciler, commands
      ensures reconciler.pending == {} && reconciler.resolved == latest
      ensures Heard() == if stray == None then Some(reconciler.resolved) else None
      ensures result == CycleResult(count, |latest - old(reconciler.resolved)|, 0,
                                    |ToUnsubscribe(actions)|, |ToUpdate(actions)|, Alerts(actions))
      ensures totalResolved == old(totalResolved) + result.resolved
      ensures totalAlerts == old(totalAlerts) + result.alerts
      ensures commands.taken == old(commands.taken)
      ensures result.resolved == 0 && result.unsubscribed == 0 ==> commands.commands == old(commands.commands)
    {
      hide Executing, Subscribed, NamesIn;
      ghost var base := reconciler.resolved;
      result := Execute(actions, count, latest, stray);
      if |reconciler.pending| > 0 {
        var names := reconciler.PendingNames();
        BeginRetry(Heard(), reconciler.View(), names, latest, stray);
        var more := ResolveStep(names, [], latest, stray, base);
        result := result.(resolved := result.resolved + more);
      }
      FinishExecuting(Heard(), reconciler.View(), latest, stray);
    }

    /** The part of a cycle that plans and acts. */
    method Advance(all: Option<seq<PvConfig>>) returns (result: CycleResult)
      requires Tracking()
      modifies this`totalResolved, this`totalAlerts, poller, reconciler, commands
      ensures Keyed(poller.known)
      ensures poller.known == if all.Some? then Merged(old(poller.known), Enabled(all.value)) else old(poller.known)
      ensures reconciler.pending == {} && reconciler.resolved == poller.known.Keys
      ensures Heard() == if old(OnlyPending()) <= poller.known.Keys then Some(reconciler.resolved) else None
      ensures Counts(result, old(reconciler.resolved), old(poller.known),
                     if all.Some? then Some(Enabled(all.value)) else None)
      ensures totalResolved == old(totalResolved) + result.resolved
      ensures commands.taken == old(commands.taken)
      ensures result.IsEmpty() ==> commands.commands == old(commands.commands)
    {
      hide Keyed, Enabled, Merged, Differences, ChangedNames, Subscribed, Executing, NamesIn, Actions, Planned, Counts;
      ghost var before, known := reconciler.View(), poller.known;
      var count, actions;
      ghost var w;
      count, actions, w := Plan(all);
      ghost var stray := BeginExecuting(before, w, known.Keys, poller.known.Keys);
      result := CarryOut(actions, count, poller.known.Keys, stray);
      AllCounted(result, before.resolved, known, if all.Some? then Some(Enabled(all.value)) else None,
                 poller.known.Keys);
    }

    lemma TrackingIsKeyed()
      requires Tracking()
      ensures Keyed(poller.known)
    {
    }

    /** With nothing pending, what a cycle promises holds already. */
    lemma IdleIsDone()
      requires Tracking() && |reconciler.pending| == 0
      ensures reconciler.pending == {} && reconciler.resolved == poller.known.Keys
      ensures OnlyPending() <= poller.known.Keys && Heard() == Some(reconciler.resolved)
      ensures Counts(CycleResult(0, 0, 0, 0, 0, 0), reconciler.resolved, poller.known, None)
    {
      NothingToDo(reconciler.View(), poller.known);
    }

    /** One cycle. The receiver finds a command out of place exactly when a name that was only pending is gone. */
    method Cycle(changed: Option<seq<PvConfig>>, allEnabled: Option<seq<PvConfig>>)
      returns (result: Option<CycleResult>)
      requires Tracking()
      modifies this, poller, reconciler, commands
      ensures cycles == old(cycles) + 1
      ensures result == None <==> changed == None || (changed.value != [] && allEnabled == None)
      ensures result == None ==> unchanged(poller) && unchanged(reconciler) && unchanged(commands)
      ensures Keyed(poller.known)
      ensures poller.known == if changed.Some? && changed.value != [] && allEnabled.Some?
                              then Merged(old(poller.known), Enabled(allEnabled.value)) else old(poller.known)
      ensures result.Some? ==> reconciler.pending == {} && reconciler.resolved == poller.known.Keys
      ensures result.Some? ==>
        Heard() == if old(OnlyPending()) <= poller.known.Keys then Some(reconciler.resolved) else None
      ensures result.Some? ==>
        && Counts(result.value, old(reconciler.resolved), old(poller.known),
                  if changed.value != [] then Some(Enabled(allEnabled.value)) else None)
        && totalResolved == old(totalResolved) + result.value.resolved
      ensures commands.taken == old(commands.taken)
      ensures result.Some? && result.value.IsEmpty() ==> commands.commands == old(commands.commands)
    {
      hide Keyed, Enabled, Merged, Subscribed, Counts, Tracking, OnlyPending, Heard;
      TrackingIsKeyed();
      cycles := cycles + 1;
      if changed == None {
        return None;
      }
      if changed.value == [] && |reconciler.pending| == 0 {
        IdleIsDone();
        return Some(CycleResult(0, 0, 0, 0, 0, 0));
      }
      if changed.value != [] && allEnabled == None {
        return None;
      }
      var outcome := Advance(if changed.value == [] then None else allEnabled);
      return Some(outcome);
    }

    /** Hand the queued commands to the publisher; they leave the queue even when it fails. */
    method FlushCommands(published: bool) returns (count: Option<nat>)
      modifies commands
      ensures commands.commands == [] && commands.taken == old(commands.taken) + old(commands.commands)
      ensures Heard() == old(Heard())
      ensures count == if old(commands.commands) == [] then Some(0)
                       else if published then Some(|old(commands.commands)|) else None
    {
      var batch := commands.Take();
      if batch == [] {
        return Some(0);
      }
      if !published {
        return None;
      }
      return Some(|batch|);
    }

    /** The loop over the actions of the startup, which looks at the names to resolve only. */
    method ResolveStartup(actions: seq<Action>, ghost known: set<string>)
      requires Executing(Heard(), reconciler.View(), actions, known, None)
      requires ToUnsubscribe(actions) == [] && reconciler.pending <= NamesIn(ToResolve(actions))
      modifies this`totalResolved, reconciler, commands
      ensures reconciler.pending == {} && reconciler.resolved == known && Heard() == Some(known)
    {
      hide Subscribed, Executing, NamesIn;
      var rest := actions;
      while rest != []
        invariant Executing(Heard(), reconciler.View(), rest, known, None)
        invariant ToUnsubscribe(rest) == [] && reconciler.pending <= NamesIn(ToResolve(rest))
        decreases |rest|
      {
        ghost var whole := rest;
        var action := rest[0];
        rest := rest[1..];
        assert whole == [action] + rest;
        NoNames();
        NamesInJoin(if action.Resolve? then action.names else [], ToResolve(rest));
        if action.Resolve? {
          var _ := ResolveStep(action.names, rest, known, None, {});
        } else {
          ExecuteSilent(Heard(), reconciler.View(), action, rest, known, None);
        }
      }
      NoNames();
      FinishExecuting(Heard(), reconciler.View(), known, None);
    }

    /** Startup and the actions it returned, up to the first flush. */
    method Begin(rows: seq<PvConfig>)
      requires forall c | c in rows :: c.enabled
      requires poller.known == map[] && reconciler.View() == Pvs({}, {}, {}) && commands.Issued() == []
      modifies this, poller, reconciler, commands
      ensures Tracking() && reconciler.pending == {} && poller.known == Enabled(rows)
    {
      hide Subscribed, Executing, NamesIn, Enabled, Keyed, RowNames, HasEnabledRow;
      EnabledRows(rows);
      StartupAgrees(rows);
      EnabledIsKeyed(rows);
      var actions := Startup(Some(rows));
      assert reconciler.pending == NamesIn(RowNames(rows));
      BeginStartup(reconciler.View(), RowNames(rows), actions.value);
      ResolveStartup(actions.value, Enabled(rows).Keys);
    }

    /** One turn of the loop: a cycle, and a flush if it did anything. */
    method Turn(tick: Tick, ghost rows: seq<PvConfig>, ghost ticks: seq<Tick>) returns (ok: bool)
      requires Tracking() && reconciler.pending == {} && Reflects(poller.known, LastSnapshot(rows, ticks))
      requires commands.commands == []
      modifies this, poller, reconciler, commands
      ensures Tracking() && reconciler.pending == {} && Reflects(poller.known, LastSnapshot(rows, ticks + [tick]))
      ensures ok ==> commands.commands == []
      ensures tick.published ==> ok
    {
      hide Subscribed, Enabled, Keyed, Merged, Reflects, LastSnapshot, Counts;
      OneMoreTick(rows, ticks, tick, poller.known);
      var result := Cycle(tick.changed, tick.allEnabled);
      ok := true;
      if result.Some? && !result.value.IsEmpty() {
        var flushed := FlushCommands(tick.published);
        ok := flushed.Some?;
      }
    }

    /**
     * A whole run. However the queries and the publisher answer, everything queued
     * replays to the resolved names, which are the names of the last snapshot; a run
     * that reaches its end has published all of it. Then what is resolved and subscribed
     * are the enabled names of the last tick that reports a change and gets all rows, and
     * those of the startup when there is no such tick.
     */
    method Run(rows: Option<seq<PvConfig>>, published: bool, ticks: seq<Tick>) returns (ok: bool)
      requires rows.Some? ==> forall c | c in rows.value :: c.enabled
      requires poller.known == map[] && reconciler.View() == Pvs({}, {}, {}) && commands.Issued() == []
      modifies this, poller, reconciler, commands
      ensures rows.Some? ==>
        && Heard() == Some(reconciler.resolved)
        && reconciler.resolved == poller.known.Keys && reconciler.pending == {}
        && exists n | 0 <= n <= |ticks| :: Reflects(poller.known, LastSnapshot(rows.value, ticks[..n]))
      ensures ok ==> rows.Some? && Reflects(poller.known, LastSnapshot(rows.value, ticks)) && commands.commands == []
      ensures ok ==> Subscribed(commands.taken) == Some(reconciler.resolved)
      ensures forall k |
          && ok && 0 <= k < |ticks| && ticks[k].changed.Some? && ticks[k].changed.value != [] && ticks[k].allEnabled.Some?
          && (forall j | k < j < |ticks| ::
                ticks[j].changed == None || ticks[j].changed.value == [] || ticks[j].allEnabled == None) ::
        reconciler.resolved == set c | c in ticks[k].allEnabled.value && c.enabled :: c.pvName
      ensures ok && (forall t | t in ticks :: t.changed == None || t.changed.value == [] || t.allEnabled == None) ==>
        reconciler.resolved == set c | c in rows.value && c.enabled :: c.pvName
      ensures rows.Some? && published && (forall t | t in ticks :: t.published) ==> ok
    {
      hide Subscribed, Enabled, Keyed;
      if rows == None {
        return false;
      }
      Begin(rows.value);
      assert Reflects(poller.known, LastSnapshot(rows.value, []));
      assert ticks[..0] == [];
      var flushed := FlushCommands(published);
      if flushed == None {
        return false;
      }
      for i := 0 to |ticks|
        invariant Tracking() && reconciler.pending == {}
        invariant Reflects(poller.known, LastSnapshot(rows.value, ticks[..i]))
        invariant commands.commands == []
      {
        assert ticks[..i + 1] == ticks[..i] + [ticks[i]];
        var went := Turn(ticks[i], rows.value, ticks[..i]);
        if !went {
          return false;
        }
      }
      assert ticks[..|ticks|] == ticks;
      assert commands.taken + [] == commands.taken;
      forall k |
          && 0 <= k < |ticks| && ticks[k].changed.Some? && ticks[k].changed.value != [] && ticks[k].allEnabled.Some?
          && (forall j | k < j < |ticks| ::
                ticks[j].changed == None || ticks[j].changed.value == [] || ticks[j].allEnabled == None)
        ensures reconciler.resolved == set c | c in ticks[k].allEnabled.value && c.enabled :: c.pvName
      {
        SnapshotOfLastChange(rows.value, ticks, k);
      }
      SnapshotOfLastChange(rows.value, ticks, 0);
      return true;
    }
  }
}
