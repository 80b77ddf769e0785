/**
 * The reconciler: three sets of names, moved by configuration changes and by
 * what the network answers, and the actions this asks for.
 */
module Reconcilers {
  import opened Wrappers
  import opened ConfigPollers

  /** A socket address in its text form. */
  type Addr = string

  datatype Action =
    | Resolve(names: seq<string>)
    | Unsubscribe(names: seq<string>)
    | UpdateFilter(names: seq<string>)
    | Alert(name: string)

  datatype Subscription = Subscription(pv: string, ioc: Option<Addr>)

  /** What the reconciler holds. */
  datatype Pvs = Pvs(resolved: set<string>, pending: set<string>, notFound: set<string>)

  function NamesIn(names: seq<string>): set<string> {
    set n | n in names
  }

  ghost predicate NoneTwice(names: seq<string>) {
    forall i, j | 0 <= i < j < |names| :: names[i] != names[j]
  }

  // -------------------------------------------------------------------------
  // Reconciling a list of changes
  // -------------------------------------------------------------------------

  /** The names the three work lists hold. */
  datatype Work = Work(pvs: Pvs, toResolve: seq<string>, toUnsubscribe: seq<string>, toUpdate: seq<string>)

  function Step(w: Work, change: PvChange): Work {
    var n := change.Name();
    match change
    case Added(_) =>
      w.(pvs := w.pvs.(pending := w.pvs.pending + {n}), toResolve := w.toResolve + [n])
    case Removed(_) =>
      w.(pvs := Pvs(w.pvs.resolved - {n}, w.pvs.pending - {n}, w.pvs.notFound - {n}),
         toUnsubscribe := w.toUnsubscribe + [n])
    case Modified(_) =>
      if n in w.pvs.resolved then w.(toUpdate := w.toUpdate + [n])
      else w.(pvs := w.pvs.(pending := w.pvs.pending + {n}), toResolve := w.toResolve + [n])
  }

  function Reconciled(before: Pvs, changes: seq<PvChange>): Work
    decreases |changes|
  {
    if changes == [] then Work(before, [], [], [])
    else Step(Reconciled(before, changes[..|changes| - 1]), changes[|changes| - 1])
  }

  /** One action per work list that is not empty. */
  function Actions(w: Work): seq<Action> {
    (if w.toResolve == [] then [] else [Resolve(w.toResolve)])
    + (if w.toUnsubscribe == [] then [] else [Unsubscribe(w.toUnsubscribe)])
    + (if w.toUpdate == [] then [] else [UpdateFilter(w.toUpdate)])
  }

  function AddedNames(changes: seq<PvChange>): set<string> {
    set c | c in changes && c.Added? :: c.Name()
  }

  function RemovedNames(changes: seq<PvChange>): set<string> {
    set c | c in changes && c.Removed? :: c.Name()
  }

  function ModifiedNames(changes: seq<PvChange>): set<string> {
    set c | c in changes && c.Modified? :: c.Name()
  }

  lemma NamesOfMore(earlier: seq<PvChange>, last: PvChange)
    ensures AddedNames(earlier + [last]) == AddedNames(earlier) + if last.Added? then {last.Name()} else {}
    ensures RemovedNames(earlier + [last]) == RemovedNames(earlier) + if last.Removed? then {last.Name()} else {}
    ensures ModifiedNames(earlier + [last]) == ModifiedNames(earlier) + if last.Modified? then {last.Name()} else {}
  {
    assert forall c :: c in earlier + [last] <==> c in earlier || c == last;
  }

  /** The outcome in terms of the sets of added, removed and modified names alone. */
  ghost predicate BySets(before: Pvs, added: set<string>, removed: set<string>, modified: set<string>, w: Work) {
    && w.pvs.resolved == before.resolved - removed
    && w.pvs.notFound == before.notFound - removed
    && w.pvs.pending == before.pending - removed + added + (modified - before.resolved)
    && Holds(w.toResolve, added + (modified - before.resolved))
    && Holds(w.toUnsubscribe, removed)
    && Holds(w.toUpdate, modified * before.resolved)
  }

  /** The list holds the names of a set, each once. */
  ghost predicate Holds(names: seq<string>, members: set<string>) {
    NamesIn(names) == members && NoneTwice(names)
  }

  lemma HoldsOneMore(names: seq<string>, members: set<string>, n: string)
    requires Holds(names, members) && n !in members
    ensures Holds(names + [n], members + {n})
  {
    assert n !in NamesIn(names);
  }

  lemma StepBySets(before: Pvs, added: set<string>, removed: set<string>, modified: set<string>, w: Work,
                   change: PvChange)
    requires BySets(before, added, removed, modified, w)
    requires change.Name() !in added + removed + modified
    ensures BySets(before,
                   added + if change.Added? then {change.Name()} else {},
                   removed + if change.Removed? then {change.Name()} else {},
                   modified + if change.Modified? then {change.Name()} else {},
                   Step(w, change))
  {
    hide Holds;
    var n := change.Name();
    assert added + {} == added && removed + {} == removed && modified + {} == modified;
    match change
    case Added(_) =>
      HoldsOneMore(w.toResolve, added + (modified - before.resolved), n);
      assert added + {n} + (modified - before.resolved) == added + (modified - before.resolved) + {n};
    case Removed(_) =>
      HoldsOneMore(w.toUnsubscribe, removed, n);
    case Modified(_) =>
      if n in before.resolved {
        HoldsOneMore(w.toUpdate, modified * before.resolved, n);
        assert (modified + {n}) * before.resolved == modified * before.resolved + {n};
        assert modified + {n} - before.resolved == modified - before.resolved;
      } else {
        HoldsOneMore(w.toResolve, added + (modified - before.resolved), n);
        assert added + (modified + {n} - before.resolved) == added + (modified - before.resolved) + {n};
        assert (modified + {n}) * before.resolved == modified * before.resolved;
      }
  }

  /** When each name occurs in one change only, the outcome is a matter of sets. */
  lemma {:induction false} ReconciledBySets(before: Pvs, changes: seq<PvChange>)
    requires Distinct(changes)
    ensures BySets(before, AddedNames(changes), RemovedNames(changes), ModifiedNames(changes),
                   Reconciled(before, changes))
    decreases |changes|
  {
    if changes != [] {
      var last, earlier := changes[|changes| - 1], changes[..|changes| - 1];
      ReconciledBySets(before, earlier);
      assert changes == earlier + [last];
      assert last.Name() !in AddedNames(earlier) + RemovedNames(earlier) + ModifiedNames(earlier);
      hide BySets, AddedNames, RemovedNames, ModifiedNames, Step, Distinct;
      NamesOfMore(earlier, last);
      StepBySets(before, AddedNames(earlier), RemovedNames(earlier), ModifiedNames(earlier),
                 Reconciled(before, earlier), last);
    }
  }

  /** The order in which a hash set lists the changes does not matter. */
  lemma OrderIsHarmless(before: Pvs, a: seq<PvChange>, b: seq<PvChange>)
    requires Distinct(a) && Distinct(b)
    requires forall c :: c in a <==> c in b
    ensures var u, v := Reconciled(before, a), Reconciled(before, b);
      && u.pvs == v.pvs
      && NamesIn(u.toResolve) == NamesIn(v.toResolve)
      && NamesIn(u.toUnsubscribe) == NamesIn(v.toUnsubscribe)
      && NamesIn(u.toUpdate) == NamesIn(v.toUpdate)
      && |Actions(u)| == |Actions(v)|
  {
    ReconciledBySets(before, a);
    ReconciledBySets(before, b);
    assert AddedNames(a) == AddedNames(b);
    assert RemovedNames(a) == RemovedNames(b);
    assert ModifiedNames(a) == ModifiedNames(b);
    var u, v := Reconciled(before, a), Reconciled(before, b);
    EmptyIffNoNames(u.toResolve);
    EmptyIffNoNames(v.toResolve);
    EmptyIffNoNames(u.toUnsubscribe);
    EmptyIffNoNames(v.toUnsubscribe);
    EmptyIffNoNames(u.toUpdate);
    EmptyIffNoNames(v.toUpdate);
  }

  lemma EmptyIffNoNames(a: seq<string>)
    ensures a == [] <==> NamesIn(a) == {}
  {
    if a != [] {
      assert a[0] in NamesIn(a);
    }
  }

  // -------------------------------------------------------------------------
  // Answers from the network
  // -------------------------------------------------------------------------

  /** The names not yet in `known`, each once, in the order they first come. */
  function FirstSeen(names: seq<string>, known: set<string>): seq<string>
    decreases |names|
  {
    if names == [] then []
    else
      var last, earlier := names[|names| - 1], names[..|names| - 1];
      if last in known || last in earlier then FirstSeen(earlier, known)
      else FirstSeen(earlier, known) + [last]
  }

  lemma {:induction false} FirstSeenIsNew(names: seq<string>, known: set<string>)
    ensures NoneTwice(FirstSeen(names, known))
    ensures NamesIn(FirstSeen(names, known)) == NamesIn(names) - known
    decreases |names|
  {
    if names != [] {
      var last, earlier := names[|names| - 1], names[..|names| - 1];
      FirstSeenIsNew(earlier, known);
      var seen := FirstSeen(earlier, known);
      assert forall n :: n in names <==> n in earlier || n == last;
      assert NamesIn(names) == NamesIn(earlier) + {last};
      assert NamesIn(seen + [last]) == NamesIn(seen) + {last};
      assert last in earlier <==> last in NamesIn(earlier);
      assert forall n :: n in seen <==> n in NamesIn(seen);
    }
  }

  /** Names that come later come later in the list too. */
  lemma {:induction false} FirstSeenInOrder(a: seq<string>, b: seq<string>, known: set<string>)
    ensures FirstSeen(a, known) <= FirstSeen(a + b, known)
    decreases |b|
  {
    if b == [] {
      assert a + b == a;
    } else {
      FirstSeenInOrder(a, b[..|b| - 1], known);
      assert (a + b)[..|a + b| - 1] == a + b[..|b| - 1];
    }
  }

  function Subscriptions(names: seq<string>, ioc: Addr): seq<Subscription> {
    seq(|names|, i requires 0 <= i < |names| => Subscription(names[i], Some(ioc)))
  }

  ghost predicate Apart(p: Pvs) {
    p.resolved !! p.pending && p.resolved !! p.notFound && p.pending !! p.notFound
  }

  function NotFound(p: Pvs, names: set<string>): Pvs {
    Pvs(p.resolved, p.pending - names, p.notFound + names)
  }

  function Disconnected(p: Pvs, name: string): Pvs {
    if name in p.resolved then Pvs(p.resolved - {name}, p.pending + {name}, p.notFound) else p
  }

  function MarkedResolved(p: Pvs, names: set<string>): Pvs {
    Pvs(p.resolved + names, p.pending - names, p.notFound - names)
  }

  /**
   * Each operation on three sets that are apart, and exactly when it leaves them
   * apart. A name added while it is resolved or not found ends up in two sets,
   * as does a not-found name that is modified.
   */
  lemma WhatKeepsApart(p: Pvs, changes: seq<PvChange>, names: set<string>, name: string)
    requires Apart(p) && Distinct(changes)
    ensures Apart(MarkedResolved(p, names))
    ensures Apart(Disconnected(p, name))
    ensures Apart(NotFound(p, names)) <==> names !! p.resolved
    ensures Apart(Reconciled(p, changes).pvs)
      <==> AddedNames(changes) !! p.resolved + p.notFound && ModifiedNames(changes) !! p.notFound
  {
    ReconciledBySets(p, changes);
    NamesApart(changes);
  }

  /** A name that was not found and whose row is modified is pending and not found at once. */
  lemma NameInTwoSets(config: PvConfig)
    ensures var before, n := Pvs({}, {}, {config.pvName}), config.pvName;
      var after := Reconciled(before, [Modified(config)]).pvs;
      && Apart(before) && after == Pvs({}, {n}, {n}) && !Apart(after)
  {
    var before, n := Pvs({}, {}, {config.pvName}), config.pvName;
    assert [Modified(config)][..0] == [];
    assert Reconciled(before, [Modified(config)]) == Step(Work(before, [], [], []), Modified(config));
    var after := Reconciled(before, [Modified(config)]).pvs;
    assert n in after.pending * after.notFound;
  }

  lemma NamesApart(changes: seq<PvChange>)
    requires Distinct(changes)
    ensures AddedNames(changes) !! RemovedNames(changes) && ModifiedNames(changes) !! RemovedNames(changes)
    ensures AddedNames(changes) !! ModifiedNames(changes)
  {
    assert forall c, d | c in changes && d in changes && c.Name() == d.Name() :: c == d;
  }

  // -------------------------------------------------------------------------
  // The object
  // -------------------------------------------------------------------------

  class Reconciler {
    var resolved: set<string>
    var pending: set<string>
    var notFound: set<string>
    var totalReconciliations: nat
    var totalActions: nat

    constructor ()
      ensures View() == Pvs({}, {}, {}) && totalReconciliations == 0 && totalActions == 0
    {
      resolved, pending, notFound := {}, {}, {};
      totalReconciliations, totalActions := 0, 0;
    }

    function View(): Pvs
      reads this
    {
      Pvs(resolved, pending, notFound)
    }

    method Reconcile(changes: seq<PvChange>) returns (actions: seq<Action>)
      modifies this
      ensures View() == Reconciled(old(View()), changes).pvs
      ensures actions == Actions(Reconciled(old(View()), changes))
      ensures totalReconciliations == old(totalReconciliations) + 1
      ensures totalActions == old(totalActions) + |actions|
    {
      totalReconciliations := totalReconciliations + 1;
      if changes == [] {
        return [];
      }
      var toResolve, toUnsubscribe, toUpdate := [], [], [];
      ghost var before := View();
      for i := 0 to |changes|
        invariant Work(View(), toResolve, toUnsubscribe, toUpdate) == Reconciled(before, changes[..i])
        invariant totalReconciliations == old(totalReconciliations) + 1 && totalActions == old(totalActions)
      {
        assert changes[..i + 1][..i] == changes[..i];
        match changes[i]
        case Added(c) =>
          pending := pending + {c.pvName};
          toResolve := toResolve + [c.pvName];
        case Removed(n) =>
          resolved, pending, notFound := resolved - {n}, pending - {n}, notFound - {n};
          toUnsubscribe := toUnsubscribe + [n];
        case Modified(c) =>
          if c.pvName in resolved {
            toUpdate := toUpdate + [c.pvName];
          } else {
            pending := pending + {c.pvName};
            toResolve := toResolve + [c.pvName];
          }
      }
      assert changes[..|changes|] == changes;
      actions := [];
      if toResolve != [] {
        actions := actions + [Resolve(toResolve)];
      }
      if toUnsubscribe != [] {
        actions := actions + [Unsubscribe(toUnsubscribe)];
      }
      if toUpdate != [] {
        actions := actions + [UpdateFilter(toUpdate)];
      }
      totalActions := totalActions + |actions|;
    }

    /** The pending names, in whatever order the hash set gives them. */
    method PendingNames() returns (names: seq<string>)
      ensures Holds(names, pending)
    {
      names := [];
      var left := pending;
      ghost var handled: set<string> := {};
      while left != {}
        invariant left !! handled && left + handled == pending
        invariant Holds(names, handled)
        decreases left
      {
        var n :| n in left;
        HoldsOneMore(names, handled, n);
        names, left, handled := names + [n], left - {n}, handled + {n};
      }
      assert handled == pending;
    }

    /** The names found on the network; those not resolved before are returned for subscription. */
    method MarkResolved(names: seq<string>, ioc: Addr) returns (toSubscribe: seq<Subscription>)
      modifies this
      ensures View() == MarkedResolved(old(View()), NamesIn(names))
      ensures resolved == old(resolved) + NamesIn(names) && pending == old(pending) - NamesIn(names)
      ensures notFound == old(notFound) - NamesIn(names)
      ensures forall i | 0 <= i < |toSubscribe| :: toSubscribe[i].ioc == Some(ioc)
      ensures toSubscribe == Subscriptions(FirstSeen(names, old(resolved)), ioc)
      ensures totalReconciliations == old(totalReconciliations) && totalActions == old(totalActions)
    {
      toSubscribe := [];
      for i := 0 to |names|
        invariant View() == MarkedResolved(old(View()), NamesIn(names[..i]))
        invariant toSubscribe == Subscriptions(FirstSeen(names[..i], old(resolved)), ioc)
        invariant totalReconciliations == old(totalReconciliations) && totalActions == old(totalActions)
      {
        assert names[..i + 1][..i] == names[..i];
        assert NamesIn(names[..i + 1]) == NamesIn(names[..i]) + {names[i]};
        var name := names[i];
        pending := pending - {name};
        notFound := notFound - {name};
        if name !in resolved {
          resolved := resolved + {name};
          toSubscribe := toSubscribe + [Subscription(name, Some(ioc))];
        }
      }
      assert names[..|names|] == names;
    }

    /** The names no server answered for; the ones that were not already in that state raise an alert. */
    method MarkNotFound(names: seq<string>) returns (alerts: seq<Action>)
      modifies this
      ensures View() == NotFound(old(View()), NamesIn(names))
      ensures resolved == old(resolved) && pending == old(pending) - NamesIn(names)
      ensures notFound == old(notFound) + NamesIn(names)
      ensures |alerts| == |FirstSeen(names, old(notFound))|
      ensures forall i | 0 <= i < |alerts| :: alerts[i] == Alert(FirstSeen(names, old(notFound))[i])
      ensures totalReconciliations == old(totalReconciliations) && totalActions == old(totalActions)
    {
      alerts := [];
      for i := 0 to |names|
        invariant View() == NotFound(old(View()), NamesIn(names[..i]))
        invariant |alerts| == |FirstSeen(names[..i], old(notFound))|
        invariant forall k | 0 <= k < |alerts| :: alerts[k] == Alert(FirstSeen(names[..i], old(notFound))[k])
        invariant totalReconciliations == old(totalReconciliations) && totalActions == old(totalActions)
      {
        assert names[..i + 1][..i] == names[..i];
        assert NamesIn(names[..i + 1]) == NamesIn(names[..i]) + {names[i]};
        var name := names[i];
        pending := pending - {name};
        if name !in notFound {
          notFound := notFound + {name};
          alerts := alerts + [Alert(name)];
        }
      }
      assert names[..|names|] == names;
    }

    /** A resolved name whose server is gone waits again. */
    method MarkDisconnected(name: string) returns (alert: Option<Action>)
      modifies this
      ensures View() == Disconnected(old(View()), name)
      ensures name in old(resolved) ==>
        resolved == old(resolved) - {name} && pending == old(pending) + {name} && notFound == old(notFound)
      ensures name !in old(resolved) ==>
        resolved == old(resolved) && pending == old(pending) && notFound == old(notFound)
      ensures alert == if name in old(resolved) then Some(Alert(name)) else None
      ensures totalReconciliations == old(totalReconciliations) && totalActions == old(totalActions)
    {
      if name in resolved {
        resolved := resolved - {name};
        pending := pending + {name};
        return Some(Alert(name));
      }
      return None;
    }
  }
}
