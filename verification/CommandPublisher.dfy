/**
 * The commands sent to the ingest side, the batch that queues them, and what a
 * strict receiver makes of them: subscribing a subscribed name or unsubscribing
 * an unsubscribed one is an error.
 */
module CommandPublisher {
  import opened Wrappers
  import opened Reconcilers

  datatype IngestCommand =
    | Subscribe(pv: string, ioc: Option<Addr>)
    | SubscribeBatch(pvs: seq<string>, ioc: Option<Addr>)
    | Unsubscribe(pv: string)
    | UnsubscribeBatch(pvs: seq<string>)
    | Reload

  /** One name becoming subscribed or unsubscribed. */
  datatype Event = Event(on: bool, name: string)

  function Each(on: bool, names: seq<string>): seq<Event> {
    seq(|names|, i requires 0 <= i < |names| => Event(on, names[i]))
  }

  function EventsOf(command: IngestCommand): seq<Event> {
    match command
    case Subscribe(pv, _) => [Event(true, pv)]
    case SubscribeBatch(pvs, _) => Each(true, pvs)
    case Unsubscribe(pv) => [Event(false, pv)]
    case UnsubscribeBatch(pvs) => Each(false, pvs)
    case Reload => []
  }

  function Events(commands: seq<IngestCommand>): seq<Event>
    decreases |commands|
  {
    if commands == [] then []
    else Events(commands[..|commands| - 1]) + EventsOf(commands[|commands| - 1])
  }

  /** The names subscribed after the events, or None if one of them was out of place. */
  function Replay(subscribed: set<string>, events: seq<Event>): Option<set<string>>
    decreases |events|
  {
    if events == [] then Some(subscribed)
    else
      var last := events[|events| - 1];
      match Replay(subscribed, events[..|events| - 1])
      case None => None
      case Some(names) =>
        if last.on == (last.name in names) then None
        else if last.on then Some(names + {last.name})
        else Some(names - {last.name})
  }

  /** The names a strict receiver is subscribed to after all the commands. */
  function Subscribed(commands: seq<IngestCommand>): Option<set<string>> {
    Replay({}, Events(commands))
  }

  lemma {:induction false} ReplayJoin(subscribed: set<string>, a: seq<Event>, b: seq<Event>)
    ensures Replay(subscribed, a + b)
      == match Replay(subscribed, a) { case None => None case Some(names) => Replay(names, b) }
    decreases |b|
  {
    if b == [] {
      assert a + b == a;
    } else {
      var shorter := b[..|b| - 1];
      ReplayJoin(subscribed, a, shorter);
      assert (a + b)[..|a + b| - 1] == a + shorter;
      assert (a + b)[|a + b| - 1] == b[|b| - 1];
    }
  }

  /** A batch is in place exactly when it names each name once and none of them is in that state already. */
  lemma {:induction false} ReplayEach(subscribed: set<string>, on: bool, names: seq<string>)
    ensures Replay(subscribed, Each(on, names)).Some? <==>
      NoneTwice(names) && if on then NamesIn(names) !! subscribed else NamesIn(names) <= subscribed
    ensures Replay(subscribed, Each(on, names)).Some? ==>
      Replay(subscribed, Each(on, names)).value
        == if on then subscribed + NamesIn(names) else subscribed - NamesIn(names)
    decreases |names|
  {
    if names != [] {
      var last, earlier := names[|names| - 1], names[..|names| - 1];
      ReplayEach(subscribed, on, earlier);
      assert Each(on, names)[..|names| - 1] == Each(on, earlier);
      assert names == earlier + [last];
      assert NamesIn(names) == NamesIn(earlier) + {last};
      assert NoneTwice(names) <==> NoneTwice(earlier) && last !in NamesIn(earlier);
    }
  }

  /** What each command asks of a strict receiver, and when the receiver finds it out of place. */
  lemma CommandEffects(subscribed: set<string>, pv: string, pvs: seq<string>, ioc: Option<Addr>)
    ensures Replay(subscribed, EventsOf(Reload)) == Some(subscribed)
    ensures Replay(subscribed, EventsOf(Subscribe(pv, ioc)))
      == if pv in subscribed then None else Some(subscribed + {pv})
    ensures Replay(subscribed, EventsOf(IngestCommand.Unsubscribe(pv)))
      == if pv in subscribed then Some(subscribed - {pv}) else None
    ensures Replay(subscribed, EventsOf(SubscribeBatch(pvs, ioc)))
      == if NoneTwice(pvs) && NamesIn(pvs) !! subscribed then Some(subscribed + NamesIn(pvs)) else None
    ensures Replay(subscribed, EventsOf(UnsubscribeBatch(pvs)))
      == if NoneTwice(pvs) && NamesIn(pvs) <= subscribed then Some(subscribed - NamesIn(pvs)) else None
  {
    ReplayEach(subscribed, true, pvs);
    ReplayEach(subscribed, false, pvs);
    OneEvent(subscribed, true, pv);
    OneEvent(subscribed, false, pv);
    hide Replay, Each, NoneTwice, NamesIn;
  }

  lemma OneEvent(subscribed: set<string>, on: bool, name: string)
    ensures Replay(subscribed, []) == Some(subscribed)
    ensures Replay(subscribed, [Event(on, name)])
      == if on == (name in subscribed) then None
         else Some(if on then subscribed + {name} else subscribed - {name})
  {
    assert [Event(on, name)][..0] == [];
  }

  /** How many more times a name was subscribed than unsubscribed. */
  function Balance(events: seq<Event>, name: string): int
    decreases |events|
  {
    if events == [] then 0
    else
      var last := events[|events| - 1];
      Balance(events[..|events| - 1], name) + if last.name != name then 0 else if last.on then 1 else -1
  }

  ghost predicate Even(events: seq<Event>) {
    forall name :: 0 <= Balance(events, name) <= 1
  }

  ghost predicate InTurn(events: seq<Event>) {
    forall k | 0 <= k <= |events| :: Even(events[..k])
  }

  /**
   * The receiver finds every event in place exactly when, for every name and at
   * every moment, subscriptions and unsubscriptions have alternated.
   */
  lemma {:induction false} InPlaceIffInTurn(events: seq<Event>)
    ensures Replay({}, events).Some? <==> InTurn(events)
    ensures Replay({}, events).Some? ==>
      forall name :: Balance(events, name) == if name in Replay({}, events).value then 1 else 0
    decreases |events|
  {
    if events == [] {
      assert forall k | 0 <= k <= |events| :: events[..k] == events;
      assert Even(events);
    } else {
      var last, earlier := events[|events| - 1], events[..|events| - 1];
      InPlaceIffInTurn(earlier);
      InTurnOneMore(events);
      assert earlier[..|earlier|] == earlier;
      hide InTurn;
      assert Replay({}, events).Some?
        <==> Replay({}, earlier).Some? && last.on != (last.name in Replay({}, earlier).value);
      assert Balance(events, last.name) == Balance(earlier, last.name) + if last.on then 1 else -1;
      if Replay({}, events).Some? {
        forall name
          ensures Balance(events, name) == if name in Replay({}, events).value then 1 else 0
        {
          assert Balance(events, name)
            == Balance(earlier, name) + if last.name != name then 0 else if last.on then 1 else -1;
        }
      } else if Replay({}, earlier).Some? {
        assert Balance(earlier, last.name) == if last.on then 1 else 0;
      }
    }
  }

  lemma InTurnOneMore(events: seq<Event>)
    requires events != []
    ensures InTurn(events) <==> InTurn(events[..|events| - 1]) && Even(events)
  {
    hide Even;
    var earlier := events[..|events| - 1];
    assert events[..|events|] == events;
    forall k | 0 <= k < |events|
      ensures events[..k] == earlier[..k]
    {
    }
    if InTurn(events) {
      assert forall k | 0 <= k <= |earlier| :: Even(earlier[..k]);
      assert Even(events[..|events|]);
    } else if InTurn(earlier) && Even(events) {
      assert forall k | 0 <= k <= |events| :: Even(events[..k]);
    }
  }

  /** Queueing one more command. */
  lemma SubscribedOneMore(commands: seq<IngestCommand>, command: IngestCommand)
    ensures Subscribed(commands + [command])
      == match Subscribed(commands) { case None => None case Some(names) => Replay(names, EventsOf(command)) }
  {
    assert (commands + [command])[..|commands|] == commands;
    ReplayJoin({}, Events(commands), EventsOf(command));
  }

  // -------------------------------------------------------------------------
  // The batch
  // -------------------------------------------------------------------------

  class CommandBatch {
    var commands: seq<IngestCommand>
    /** Every command taken for publishing so far. */
    ghost var taken: seq<IngestCommand>

    constructor ()
      ensures commands == [] && taken == []
    {
      commands, taken := [], [];
    }

    /** Every command ever queued. */
    ghost function Issued(): seq<IngestCommand>
      reads this
    {
      taken + commands
    }

    method Push(command: IngestCommand)
      modifies this
      ensures commands == old(commands) + [command] && taken == old(taken)
      ensures Issued() == old(Issued()) + [command]
    {
      commands := commands + [command];
    }

    method PushUnsubscribeBatch(pvs: seq<string>)
      modifies this
      ensures taken == old(taken)
      ensures commands == old(commands) + if pvs == [] then [] else [UnsubscribeBatch(pvs)]
      ensures Issued() == old(Issued()) + if pvs == [] then [] else [UnsubscribeBatch(pvs)]
    {
      if pvs != [] {
        commands := commands + [UnsubscribeBatch(pvs)];
      }
    }

    method Take() returns (batch: seq<IngestCommand>)
      modifies this
      ensures batch == old(commands) && commands == []
      ensures taken == old(taken) + batch && Issued() == old(Issued())
    {
      if commands == [] {
        return [];
      }
      batch := commands;
      commands, taken := [], taken + commands;
    }
  }
}
