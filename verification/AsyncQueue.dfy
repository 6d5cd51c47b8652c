/** The asynchronous database worker's guarded entry points: who owns an operation, and who
    frees it, for every state of the worker. */
module AsyncQueue {
  import opened Wrappers

  type OpId = nat

  /** What became of one call. */
  datatype Outcome = Queued | Inline | Refused

  /** Where a query holder's callback ends up. `Leaked` is neither freed nor reachable. */
  datatype CallbackFate = NoCallback | Delivered | Freed | Leaked

  datatype Log = Log(queue: seq<OpId>, executed: seq<OpId>, freed: seq<OpId>)

  function Disposition(live: bool, connected: bool): Outcome {
    if live then Queued else if connected then Inline else Refused
  }

  function Give(log: Log, live: bool, connected: bool, op: OpId): Log {
    match Disposition(live, connected)
    case Queued => log.(queue := log.queue + [op])
    case Inline => log.(executed := log.executed + [op], freed := log.freed + [op])
    case Refused => log.(freed := log.freed + [op])
  }

  class Database {
    var live: bool       // the worker body exists
    var connected: bool  // the asynchronous connection exists
    var queue: seq<OpId>
    var executed: seq<OpId>
    var freed: seq<OpId>

    ghost function State(): Log
      reads this
    {
      Log(queue, executed, freed)
    }

    /** A live worker's holder refuses, without taking the callback, when there is no result
        queue to deliver through. The callback is accounted for exactly when there is a holder
        and a live worker has a result queue. */
    method SafeDelayQueryHolder(holder: bool, callback: bool, results: bool) returns (fate: CallbackFate)
      ensures fate == NoCallback <==> !callback
      ensures callback ==> (fate in {Delivered, Freed} <==> holder && (live ==> results))
      ensures fate == Delivered <==> callback && holder && results && (live || connected)
    {
      if !holder || !callback {
        return if callback then Leaked else NoCallback;
      }
      if live {
        return if results then Delivered else Leaked;
      }
      if !connected || !results {
        return Freed;
      }
      return Delivered;
    }

    method SafeDelayOperation(op: Option<OpId>, succeeds: bool) returns (ok: bool)
      modifies this`queue, this`executed, this`freed
      ensures op.None? ==> !ok && State() == old(State())
      ensures op.Some? ==> State() == Give(old(State()), live, connected, op.value)
      ensures op.Some? && live ==>
        queue == old(queue) + [op.value] && executed == old(executed) && freed == old(freed)
      ensures op.Some? && !live && connected ==>
        queue == old(queue) && executed == old(executed) + [op.value] && freed == old(freed) + [op.value]
      ensures op.Some? && !live && !connected ==>
        queue == old(queue) && executed == old(executed) && freed == old(freed) + [op.value]
      ensures op.Some? ==> ok == (live || (connected && succeeds))
    {
      if op.None? {
        return false;
      }
      if live {
        queue := queue + [op.value];
        return true;
      }
      if !connected {
        freed := freed + [op.value];
        return false;
      }
      executed := executed + [op.value];
      ok := succeeds;
      freed := freed + [op.value];
    }
  }

  // --- runs ----------------------------------------------------------------------------

  /** An operation handed in, the worker finishing its front operation, and the worker body being
      nulled or created. When the worker gets on with its queue is left open. */
  datatype Event = Hand(op: OpId) | Work | Halt | Start

  datatype World = World(live: bool, connected: bool, log: Log)

  function Next(w: World, e: Event): World {
    match e
    case Hand(op) => w.(log := Give(w.log, w.live, w.connected, op))
    case Work =>
      if w.log.queue == [] then w
      else
        var op := w.log.queue[0];
        w.(log := Log(w.log.queue[1..], w.log.executed + [op], w.log.freed + [op]))
    case Halt => w.(live := false)
    case Start => w.(live := true)
  }

  function Run(w: World, events: seq<Event>): World
    decreases |events|
  {
    if events == [] then w else Run(Next(w, events[0]), events[1..])
  }

  function Handed(events: seq<Event>): seq<OpId>
    decreases |events|
  {
    if events == [] then []
    else (if events[0].Hand? then [events[0].op] else []) + Handed(events[1..])
  }

  lemma {:induction false} Conserved(w: World, events: seq<Event>)
    ensures var end := Run(w, events).log;
      multiset(w.log.queue) + multiset(w.log.freed) + multiset(Handed(events))
      == multiset(end.queue) + multiset(end.freed)
    decreases |events|
  {
    if events != [] {
      var e := events[0];
      Conserved(Next(w, e), events[1..]);
      if e.Work? && w.log.queue != [] {
        assert w.log.queue == [w.log.queue[0]] + w.log.queue[1..];
      }
    }
  }

  /** The operations handed in with neither a worker nor a connection. */
  function InVain(w: World, events: seq<Event>): seq<OpId>
    decreases |events|
  {
    if events == [] then []
    else
      (if events[0].Hand? && !w.live && !w.connected then [events[0].op] else [])
      + InVain(Next(w, events[0]), events[1..])
  }

  /** Over any run an operation is freed once for each time it is executed, and once for each time it
      was handed in with neither a worker nor a connection. So with a connection, whatever is freed
      has run. */
  lemma {:induction false} FreedHaveRun(w: World, events: seq<Event>, op: OpId)
    ensures var end := Run(w, events).log;
      multiset(end.freed)[op] + multiset(w.log.executed)[op]
      == multiset(w.log.freed)[op] + multiset(end.executed)[op] + multiset(InVain(w, events))[op]
    ensures w.connected ==> InVain(w, events) == []
    decreases |events|
  {
    if events != [] {
      NextFreed(w, events[0], op);
      NextInVain(w, events, op);
      FreedHaveRun(Next(w, events[0]), events[1..], op);
      assert Run(w, events) == Run(Next(w, events[0]), events[1..]);
      hide Run, Next, InVain;
    }
  }

  lemma NextInVain(w: World, events: seq<Event>, op: OpId)
    requires events != []
    ensures var e := events[0];
      multiset(InVain(w, events))[op] == multiset(InVain(Next(w, e), events[1..]))[op]
        + if e == Hand(op) && !w.live && !w.connected then 1 else 0
  {
    hide Next;
    var rest := InVain(Next(w, events[0]), events[1..]);
    assert [] + rest == rest;
  }

  lemma NextFreed(w: World, e: Event, op: OpId)
    ensures var next := Next(w, e).log;
      multiset(next.freed)[op] + multiset(w.log.executed)[op]
      == multiset(w.log.freed)[op] + multiset(next.executed)[op]
         + if e == Hand(op) && !w.live && !w.connected then 1 else 0
    ensures Next(w, e).connected == w.connected
  {
  }

  lemma {:induction false} ExecutedAreFreed(w: World, events: seq<Event>)
    requires multiset(w.log.executed) <= multiset(w.log.freed)
    ensures multiset(Run(w, events).log.executed) <= multiset(Run(w, events).log.freed)
    decreases |events|
  {
    if events != [] {
      ExecutedAreFreed(Next(w, events[0]), events[1..]);
    }
  }

  /** Every operation handed in during a run, from a fresh start, is waiting in the queue or
      has been freed, once altogether, and has been executed at most as often as freed. */
  lemma EachOperationOnce(live: bool, connected: bool, events: seq<Event>, op: OpId)
    requires multiset(Handed(events))[op] == 1
    ensures var end := Run(World(live, connected, Log([], [], [])), events).log;
      && multiset(end.queue)[op] + multiset(end.freed)[op] == 1
      && multiset(end.executed)[op] <= multiset(end.freed)[op]
  {
    var w := World(live, connected, Log([], [], []));
    Conserved(w, events);
    ExecutedAreFreed(w, events);
    assert multiset(w.log.queue) + multiset(w.log.freed) + multiset(Handed(events)) == multiset(Handed(events));
  }

  // --- order ---------------------------------------------------------------------------

  /** What has been executed, then what waits. */
  function Order(log: Log): seq<OpId> {
    log.executed + log.queue
  }

  predicate Takes(w: World, e: Event) {
    e.Hand? && Disposition(w.live, w.connected) != Refused
  }

  /** The operations a run accepts, in the order they were handed in. */
  function Accepted(w: World, events: seq<Event>): seq<OpId>
    decreases |events|
  {
    if events == [] then []
    else (if Takes(w, events[0]) then [events[0].op] else []) + Accepted(Next(w, events[0]), events[1..])
  }

  /** The operation runs inline while an earlier one still waits. */
  predicate Overtakes(w: World, e: Event) {
    e.Hand? && Disposition(w.live, w.connected) == Inline && w.log.queue != []
  }

  predicate AnyOvertakes(w: World, events: seq<Event>)
    decreases |events|
  {
    events != [] && (Overtakes(w, events[0]) || AnyOvertakes(Next(w, events[0]), events[1..]))
  }

  predicate Before(s: seq<OpId>, x: OpId, y: OpId) {
    exists i, j :: 0 <= i < j < |s| && s[i] == x && s[j] == y
  }

  predicate Distinct(s: seq<OpId>) {
    forall i, j | 0 <= i < j < |s| :: s[i] != s[j]
  }

  lemma NextOrder(w: World, e: Event)
    requires !Overtakes(w, e)
    ensures Order(Next(w, e).log) == Order(w.log) + if Takes(w, e) then [e.op] else []
  {
    if e.Work? && w.log.queue != [] {
      assert w.log.queue == [w.log.queue[0]] + w.log.queue[1..];
    }
  }

  lemma {:induction false} OrderKept(w: World, events: seq<Event>)
    requires !AnyOvertakes(w, events)
    ensures Order(Run(w, events).log) == Order(w.log) + Accepted(w, events)
    decreases |events|
  {
    hide Next, Order, Overtakes, Takes;
    if events != [] {
      NextOrder(w, events[0]);
      OrderKept(Next(w, events[0]), events[1..]);
    }
  }

  /** Operations once ordered never change places. */
  lemma {:induction false} BeforeStaysBefore(w: World, events: seq<Event>, x: OpId, y: OpId)
    requires Before(Order(w.log), x, y)
    ensures Before(Order(Run(w, events).log), x, y)
    decreases |events|
  {
    if events != [] {
      NextKeepsBefore(w, events[0], x, y);
      BeforeStaysBefore(Next(w, events[0]), events[1..], x, y);
    }
  }

  lemma NextKeepsBefore(w: World, e: Event, x: OpId, y: OpId)
    requires Before(Order(w.log), x, y)
    ensures Before(Order(Next(w, e).log), x, y)
  {
    var was, now := Order(w.log), Order(Next(w, e).log);
    var i, j :| 0 <= i < j < |was| && was[i] == x && was[j] == y;
    if Overtakes(w, e) {
      var n := |w.log.executed|;
      assert now == w.log.executed + [e.op] + w.log.queue;
      var i', j' := if i < n then i else i + 1, if j < n then j else j + 1;
      assert now[i'] == x && now[j'] == y;
    } else {
      NextOrder(w, e);
      assert now[i] == x && now[j] == y;
    }
  }

  lemma OneWayRound(s: seq<OpId>, x: OpId, y: OpId)
    requires Distinct(s) && Before(s, x, y)
    ensures !Before(s, y, x)
  {
  }

  /** For distinct operations, whatever the worker and its halts do: operations run and wait in
      the order they were handed in exactly when none runs inline while an earlier one waits. */
  lemma {:induction false} OrderKeptIff(w: World, events: seq<Event>)
    requires Distinct(Order(w.log) + Accepted(w, events))
    ensures Order(Run(w, events).log) == Order(w.log) + Accepted(w, events) <==> !AnyOvertakes(w, events)
    decreases |events|
  {
    hide Next, Order, Takes, Before, Distinct;
    if !AnyOvertakes(w, events) {
      OrderKept(w, events);
    } else if Overtakes(w, events[0]) {
      var first, op := w.log.queue[0], events[0].op;
      var wanted := Order(w.log) + Accepted(w, events);
      OvertakerGoesFirst(w, events[0]);
      BeforeStaysBefore(Next(w, events[0]), events[1..], op, first);
      WaitingIsBefore(w, events);
      OneWayRound(wanted, first, op);
    } else {
      NextOrder(w, events[0]);
      assert Order(Next(w, events[0]).log) + Accepted(Next(w, events[0]), events[1..])
          == Order(w.log) + Accepted(w, events);
      OrderKeptIff(Next(w, events[0]), events[1..]);
    }
  }

  lemma OvertakerGoesFirst(w: World, e: Event)
    requires Overtakes(w, e)
    ensures Before(Order(Next(w, e).log), e.op, w.log.queue[0])
  {
    var now := Order(Next(w, e).log);
    var n := |w.log.executed|;
    assert now[n] == e.op && now[n + 1] == w.log.queue[0];
  }

  lemma WaitingIsBefore(w: World, events: seq<Event>)
    requires events != [] && Overtakes(w, events[0])
    ensures Before(Order(w.log) + Accepted(w, events), w.log.queue[0], events[0].op)
  {
    var s := Order(w.log) + Accepted(w, events);
    var n, m := |w.log.executed|, |Order(w.log)|;
    assert s[n] == w.log.queue[0] && s[m] == events[0].op;
  }

  /** The worker body is only ever nulled once its queue is empty. */
  predicate HaltsWhenDrained(w: World, events: seq<Event>)
    decreases |events|
  {
    events == [] ||
    ((events[0].Halt? ==> w.log.queue == []) && HaltsWhenDrained(Next(w, events[0]), events[1..]))
  }

  /** So a halt that drains the queue first keeps the order over any run of restarts. */
  lemma {:induction false} DrainedHaltsKeepOrder(w: World, events: seq<Event>)
    requires (w.live || w.log.queue == []) && HaltsWhenDrained(w, events)
    ensures !AnyOvertakes(w, events)
    ensures Order(Run(w, events).log) == Order(w.log) + Accepted(w, events)
    decreases |events|
  {
    if events != [] {
      DrainedHaltsKeepOrder(Next(w, events[0]), events[1..]);
    }
    OrderKept(w, events);
  }
}
