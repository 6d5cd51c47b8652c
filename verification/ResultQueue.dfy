/** The result queue shared by the world thread and the database workers: its queue mutex, the
    connection lock that callbacks and workers also take, and what each interleaving does. */
module ResultQueue {
  import opened Wrappers

  type Callback = nat

  // --- the drain loop -------------------------------------------------------------------

  function Flatten(xs: seq<seq<Callback>>): seq<Callback> {
    if xs == [] then [] else xs[0] + Flatten(xs[1..])
  }

  lemma {:induction false} FlattenAppend(xs: seq<seq<Callback>>, x: seq<Callback>)
    ensures Flatten(xs + [x]) == Flatten(xs) + x
  {
    if xs != [] {
      assert (xs + [x])[1..] == xs[1..] + [x];
      FlattenAppend(xs[1..], x);
    } else {
      assert Flatten([x]) == x + Flatten([]);
    }
  }

  class SqlResultQueue {
    var queue: seq<Callback>

    /** `arrivals[k]` is what the producers push before the k-th time the lock is taken. The
        call drains what was queued and everything that arrived up to the pass that found
        nothing, and runs it in push order. */
    method Update(arrivals: seq<seq<Callback>>) returns (ran: seq<Callback>, passes: nat)
      modifies this
      ensures queue == []
      ensures passes > 0 && ran == old(queue) + Flatten(arrivals[..if passes <= |arrivals| then passes else |arrivals|])
      ensures passes == |ran| + 1
    {
      ran, passes := [], 0;
      ghost var seen := 0;
      while true
        invariant seen == if passes <= |arrivals| then passes else |arrivals|
        invariant ran + queue == old(queue) + Flatten(arrivals[..seen])
        invariant passes == |ran|
        decreases |arrivals| - seen, |queue|
      {
        if passes < |arrivals| {
          assert ran + (queue + arrivals[passes]) == (ran + queue) + arrivals[passes];
          queue := queue + arrivals[passes];
          FlattenAppend(arrivals[..passes], arrivals[passes]);
          assert arrivals[..passes] + [arrivals[passes]] == arrivals[..passes + 1];
          seen := seen + 1;
        }
        passes := passes + 1;
        if queue == [] {
          assert ran + queue == ran;
          break;
        }
        var callback := queue[0];
        assert ran + queue == (ran + [callback]) + queue[1..];
        queue := queue[1..];
        ran := ran + [callback];
      }
    }
  }

  // --- the threads and their locks --------------------------------------------------------

  datatype Thread = WorldThread | Producer(id: nat)

  /** The world thread: about to take the queue mutex, holding it, holding a callback that
      needs the connection, running it, or returned. */
  datatype Drain = AtLock | Locked | InHand(callback: Callback) | Running(callback: Callback) | Returned

  /** A worker: idle, using the connection, or holding the queue mutex as well to publish. */
  datatype Publish = Idle | OnConnection | Publishing

  datatype State = State(
    mutex: Option<Thread>, connection: Option<Thread>,
    queue: seq<Callback>, pushed: seq<Callback>, ran: seq<Callback>,
    world: Drain, producers: seq<Publish>)

  function Start(n: nat): State {
    State(None, None, [], [], [], AtLock, seq(n, _ => Idle))
  }

  datatype Act =
    | TakeMutex | Return | Pop | TakeConnection | Finish
    | Enter(id: nat) | Lock(id: nat) | Push(id: nat, callback: Callback) | Leave(id: nat)

  /** Which acts a state permits. `holding` is the upstream loop, which keeps the queue mutex
      while a callback waits for the connection and runs. */
  predicate Enabled(s: State, a: Act) {
    match a
    case TakeMutex => s.world.AtLock? && s.mutex.None?
    case Return => s.world.Locked? && s.queue == []
    case Pop => s.world.Locked? && s.queue != []
    case TakeConnection => s.world.InHand? && s.connection.None?
    case Finish => s.world.Running?
    case Enter(id) => id < |s.producers| && s.producers[id].Idle? && s.connection.None?
    case Lock(id) => id < |s.producers| && s.producers[id].OnConnection? && s.mutex.None?
    case Push(id, _) => id < |s.producers| && s.producers[id].Publishing?
    case Leave(id) => id < |s.producers| && s.producers[id].OnConnection?
  }

  function Do(s: State, a: Act, holding: bool): State
    requires Enabled(s, a)
  {
    match a
    case TakeMutex => s.(mutex := Some(WorldThread), world := Locked)
    case Return => s.(mutex := None, world := Returned)
    case Pop => s.(queue := s.queue[1..], world := InHand(s.queue[0]),
                   mutex := if holding then s.mutex else None)
    case TakeConnection => s.(connection := Some(WorldThread), world := Running(s.world.callback))
    case Finish => s.(connection := None, ran := s.ran + [s.world.callback],
                      world := if holding then Locked else AtLock)
    case Enter(id) => s.(connection := Some(Producer(id)), producers := s.producers[id := OnConnection])
    case Lock(id) => s.(mutex := Some(Producer(id)), producers := s.producers[id := Publishing])
    case Push(id, callback) => s.(mutex := None, queue := s.queue + [callback], pushed := s.pushed + [callback],
                                  producers := s.producers[id := OnConnection])
    case Leave(id) => s.(connection := None, producers := s.producers[id := Idle])
  }

  predicate Possible(s: State, acts: seq<Act>, holding: bool)
    decreases |acts|
  {
    acts == [] || (Enabled(s, acts[0]) && Possible(Do(s, acts[0], holding), acts[1..], holding))
  }

  function Run(s: State, acts: seq<Act>, holding: bool): State
    requires Possible(s, acts, holding)
    decreases |acts|
  {
    if acts == [] then s else Run(Do(s, acts[0], holding), acts[1..], holding)
  }

  function Carried(s: State): seq<Callback> {
    if s.world.InHand? || s.world.Running? then [s.world.callback] else []
  }

  ghost predicate Inv(s: State, holding: bool) {
    && s.ran + Carried(s) + s.queue == s.pushed
    && (s.mutex == Some(WorldThread) <==>
          s.world.Locked? || (holding && (s.world.InHand? || s.world.Running?)))
    && (s.connection == Some(WorldThread) <==> s.world.Running?)
    && (forall id: nat :: s.mutex == Some(Producer(id)) <==> id < |s.producers| && s.producers[id].Publishing?)
    && (forall id: nat :: s.connection == Some(Producer(id)) <==> id < |s.producers| && !s.producers[id].Idle?)
  }

  lemma {:induction false} InvHolds(s: State, acts: seq<Act>, holding: bool)
    requires Inv(s, holding) && Possible(s, acts, holding)
    ensures Inv(Run(s, acts, holding), holding)
    decreases |acts|
  {
    if acts != [] {
      StepKeepsInv(s, acts[0], holding);
      InvHolds(Do(s, acts[0], holding), acts[1..], holding);
    }
  }

  lemma StepKeepsInv(s: State, a: Act, holding: bool)
    requires Inv(s, holding) && Enabled(s, a)
    ensures Inv(Do(s, a, holding), holding)
  {
    var s' := Do(s, a, holding);
    if a.Pop? {
      assert s.queue == [s.queue[0]] + s.queue[1..];
    } else if a.Enter? || a.Lock? || a.Push? || a.Leave? {
      assert forall id: nat | id < |s.producers| && id != a.id :: s'.producers[id] == s.producers[id];
    }
  }

  /** Every interleaving: each callback pushed so far has run, is being run, or waits, exactly
      once and in push order. */
  lemma PushOrderKept(n: nat, acts: seq<Act>, holding: bool)
    requires Possible(Start(n), acts, holding)
    ensures var s := Run(Start(n), acts, holding);
      s.ran + Carried(s) + s.queue == s.pushed
  {
    InvHolds(Start(n), acts, holding);
  }

  /** The thread that holds what `t` is waiting for. */
  function WaitsFor(s: State, t: Thread): Option<Thread> {
    match t
    case WorldThread =>
      if s.world.AtLock? then s.mutex
      else if s.world.InHand? then s.connection
      else None
    case Producer(id) =>
      if id >= |s.producers| then None
      else if s.producers[id].Idle? then s.connection
      else if s.producers[id].OnConnection? then s.mutex
      else None
  }

  /** The drain loop that releases the mutex: the wait-for graph has no cycle. Whoever holds
      the mutex waits for nobody, and whoever holds the connection waits at most for it. */
  lemma NoCircularWait(n: nat, acts: seq<Act>, t: Thread)
    requires Possible(Start(n), acts, false)
    ensures var s := Run(Start(n), acts, false);
      && (s.mutex.Some? ==> WaitsFor(s, s.mutex.value).None?)
      && (s.connection.Some? ==>
            WaitsFor(s, s.connection.value).None? || WaitsFor(s, s.connection.value) == s.mutex)
      && (s.mutex == Some(WorldThread) ==> !s.world.InHand? && !s.world.Running?)
      && (WaitsFor(s, t).Some? ==>
            var u := WaitsFor(s, t).value;
            WaitsFor(s, u).None? || WaitsFor(s, WaitsFor(s, u).value).None?)
  {
    InvHolds(Start(n), acts, false);
  }

  function Actor(a: Act): Thread {
    if a.Enter? || a.Lock? || a.Push? || a.Leave? then Producer(a.id) else WorldThread
  }

  /** So the world thread always gets through: if it has not returned, then it can act, or the
      thread it waits for can. */
  lemma SomebodyCanAct(n: nat, acts: seq<Act>)
    requires Possible(Start(n), acts, false)
    requires !Run(Start(n), acts, false).world.Returned?
    ensures var s := Run(Start(n), acts, false);
      exists a: Act :: Enabled(s, a) && (Actor(a) == WorldThread || Some(Actor(a)) == WaitsFor(s, WorldThread))
  {
    var s := Run(Start(n), acts, false);
    InvHolds(Start(n), acts, false);
    match s.world
    case AtLock =>
      if s.mutex.None? {
        assert Enabled(s, TakeMutex);
      } else {
        assert Enabled(s, Push(s.mutex.value.id, 0));
      }
    case Locked =>
      assert Enabled(s, Return) || Enabled(s, Pop);
    case InHand(_) =>
      if s.connection.None? {
        assert Enabled(s, TakeConnection);
      } else {
        var id := s.connection.value.id;
        assert Enabled(s, Leave(id)) || Enabled(s, Push(id, 0));
      }
    case Running(_) =>
      assert Enabled(s, Finish);
  }

  ghost predicate Cycle(s: State, t: Thread, u: Thread) {
    WaitsFor(s, t) == Some(u) && WaitsFor(s, u) == Some(t)
  }

  /** A worker has the connection, and wants the mutex while the world thread holds a callback. */
  predicate Crossed(s: State) {
    && s.world.InHand? && s.connection.Some? && s.connection.value.Producer?
    && s.connection.value.id < |s.producers| && s.producers[s.connection.value.id].OnConnection?
  }

  /** In every interleaving, the upstream loop has a wait-for cycle exactly when a callback is in
      hand while a worker with the connection is about to publish; the cycle is theirs. */
  lemma UpstreamCycleIff(n: nat, acts: seq<Act>)
    requires Possible(Start(n), acts, true)
    ensures var s := Run(Start(n), acts, true);
      && ((exists t, u :: Cycle(s, t, u)) <==> Crossed(s))
      && (Crossed(s) ==> Cycle(s, WorldThread, s.connection.value))
  {
    InvHolds(Start(n), acts, true);
    var s := Run(Start(n), acts, true);
    hide Run, Possible;
    forall t, u ensures Cycle(s, t, u) ==> Crossed(s) {
    }
    if Crossed(s) {
      assert Cycle(s, WorldThread, s.connection.value);
    }
  }

  /** One permitted act of the upstream loop. */
  predicate Steps(s: State, a: Act, next: State) {
    Enabled(s, a) && Do(s, a, true) == next
  }

  lemma RunOf(s: State, a: Act, next: State, rest: seq<Act>, end: State)
    requires Steps(s, a, next)
    requires Possible(next, rest, true) && Run(next, rest, true) == end
    ensures Possible(s, [a] + rest, true) && Run(s, [a] + rest, true) == end
  {
    assert ([a] + rest)[1..] == rest;
  }

  const QUEUED := State(None, Some(Producer(0)), [7], [7], [], AtLock, [OnConnection])
  const CROSSED := State(Some(WorldThread), Some(Producer(0)), [], [7], [], InHand(7), [OnConnection])

  lemma PublishOne()
    ensures Possible(Start(1), [Enter(0), Lock(0), Push(0, 7)], true)
    ensures Run(Start(1), [Enter(0), Lock(0), Push(0, 7)], true) == QUEUED
  {
    var s1 := State(None, Some(Producer(0)), [], [], [], AtLock, [OnConnection]);
    var s2 := State(Some(Producer(0)), Some(Producer(0)), [], [], [], AtLock, [Publishing]);
    RunOf(s2, Push(0, 7), QUEUED, [], QUEUED);
    RunOf(s1, Lock(0), s2, [Push(0, 7)], QUEUED);
    assert [Lock(0)] + [Push(0, 7)] == [Lock(0), Push(0, 7)];
    RunOf(Start(1), Enter(0), s1, [Lock(0), Push(0, 7)], QUEUED);
    assert [Enter(0)] + [Lock(0), Push(0, 7)] == [Enter(0), Lock(0), Push(0, 7)];
  }

  lemma CrossLocks()
    ensures Possible(QUEUED, [TakeMutex, Pop], true) && Run(QUEUED, [TakeMutex, Pop], true) == CROSSED
  {
    var s1 := State(Some(WorldThread), Some(Producer(0)), [7], [7], [], Locked, [OnConnection]);
    RunOf(s1, Pop, CROSSED, [], CROSSED);
    RunOf(QUEUED, TakeMutex, s1, [Pop], CROSSED);
    assert [TakeMutex] + [Pop] == [TakeMutex, Pop];
  }

  lemma {:induction false} RunJoins(s: State, first: seq<Act>, second: seq<Act>, holding: bool)
    requires Possible(s, first, holding) && Possible(Run(s, first, holding), second, holding)
    ensures Possible(s, first + second, holding)
    ensures Run(s, first + second, holding) == Run(Run(s, first, holding), second, holding)
    decreases |first|
  {
    hide Enabled, Do;
    if first == [] {
      assert first + second == second;
    } else {
      assert (first + second)[1..] == first[1..] + second;
      RunJoins(Do(s, first[0], holding), first[1..], second, holding);
    }
  }

  /** The upstream loop reaches a state where the world thread, holding the mutex, waits for
      the connection of a worker that waits for the mutex. */
  lemma UpstreamDeadlocks()
    ensures var acts := [Enter(0), Lock(0), Push(0, 7)] + [TakeMutex, Pop];
      && Possible(Start(1), acts, true)
      && var s := Run(Start(1), acts, true);
      && WaitsFor(s, WorldThread) == Some(Producer(0))
      && WaitsFor(s, Producer(0)) == Some(WorldThread)
  {
    hide Run, Possible;
    PublishOne();
    CrossLocks();
    RunJoins(Start(1), [Enter(0), Lock(0), Push(0, 7)], [TakeMutex, Pop], true);
  }
}
