/** The character-database probe and the login gate it feeds: one probe in flight, expiry,
    cadence, and generation tokens, all on a 32-bit millisecond clock that wraps. */
module DatabaseProbe {
  import opened Wrappers

  const WRAP := 0x1_0000_0000
  const UINT32_MAX := 0xFFFF_FFFF
  const DELAY_LIMIT := 10_000
  const FRESH_LIMIT := 15_000
  const EXPIRY := 15_000
  const CADENCE := 10_000
  const CHARACTER_DB := "CharacterDatabase"

  type U32 = x: int | 0 <= x < WRAP

  /** The 32-bit clock's reading of a real time. */
  function Low(t: nat): U32 {
    t % WRAP
  }

  /** Unsigned 32-bit `now - then`. */
  function Since(now: U32, before: U32): U32 {
    (now - before) % WRAP
  }

  datatype Gate = Gate(
    inFlight: bool, hasResult: bool, hasStarted: bool,
    sentAt: U32, completedAt: U32, activeToken: U32, delay: map<string, U32>)

  const NEW_GATE := Gate(false, false, false, 0, 0, 0, map[])

  predicate Ready(g: Gate, now: U32) {
    && g.hasResult
    && CHARACTER_DB in g.delay
    && g.delay[CHARACTER_DB] < DELAY_LIMIT
    && Since(now, g.completedAt) <= FRESH_LIMIT
  }

  function Expire(g: Gate, now: U32): Gate {
    g.(inFlight := false, activeToken := 0, delay := g.delay[CHARACTER_DB := UINT32_MAX],
       hasResult := true, completedAt := now)
  }

  predicate Expires(g: Gate, now: U32) {
    g.inFlight && Since(now, g.sentAt) >= EXPIRY
  }

  function Begin(g: Gate, now: U32): (Gate, Option<U32>) {
    if g.inFlight && Since(now, g.sentAt) < EXPIRY then (g, None)
    else
      var g' := if g.inFlight then Expire(g, now) else g;
      if g'.hasStarted && Since(now, g'.sentAt) < CADENCE then (g', None)
      else (g'.(hasStarted := true, activeToken := now, inFlight := true, sentAt := now), Some(now))
  }

  function Complete(g: Gate, db: string, token: U32, delay: U32, now: U32, successful: bool): Gate {
    if !g.inFlight || token != g.activeToken then g
    else g.(delay := g.delay[db := if successful then delay else UINT32_MAX],
            hasResult := true, completedAt := now, inFlight := false, activeToken := 0)
  }

  /** `queued` is the answer of the asynchronous query, and `later` the clock read after it. */
  function Schedule(g: Gate, now: U32, queued: bool, later: U32): (Gate, bool) {
    var (g', token) := Begin(g, now);
    if token.None? then (g', false)
    else if queued then (g', true)
    else (Complete(g', CHARACTER_DB, token.value, UINT32_MAX, later, false), false)
  }

  function Ping(g: Gate, pingStart: U32, db: string, now: U32, ok: bool): Gate {
    Complete(g, db, pingStart, Since(now, pingStart), now, ok)
  }

  /** The manager's probe fields, updated in place. */
  class RandomPlayerbotMgr {
    var inFlight: bool
    var hasResult: bool
    var hasStarted: bool
    var sentAt: U32
    var completedAt: U32
    var activeToken: U32
    var databaseDelay: map<string, U32>

    ghost function State(): Gate
      reads this
    {
      Gate(inFlight, hasResult, hasStarted, sentAt, completedAt, activeToken, databaseDelay)
    }

    constructor ()
      ensures State() == NEW_GATE
    {
      inFlight, hasResult, hasStarted := false, false, false;
      sentAt, completedAt, activeToken := 0, 0, 0;
      databaseDelay := map[];
    }

    method ReadyForLogin(now: U32) returns (ready: bool)
      ensures ready == Ready(State(), now)
    {
      if !hasResult {
        return false;
      }
      ready := CHARACTER_DB in databaseDelay &&
               databaseDelay[CHARACTER_DB] < DELAY_LIMIT &&
               Since(now, completedAt) <= FRESH_LIMIT;
    }

    method BeginProbe(now: U32) returns (token: Option<U32>)
      modifies this
      ensures (State(), token) == Begin(old(State()), now)
    {
      if inFlight {
        if Since(now, sentAt) < EXPIRY {
          return None;
        }
        inFlight := false;
        activeToken := 0;
        databaseDelay := databaseDelay[CHARACTER_DB := UINT32_MAX];
        hasResult := true;
        completedAt := now;
      }
      if hasStarted && Since(now, sentAt) < CADENCE {
        return None;
      }
      hasStarted := true;
      activeToken := now;
      inFlight := true;
      sentAt := now;
      token := Some(now);
    }

    method CompleteProbe(db: string, token: U32, delay: U32, now: U32, successful: bool)
      modifies this
      ensures State() == Complete(old(State()), db, token, delay, now, successful)
      ensures !old(inFlight) || token != old(activeToken) ==> State() == old(State())
      ensures old(inFlight) && token == old(activeToken) ==>
        && !inFlight && hasResult && completedAt == now && activeToken == 0
        && hasStarted == old(hasStarted) && sentAt == old(sentAt)
        && databaseDelay == old(databaseDelay)[db := if successful then delay else 0xFFFF_FFFF]
    {
      if !inFlight || token != activeToken {
        return;
      }
      databaseDelay := databaseDelay[db := if successful then delay else UINT32_MAX];
      hasResult := true;
      completedAt := now;
      inFlight := false;
      activeToken := 0;
    }

    method ScheduleProbe(now: U32, queued: bool, later: U32) returns (scheduled: bool)
      modifies this
      ensures (State(), scheduled) == Schedule(old(State()), now, queued, later)
    {
      var token := BeginProbe(now);
      if token.None? {
        return false;
      }
      if !queued {
        CompleteProbe(CHARACTER_DB, token.value, UINT32_MAX, later, false);
      }
      scheduled := queued;
    }

    method DatabasePing(pingStart: U32, db: string, now: U32, ok: bool)
      modifies this
      ensures State() == Ping(old(State()), pingStart, db, now, ok)
    {
      CompleteProbe(db, pingStart, Since(now, pingStart), now, ok);
    }
  }

  // --- runs in real time --------------------------------------------------------------

  /** A scheduling call at real time `at` (a refused query reports back at `failedAt`), or the
      callback of the generation that began at real time `generation`. Lost callbacks are
      events that never come; late ones are events that come at any later time. */
  datatype Event =
    | Poll(at: nat, queued: bool, failedAt: nat)
    | Callback(at: nat, generation: nat, ok: bool)

  function Step(g: Gate, e: Event): Gate {
    match e
    case Poll(at, queued, failedAt) => Schedule(g, Low(at), queued, Low(failedAt)).0
    case Callback(at, generation, ok) => Ping(g, Low(generation), "CharacterDatabase", Low(at), ok)
  }

  /** Times never go back, and a callback follows the probe it answers. */
  predicate Ordered(from: nat, events: seq<Event>)
    decreases |events|
  {
    events == [] ||
    (match events[0]
     case Poll(at, _, failedAt) => from <= at <= failedAt && Ordered(failedAt, events[1..])
     case Callback(at, generation, _) => from <= at && generation <= at && Ordered(at, events[1..]))
  }

  lemma SinceIsDifference(t: nat, s: nat)
    requires s <= t
    ensures Since(Low(t), Low(s)) == Low(t - s)
    ensures Low(t - s) <= t - s
  {
    var a, b := t / WRAP, s / WRAP;
    assert t == a * WRAP + Low(t) && s == b * WRAP + Low(s);
    if Low(t) >= Low(s) {
      LowOf(t - s, a - b, Low(t) - Low(s));
    } else {
      LowOf(t - s, a - b - 1, Low(t) - Low(s) + WRAP);
    }
  }

  lemma LowOf(d: nat, k: int, r: int)
    requires d == k * WRAP + r && 0 <= r < WRAP
    ensures Low(d) == r
  {
  }

  // --- the same gate on an unbounded clock ---------------------------------------------

  /** How the most recently settled generation ended, and when. */
  datatype Verdict = Verdict(settled: nat, ok: bool, trip: nat)

  datatype Ideal = Ideal(live: Option<nat>, last: Option<nat>, verdict: Option<Verdict>)

  /** The generation succeeded in time and settled recently, in real time. */
  predicate Fresh(verdict: Option<Verdict>, now: nat) {
    && verdict.Some?
    && verdict.value.ok
    && verdict.value.trip < 10_000
    && now - verdict.value.settled <= 15_000
  }

  function IdealStep(i: Ideal, e: Event): Ideal {
    match e
    case Poll(at, queued, failedAt) =>
      if i.live.Some? && at - i.live.value < 15_000 then i
      else
        var i' := if i.live.Some? then i.(live := None, verdict := Some(Verdict(at, false, 0))) else i;
        if i'.last.Some? && at - i'.last.value < 10_000 then i'
        else if queued then i'.(live := Some(at), last := Some(at))
        else i'.(live := None, last := Some(at), verdict := Some(Verdict(failedAt, false, 0)))
    case Callback(at, generation, ok) =>
      if i.live != Some(generation) then i
      else i.(live := None, verdict := Some(Verdict(at, ok, if generation <= at then at - generation else 0)))
  }

  /** The wrapped comparison of an elapsed time with a limit gives the true answer. */
  predicate Unaliased(elapsed: int, limit: int) {
    0 <= elapsed && (elapsed < limit || elapsed % WRAP >= limit)
  }

  /** No clock comparison this event makes is off by whole wraps. */
  predicate Clear(i: Ideal, e: Event) {
    match e
    case Poll(at, _, _) =>
      && (i.live.Some? ==> Unaliased(at - i.live.value, EXPIRY))
      && (i.last.Some? ==> Unaliased(at - i.last.value, CADENCE))
    case Callback(_, generation, _) =>
      i.live.Some? && Low(i.live.value) == Low(generation) ==> i.live.value == generation
  }

  ghost predicate Refines(g: Gate, i: Ideal, clock: nat) {
    && (g.inFlight <==> i.live.Some?)
    && (g.hasStarted <==> i.last.Some?)
    && (i.last.Some? ==> g.sentAt == Low(i.last.value) && i.last.value <= clock)
    && (i.live.Some? ==> i.live == i.last && g.activeToken == Low(i.live.value))
    && Records(g, i.verdict, clock)
  }

  function Clock(e: Event): nat {
    match e
    case Poll(_, _, failedAt) => failedAt
    case Callback(at, _, _) => at
  }

  lemma StepRefines(g: Gate, i: Ideal, from: nat, e: Event)
    requires Refines(g, i, from) && Ordered(from, [e]) && Clear(i, e)
    ensures Refines(Step(g, e), IdealStep(i, e), Clock(e))
  {
    match e
    case Poll(at, queued, failedAt) =>
      if i.last.Some? {
        SinceIsDifference(at, i.last.value);
      }
    case Callback(at, generation, ok) =>
      SinceIsDifference(at, generation);
  }

  function Run(g: Gate, events: seq<Event>): Gate
    decreases |events|
  {
    if events == [] then g else Run(Step(g, events[0]), events[1..])
  }

  function IdealRun(i: Ideal, events: seq<Event>): Ideal
    decreases |events|
  {
    if events == [] then i else IdealRun(IdealStep(i, events[0]), events[1..])
  }

  predicate AllClear(i: Ideal, events: seq<Event>)
    decreases |events|
  {
    events == [] || (Clear(i, events[0]) && AllClear(IdealStep(i, events[0]), events[1..]))
  }

  function EndClock(from: nat, events: seq<Event>): nat
    decreases |events|
  {
    if events == [] then from else EndClock(Clock(events[0]), events[1..])
  }

  lemma OrderedParts(from: nat, events: seq<Event>)
    requires Ordered(from, events) && events != []
    ensures Ordered(from, [events[0]]) && Ordered(Clock(events[0]), events[1..])
  {
    assert [events[0]][1..] == [];
  }

  /** Over any run whose comparisons are unaliased, the wrapping gate is the unbounded one. */
  lemma {:induction false} RunRefines(g: Gate, i: Ideal, from: nat, events: seq<Event>)
    requires Refines(g, i, from) && Ordered(from, events) && AllClear(i, events)
    ensures Refines(Run(g, events), IdealRun(i, events), EndClock(from, events))
    decreases |events|
  {
    if events != [] {
      OrderedParts(from, events);
      StepRefines(g, i, from, events[0]);
      RunRefines(Step(g, events[0]), IdealStep(i, events[0]), Clock(events[0]), events[1..]);
    }
  }

  /** Every event comes less than a wrap, short of one expiry, after the poll before it, and every
      callback less than a wrap after its generation began. */
  predicate ShortGaps(poll: Option<nat>, events: seq<Event>)
    decreases |events|
  {
    events == [] ||
    (match events[0]
     case Poll(at, _, _) => (poll.Some? ==> at - poll.value < WRAP - EXPIRY) && ShortGaps(Some(at), events[1..])
     case Callback(at, generation, _) =>
       && (poll.Some? ==> at - poll.value < WRAP - EXPIRY)
       && at - generation < WRAP
       && ShortGaps(poll, events[1..]))
  }

  /** The last start is no older than one expiry at the last poll. */
  predicate Recent(i: Ideal, poll: Option<nat>) {
    && (i.last.Some? ==> poll.Some? && i.last.value <= poll.value < i.last.value + EXPIRY)
    && (i.live.Some? ==> i.live == i.last)
  }

  /** No comparison of such a run is aliased. */
  lemma {:induction false} ShortGapsAreClear(i: Ideal, poll: Option<nat>, from: nat, events: seq<Event>)
    requires Recent(i, poll) && (poll.Some? ==> poll.value <= from)
    requires Ordered(from, events) && ShortGaps(poll, events)
    ensures AllClear(i, events)
    decreases |events|
  {
    if events != [] {
      var e := events[0];
      OrderedParts(from, events);
      if e.Callback? && i.live.Some? {
        StaleCallbacksAreIgnored(NEW_GATE, i.live.value, e.generation, e.at, e.ok);
      }
      ShortGapsAreClear(IdealStep(i, e), if e.Poll? then Some(e.at) else poll, Clock(e), events[1..]);
    }
  }

  // --- the gate's last settlement --------------------------------------------------------------

  /** The settlement the wrapping gate itself accepts: its real time, its outcome, and for a
      callback the real round trip of the generation it answers. */
  function Settle(g: Gate, verdict: Option<Verdict>, e: Event): Option<Verdict> {
    match e
    case Poll(at, queued, failedAt) =>
      if Begin(g, Low(at)).1.Some? && !queued then Some(Verdict(failedAt, false, 0))
      else if Expires(g, Low(at)) then Some(Verdict(at, false, 0))
      else verdict
    case Callback(at, generation, ok) =>
      if g.inFlight && g.activeToken == Low(generation)
      then Some(Verdict(at, ok, if generation <= at then at - generation else 0))
      else verdict
  }

  function Settled(g: Gate, verdict: Option<Verdict>, events: seq<Event>): Option<Verdict>
    decreases |events|
  {
    if events == [] then verdict else Settled(Step(g, events[0]), Settle(g, verdict, events[0]), events[1..])
  }

  predicate Records(g: Gate, verdict: Option<Verdict>, clock: nat) {
    && (g.hasResult <==> verdict.Some?)
    && (verdict.Some? ==>
          && var v := verdict.value;
          && v.settled <= clock
          && g.completedAt == Low(v.settled)
          && CHARACTER_DB in g.delay
          && g.delay[CHARACTER_DB] == if v.ok then Low(v.trip) else UINT32_MAX)
  }

  lemma {:induction false} RunRecords(g: Gate, verdict: Option<Verdict>, from: nat, events: seq<Event>)
    requires Records(g, verdict, from) && Ordered(from, events)
    ensures Records(Run(g, events), Settled(g, verdict, events), EndClock(from, events))
    decreases |events|
  {
    if events != [] {
      var e := events[0];
      OrderedParts(from, events);
      if e.Callback? {
        SinceIsDifference(e.at, e.generation);
      }
      RunRecords(Step(g, e), Settle(g, verdict, e), Clock(e), events[1..]);
    }
  }

  /** Login-gate soundness, over every run. An open gate means the last generation it settled
      succeeded, with a true round trip under the limit and settled recently, exactly when neither
      elapsed time reaches a whole wrap; and the gate is never shut when it should be open. */
  lemma GateIsSoundIff(events: seq<Event>, now: nat)
    requires Ordered(0, events) && EndClock(0, events) <= now
    ensures var verdict := Settled(NEW_GATE, None, events);
      var open := Ready(Run(NEW_GATE, events), Low(now));
      && (Fresh(verdict, now) ==> open)
      && (open ==> verdict.Some? && verdict.value.ok)
      && (open ==> (Fresh(verdict, now) <==>
                      verdict.value.trip < 0x1_0000_0000 && now - verdict.value.settled < 0x1_0000_0000))
  {
    RunRecords(NEW_GATE, None, 0, events);
    var verdict := Settled(NEW_GATE, None, events);
    if verdict.Some? {
      SinceIsDifference(now, verdict.value.settled);
    }
  }

  lemma {:induction false} SettledIsIdeal(g: Gate, i: Ideal, from: nat, events: seq<Event>)
    requires Refines(g, i, from) && Ordered(from, events) && AllClear(i, events)
    ensures Settled(g, i.verdict, events) == IdealRun(i, events).verdict
    decreases |events|
  {
    if events != [] {
      var e := events[0];
      OrderedParts(from, events);
      StepRefines(g, i, from, e);
      if e.Poll? && i.last.Some? {
        SinceIsDifference(e.at, i.last.value);
      }
      SettledIsIdeal(Step(g, e), IdealStep(i, e), Clock(e), events[1..]);
    }
  }

  /** With gaps under a wrap, the gate is open exactly when an unbounded clock would open it, until
      the last settlement is itself a whole wrap old. */
  lemma ShortGapsKeepGateSound(events: seq<Event>, now: nat)
    requires Ordered(0, events) && EndClock(0, events) <= now && ShortGaps(None, events)
    ensures var verdict := IdealRun(Ideal(None, None, None), events).verdict;
      var open := Ready(Run(NEW_GATE, events), Low(now));
      && (Fresh(verdict, now) ==> open)
      && (open ==> verdict.Some? && (Fresh(verdict, now) <==> now - verdict.value.settled < WRAP))
  {
    var start := Ideal(None, None, None);
    ShortGapsAreClear(start, None, 0, events);
    SettledIsIdeal(NEW_GATE, start, 0, events);
    GateIsSoundIff(events, now);
    ShortTrips(start, None, events);
  }

  lemma {:induction false} ShortTrips(i: Ideal, poll: Option<nat>, events: seq<Event>)
    requires ShortGaps(poll, events) && (i.verdict.Some? ==> i.verdict.value.trip < WRAP)
    ensures var verdict := IdealRun(i, events).verdict; verdict.Some? ==> verdict.value.trip < WRAP
    decreases |events|
  {
    if events != [] {
      ShortTrips(IdealStep(i, events[0]), if events[0].Poll? then Some(events[0].at) else poll, events[1..]);
    }
  }

  /** One wrap of silence after a success, and the gate reads as fresh again. */
  lemma GateReopensAfterAWrap()
    ensures var run := [Poll(0, true, 0), Callback(5, 0, true)];
      && Ordered(0, run) && AllClear(Ideal(None, None, None), run)
      && Ready(Run(NEW_GATE, run), Low(5 + WRAP))
      && !Fresh(IdealRun(Ideal(None, None, None), run).verdict, 5 + WRAP)
  {
    var run := [Poll(0, true, 0), Callback(5, 0, true)];
    assert run[1..] == [Callback(5, 0, true)] && run[1..][1..] == [];
    var g1 := Step(NEW_GATE, run[0]);
    assert g1 == Gate(true, false, true, 0, 0, 0, map[]);
    var g2 := Step(g1, run[1]);
    assert g2 == Gate(false, true, true, 0, 5, 0, map[CHARACTER_DB := 5]);
    assert Run(NEW_GATE, run) == Run(g1, run[1..]) == Run(g2, []) == g2;
    var i1 := IdealStep(Ideal(None, None, None), run[0]);
    var i2 := IdealStep(i1, run[1]);
    assert IdealRun(Ideal(None, None, None), run) == IdealRun(i1, run[1..]) == IdealRun(i2, []) == i2;
    assert AllClear(i2, []) && AllClear(i1, run[1..]);
    assert Ordered(5, []) && Ordered(0, run[1..]);
  }

  // --- what holds whatever the clock does ------------------------------------------------

  /** The real times at which probes start, the wrapping gate deciding. */
  function Starts(g: Gate, events: seq<Event>): seq<nat>
    decreases |events|
  {
    if events == [] then []
    else (if events[0].Poll? && Begin(g, Low(events[0].at)).1.Some? then [events[0].at] else [])
         + Starts(Step(g, events[0]), events[1..])
  }

  predicate Spaced(from: nat, times: seq<nat>, gap: nat)
    decreases |times|
  {
    times == [] || (from + gap <= times[0] && Spaced(times[0], times[1..], gap))
  }

  /** Probe starts are a full cadence apart in real time, however often the clock wraps. */
  lemma {:induction false} StartsAreSpaced(g: Gate, last: nat, from: nat, events: seq<Event>)
    requires g.hasStarted && g.sentAt == Low(last) && last <= from && Ordered(from, events)
    ensures Spaced(last, Starts(g, events), 10_000)
    decreases |events|
  {
    if events != [] {
      OrderedParts(from, events);
      var e := events[0];
      var rest := Starts(Step(g, e), events[1..]);
      if e.Poll? && Begin(g, Low(e.at)).1.Some? {
        SinceIsDifference(e.at, last);
        StartsAreSpaced(Step(g, e), e.at, Clock(e), events[1..]);
        assert ([e.at] + rest)[1..] == rest;
      } else {
        StartsAreSpaced(Step(g, e), last, Clock(e), events[1..]);
        assert [] + rest == rest;
      }
    }
  }

  /** The first start of a manager that never probed is unconstrained; the rest are spaced. */
  lemma {:induction false} AllStartsAreSpaced(g: Gate, from: nat, events: seq<Event>)
    requires !g.hasStarted && !g.inFlight && Ordered(from, events)
    ensures var starts := Starts(g, events);
      starts != [] ==> Spaced(starts[0], starts[1..], 10_000)
    decreases |events|
  {
    if events != [] {
      OrderedParts(from, events);
      var e := events[0];
      var rest := Starts(Step(g, e), events[1..]);
      if e.Poll? {
        StartsAreSpaced(Step(g, e), e.at, Clock(e), events[1..]);
        assert ([e.at] + rest)[1..] == rest;
      } else {
        AllStartsAreSpaced(Step(g, e), Clock(e), events[1..]);
        assert [] + rest == rest;
      }
    }
  }

  /** A generation is expired only after its full allowance of real time, and the poll that
      expires it starts its successor: the gate is live again with a new token. */
  lemma ExpiryIsLate(g: Gate, last: nat, at: nat)
    requires g.hasStarted && g.sentAt == Low(last) && last <= at
    requires Expires(g, Low(at))
    ensures last + 15_000 <= at
    ensures Begin(g, Low(at)).1 == Some(Low(at))
  {
    SinceIsDifference(at, last);
  }

  /** A callback moves the gate exactly when the gate is waiting for a generation whose token
      it carries; another generation can carry it only from a whole number of wraps away. */
  lemma StaleCallbacksAreIgnored(g: Gate, live: nat, generation: nat, at: nat, ok: bool)
    requires g.inFlight ==> g.activeToken == Low(live)
    ensures g.inFlight && Low(generation) == Low(live) <==>
              Step(g, Callback(at, generation, ok)) != g
    ensures generation != live && -WRAP < generation - live < WRAP ==>
              Low(generation) != Low(live) && Step(g, Callback(at, generation, ok)) == g
  {
    if Low(generation) == Low(live) && -WRAP < generation - live < WRAP {
      var a, b := generation / WRAP, live / WRAP;
      assert generation == a * WRAP + Low(generation) && live == b * WRAP + Low(live);
      assert a == b;
    }
  }

  /** A lost callback never wedges the scheduler: past the allowance, a poll starts a new
      generation unless the elapsed time aliases, and then one 15 seconds later does. */
  lemma LostCallbackNeverWedges(g: Gate, last: nat, at: nat)
    requires g.hasStarted && g.sentAt == Low(last) && last + EXPIRY <= at
    ensures Begin(g, Low(at)).1.Some? || Begin(g, Low(at + EXPIRY)).1.Some?
    ensures Unaliased(at - last, EXPIRY) ==> Begin(g, Low(at)).1.Some?
  {
    SinceIsDifference(at, last);
    SinceIsDifference(at + EXPIRY, last);
    var d := at - last;
    if d % WRAP < EXPIRY {
      LowOf(d + EXPIRY, d / WRAP, d % WRAP + EXPIRY);
    }
  }

  /** The event is a callback the gate accepts as a success. */
  predicate Succeeds(g: Gate, e: Event) {
    e.Callback? && e.ok && g.inFlight && Low(e.generation) == g.activeToken
  }

  predicate NoSuccess(g: Gate, events: seq<Event>)
    decreases |events|
  {
    events == [] || (!Succeeds(g, events[0]) && NoSuccess(Step(g, events[0]), events[1..]))
  }

  predicate Shut(g: Gate) {
    CHARACTER_DB in g.delay && g.delay[CHARACTER_DB] == UINT32_MAX
  }

  lemma {:induction false} ShutUntilSuccess(g: Gate, events: seq<Event>, now: U32)
    requires Shut(g) && NoSuccess(g, events)
    ensures !Ready(Run(g, events), now)
    decreases |events|
  {
    if events != [] {
      ShutUntilSuccess(Step(g, events[0]), events[1..], now);
    }
  }

  /** After an expiry the gate is shut, and stays shut until a later generation succeeds. */
  lemma ShutAfterExpiry(g: Gate, expiry: Event, events: seq<Event>, now: U32)
    requires expiry.Poll? && Expires(g, Low(expiry.at)) && NoSuccess(Step(g, expiry), events)
    ensures !Ready(Run(g, [expiry] + events), now)
  {
    assert ([expiry] + events)[1..] == events;
    ShutUntilSuccess(Step(g, expiry), events, now);
  }
}
