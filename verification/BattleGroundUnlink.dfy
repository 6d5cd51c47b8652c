/** Battlegrounds and their maps hold raw pointers to each other, and either may be deleted
    first. Deleted objects are gone from the heap; touching one is a fault. */
module BattleGroundUnlink {
  import opened Wrappers

  type Id = nat

  datatype Ground = Ground(arena: Option<Id>, kind: nat)
  datatype Arena = Arena(ground: Option<Id>, unload: bool)

  /** A queued `RemoveBattleGround(instanceId, typeId)`. */
  datatype Message = Remove(arena: Id, kind: nat)

  datatype Heap = Heap(grounds: map<Id, Ground>, arenas: map<Id, Arena>, messages: seq<Message>, faulted: bool)

  // --- the destructors ------------------------------------------------------------------

  function DeleteGround(h: Heap, g: Id): Heap
    requires g in h.grounds
  {
    var freed := h.(grounds := h.grounds - {g});
    match h.grounds[g].arena
    case None => freed
    case Some(a) =>
      if a !in h.arenas then freed.(faulted := true)
      else freed.(arenas := h.arenas[a := Arena(None, true)])
  }

  function DeleteArena(h: Heap, a: Id): Heap
    requires a in h.arenas
  {
    var freed := h.(arenas := h.arenas - {a});
    match h.arenas[a].ground
    case None => freed
    case Some(g) =>
      if g !in h.grounds then freed.(faulted := true)
      else freed.(grounds := h.grounds[g := h.grounds[g].(arena := None)],
                  messages := h.messages + [Remove(a, h.grounds[g].kind)])
  }

  /** The upstream destructors clear no pointer but their own. */
  function UpstreamDeleteGround(h: Heap, g: Id): Heap
    requires g in h.grounds
  {
    var freed := h.(grounds := h.grounds - {g});
    match h.grounds[g].arena
    case None => freed
    case Some(a) =>
      if a !in h.arenas then freed.(faulted := true)
      else freed.(arenas := h.arenas[a := h.arenas[a].(unload := true)])
  }

  function UpstreamDeleteArena(h: Heap, a: Id): Heap
    requires a in h.arenas
  {
    var freed := h.(arenas := h.arenas - {a});
    match h.arenas[a].ground
    case None => freed.(faulted := true)
    case Some(g) =>
      if g !in h.grounds then freed.(faulted := true)
      else freed.(messages := h.messages + [Remove(a, h.grounds[g].kind)])
  }

  /** The two destructors, freeing objects of a shared heap. */
  class World {
    var grounds: map<Id, Ground>
    var arenas: map<Id, Arena>
    var messages: seq<Message>
    var faulted: bool

    ghost function State(): Heap
      reads this
    {
      Heap(grounds, arenas, messages, faulted)
    }

    method DestroyBattleGround(g: Id)
      requires g in grounds
      modifies this
      ensures State() == DeleteGround(old(State()), g)
    {
      if grounds[g].arena.Some? {
        var a := grounds[g].arena.value;
        if a in arenas {
          arenas := arenas[a := arenas[a].(unload := true)];
          arenas := arenas[a := arenas[a].(ground := None)];
        } else {
          faulted := true;
        }
      }
      grounds := grounds - {g};
    }

    method DestroyBattleGroundMap(a: Id)
      requires a in arenas
      modifies this
      ensures State() == DeleteArena(old(State()), a)
    {
      if arenas[a].ground.Some? {
        var g := arenas[a].ground.value;
        if g in grounds {
          grounds := grounds[g := grounds[g].(arena := None)];
          messages := messages + [Remove(a, grounds[g].kind)];
        } else {
          faulted := true;
        }
      }
      arenas := arenas - {a};
    }
  }

  // --- runs -----------------------------------------------------------------------------

  /** Objects get fresh identities. A map is opened for a battleground that has none. */
  datatype Op = NewGround(g: Id, kind: nat) | OpenMap(a: Id, g: Id) | DropGround(g: Id) | DropArena(a: Id)

  /** Who was ever paired with whom, and who is still alive: no pointers. */
  datatype Registry = Registry(
    kinds: map<Id, nat>, partner: map<Id, Id>, latest: map<Id, Id>,
    deadGrounds: set<Id>, deadArenas: set<Id>)

  const NOBODY := Registry(map[], map[], map[], {}, {})

  predicate GroundLives(r: Registry, g: Id) {
    g in r.kinds && g !in r.deadGrounds
  }

  predicate ArenaLives(r: Registry, a: Id) {
    a in r.partner && a !in r.deadArenas
  }

  predicate Allowed(r: Registry, op: Op) {
    match op
    case NewGround(g, _) => g !in r.kinds
    case OpenMap(a, g) => a !in r.partner && GroundLives(r, g) && (g in r.latest ==> r.latest[g] in r.deadArenas)
    case DropGround(g) => GroundLives(r, g)
    case DropArena(a) => ArenaLives(r, a)
  }

  function Record(r: Registry, op: Op): Registry {
    match op
    case NewGround(g, kind) => r.(kinds := r.kinds[g := kind])
    case OpenMap(a, g) => r.(partner := r.partner[a := g], latest := r.latest[g := a])
    case DropGround(g) => r.(deadGrounds := r.deadGrounds + {g})
    case DropArena(a) => r.(deadArenas := r.deadArenas + {a})
  }

  predicate AllAllowed(r: Registry, ops: seq<Op>)
    decreases |ops|
  {
    ops == [] || (Allowed(r, ops[0]) && AllAllowed(Record(r, ops[0]), ops[1..]))
  }

  /** One removal for each map that dies while its battleground is alive. */
  function ExpectedMessages(r: Registry, ops: seq<Op>): seq<Message>
    requires AllAllowed(r, ops)
    decreases |ops|
  {
    if ops == [] then []
    else RemovalFor(r, ops[0]) + ExpectedMessages(Record(r, ops[0]), ops[1..])
  }

  function Step(h: Heap, op: Op, upstream: bool): Heap {
    match op
    case NewGround(g, kind) => h.(grounds := h.grounds[g := Ground(None, kind)])
    case OpenMap(a, g) =>
      if g !in h.grounds then h.(faulted := true)
      else h.(grounds := h.grounds[g := h.grounds[g].(arena := Some(a))],
              arenas := h.arenas[a := Arena(Some(g), false)])
    case DropGround(g) =>
      if g !in h.grounds then h.(faulted := true)
      else if upstream then UpstreamDeleteGround(h, g) else DeleteGround(h, g)
    case DropArena(a) =>
      if a !in h.arenas then h.(faulted := true)
      else if upstream then UpstreamDeleteArena(h, a) else DeleteArena(h, a)
  }

  function Run(h: Heap, ops: seq<Op>, upstream: bool): Heap
    decreases |ops|
  {
    if ops == [] then h else Run(Step(h, ops[0], upstream), ops[1..], upstream)
  }

  /** Every pointer is to a live object that points back. */
  ghost predicate Linked(h: Heap) {
    && (forall g | g in h.grounds && h.grounds[g].arena.Some? ::
          h.grounds[g].arena.value in h.arenas && h.arenas[h.grounds[g].arena.value].ground == Some(g))
    && (forall a | a in h.arenas && h.arenas[a].ground.Some? ::
          h.arenas[a].ground.value in h.grounds && h.grounds[h.arenas[a].ground.value].arena == Some(a))
  }

  ghost predicate Tracks(h: Heap, r: Registry) {
    && (forall g :: g in h.grounds <==> GroundLives(r, g))
    && (forall a :: a in h.arenas <==> ArenaLives(r, a))
    && (forall g | g in h.grounds :: h.grounds[g].kind == r.kinds[g])
    && (forall a | a in h.arenas ::
          h.arenas[a].ground == if GroundLives(r, r.partner[a]) then Some(r.partner[a]) else None)
    && (forall g | g in r.latest :: r.latest[g] in r.partner && r.partner[r.latest[g]] == g)
    && (forall a | ArenaLives(r, a) :: r.partner[a] in r.latest && r.latest[r.partner[a]] == a)
    && (forall a | a in r.partner :: r.partner[a] in r.kinds)
    && r.deadGrounds <= r.kinds.Keys && r.deadArenas <= r.partner.Keys
  }

  function RemovalFor(r: Registry, op: Op): seq<Message>
    requires Allowed(r, op)
  {
    if op.DropArena? && GroundLives(r, r.partner[op.a]) then [Remove(op.a, r.kinds[r.partner[op.a]])] else []
  }

  /** A map is marked for unloading once its battleground is gone, and a battleground knows its latest
      map while that lives. */
  ghost predicate Marked(h: Heap, r: Registry)
    requires Tracks(h, r)
  {
    && (forall a | a in h.arenas :: h.arenas[a].unload <==> r.partner[a] in r.deadGrounds)
    && (forall g | g in h.grounds ::
          h.grounds[g].arena == if g in r.latest && ArenaLives(r, r.latest[g]) then Some(r.latest[g]) else None)
  }

  lemma StepKeepsMarks(h: Heap, r: Registry, op: Op)
    requires Linked(h) && Tracks(h, r) && Marked(h, r) && Allowed(r, op) && !h.faulted
    requires Tracks(Step(h, op, false), Record(r, op))
    ensures Marked(Step(h, op, false), Record(r, op))
  {
    if op.NewGround? || op.OpenMap? {
      CreationKeepsMarks(h, r, op);
    } else if op.DropGround? {
      DropGroundKeepsMarks(h, r, op);
    } else {
      DropArenaKeepsMarks(h, r, op);
    }
  }

  lemma CreationKeepsMarks(h: Heap, r: Registry, op: Op)
    requires Linked(h) && Tracks(h, r) && Marked(h, r) && Allowed(r, op) && !h.faulted
    requires (op.NewGround? || op.OpenMap?) && Tracks(Step(h, op, false), Record(r, op))
    ensures Marked(Step(h, op, false), Record(r, op))
  {
  }

  lemma DropGroundKeepsMarks(h: Heap, r: Registry, op: Op)
    requires Linked(h) && Tracks(h, r) && Marked(h, r) && Allowed(r, op) && !h.faulted
    requires op.DropGround? && Tracks(Step(h, op, false), Record(r, op))
    ensures Marked(Step(h, op, false), Record(r, op))
  {
  }

  lemma DropArenaKeepsMarks(h: Heap, r: Registry, op: Op)
    requires Linked(h) && Tracks(h, r) && Marked(h, r) && Allowed(r, op) && !h.faulted
    requires op.DropArena? && Tracks(Step(h, op, false), Record(r, op))
    ensures Marked(Step(h, op, false), Record(r, op))
  {
  }

  lemma NewGroundKeepsLinks(h: Heap, r: Registry, op: Op)
    requires op.NewGround? && Linked(h) && Tracks(h, r) && Allowed(r, op) && !h.faulted
    ensures var h' := Step(h, op, false);
      && Linked(h') && Tracks(h', Record(r, op)) && !h'.faulted
      && h'.messages == h.messages + RemovalFor(r, op)
  {
  }

  lemma OpenMapKeepsLinks(h: Heap, r: Registry, op: Op)
    requires op.OpenMap? && Linked(h) && Tracks(h, r) && Allowed(r, op) && !h.faulted
    ensures var h' := Step(h, op, false);
      && Linked(h') && Tracks(h', Record(r, op)) && !h'.faulted
      && h'.messages == h.messages + RemovalFor(r, op)
  {
  }

  lemma DropGroundKeepsLinks(h: Heap, r: Registry, op: Op)
    requires op.DropGround? && Linked(h) && Tracks(h, r) && Allowed(r, op) && !h.faulted
    ensures var h' := Step(h, op, false);
      && Linked(h') && Tracks(h', Record(r, op)) && !h'.faulted
      && h'.messages == h.messages + RemovalFor(r, op)
  {
  }

  lemma DropArenaKeepsLinks(h: Heap, r: Registry, op: Op)
    requires op.DropArena? && Linked(h) && Tracks(h, r) && Allowed(r, op) && !h.faulted
    ensures var h' := Step(h, op, false);
      && Linked(h') && Tracks(h', Record(r, op)) && !h'.faulted
      && h'.messages == h.messages + RemovalFor(r, op)
  {
  }

  lemma StepKeepsLinks(h: Heap, r: Registry, op: Op)
    requires Linked(h) && Tracks(h, r) && Allowed(r, op) && !h.faulted
    ensures var h' := Step(h, op, false);
      && Linked(h') && Tracks(h', Record(r, op)) && !h'.faulted
      && h'.messages == h.messages + RemovalFor(r, op)
  {
    hide Linked, Tracks, Step, RemovalFor;
    match op
    case NewGround(_, _) => NewGroundKeepsLinks(h, r, op);
    case OpenMap(_, _) => OpenMapKeepsLinks(h, r, op);
    case DropGround(_) => DropGroundKeepsLinks(h, r, op);
    case DropArena(_) => DropArenaKeepsLinks(h, r, op);
  }

  function RecordAll(r: Registry, ops: seq<Op>): Registry
    decreases |ops|
  {
    if ops == [] then r else RecordAll(Record(r, ops[0]), ops[1..])
  }

  /** Any number of battlegrounds and maps, deleted in any interleaving: pointers stay mutual,
      no freed object is touched, a removal is queued exactly when a map dies first, and the objects
      that live, their links and their unload marks are what the registry says. */
  lemma {:induction false} LinksStaySafe(h: Heap, r: Registry, ops: seq<Op>)
    requires Linked(h) && Tracks(h, r) && Marked(h, r) && !h.faulted && AllAllowed(r, ops)
    ensures var end := Run(h, ops, false);
      && Linked(end) && !end.faulted && Tracks(end, RecordAll(r, ops)) && Marked(end, RecordAll(r, ops))
      && end.messages == h.messages + ExpectedMessages(r, ops)
    decreases |ops|
  {
    hide Linked, Tracks, Marked, Step, RemovalFor, Allowed, Record;
    if ops != [] {
      StepKeepsLinks(h, r, ops[0]);
      StepKeepsMarks(h, r, ops[0]);
      LinksStaySafe(Step(h, ops[0], false), Record(r, ops[0]), ops[1..]);
    }
  }

  // --- upstream --------------------------------------------------------------------------

  /** The partner is already gone; a battleground's is its latest map. */
  predicate WidowDrop(r: Registry, op: Op) {
    match op
    case DropGround(g) => g in r.latest && r.latest[g] in r.deadArenas
    case DropArena(a) => a in r.partner && r.partner[a] in r.deadGrounds
    case _ => false
  }

  predicate AnyWidowDrop(r: Registry, ops: seq<Op>)
    decreases |ops|
  {
    ops != [] && (WidowDrop(r, ops[0]) || AnyWidowDrop(Record(r, ops[0]), ops[1..]))
  }

  /** Upstream pointers are never cleared from the other side. */
  ghost predicate UpstreamTracks(h: Heap, r: Registry) {
    && (forall g :: g in h.grounds <==> GroundLives(r, g))
    && (forall a :: a in h.arenas <==> ArenaLives(r, a))
    && (forall g | g in h.grounds :: h.grounds[g].arena == if g in r.latest then Some(r.latest[g]) else None)
    && (forall a | a in h.arenas :: h.arenas[a].ground == Some(r.partner[a]))
    && (forall g | g in r.latest :: r.latest[g] in r.partner && g in r.kinds)
    && (forall a | a in r.partner :: r.partner[a] in r.kinds)
    && r.deadGrounds <= r.kinds.Keys && r.deadArenas <= r.partner.Keys
  }

  lemma UpstreamCreation(h: Heap, r: Registry, op: Op)
    requires (op.NewGround? || op.OpenMap?) && UpstreamTracks(h, r) && Allowed(r, op)
    ensures UpstreamTracks(Step(h, op, true), Record(r, op))
    ensures Step(h, op, true).faulted <==> h.faulted || WidowDrop(r, op)
  {
  }

  lemma UpstreamDrop(h: Heap, r: Registry, op: Op)
    requires (op.DropGround? || op.DropArena?) && UpstreamTracks(h, r) && Allowed(r, op)
    ensures UpstreamTracks(Step(h, op, true), Record(r, op))
    ensures Step(h, op, true).faulted <==> h.faulted || WidowDrop(r, op)
  {
  }

  lemma UpstreamStep(h: Heap, r: Registry, op: Op)
    requires UpstreamTracks(h, r) && Allowed(r, op)
    ensures UpstreamTracks(Step(h, op, true), Record(r, op))
    ensures Step(h, op, true).faulted <==> h.faulted || WidowDrop(r, op)
  {
    hide UpstreamTracks, Step, Record;
    if op.NewGround? || op.OpenMap? {
      UpstreamCreation(h, r, op);
    } else {
      UpstreamDrop(h, r, op);
    }
  }

  /** The upstream destructors touch a freed object exactly when a run deletes a map whose
      battleground is already gone, or a battleground whose latest map is. */
  lemma {:induction false} UpstreamFaultsIff(h: Heap, r: Registry, ops: seq<Op>)
    requires UpstreamTracks(h, r) && AllAllowed(r, ops)
    ensures Run(h, ops, true).faulted <==> h.faulted || AnyWidowDrop(r, ops)
    decreases |ops|
  {
    if ops != [] {
      UpstreamStep(h, r, ops[0]);
      UpstreamFaultsIff(Step(h, ops[0], true), Record(r, ops[0]), ops[1..]);
    }
  }

  /** Both results from an empty heap. */
  lemma FromEmptyHeap(ops: seq<Op>)
    requires AllAllowed(NOBODY, ops)
    ensures var h := Heap(map[], map[], [], false);
      && !Run(h, ops, false).faulted
      && Tracks(Run(h, ops, false), RecordAll(NOBODY, ops)) && Marked(Run(h, ops, false), RecordAll(NOBODY, ops))
      && Run(h, ops, false).messages == ExpectedMessages(NOBODY, ops)
      && (Run(h, ops, true).faulted <==> AnyWidowDrop(NOBODY, ops))
  {
    var h := Heap(map[], map[], [], false);
    LinksStaySafe(h, NOBODY, ops);
    UpstreamFaultsIff(h, NOBODY, ops);
  }
}
