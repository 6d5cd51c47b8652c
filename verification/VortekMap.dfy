/** Mapping device memory in the Vulkan guest: the two original entry points, their instrumented
    replacements, and the simulation between them. */
module VortekMap {
  import opened Wrappers
  import opened Substring

  /** A 32-bit result as it lies in memory, least significant byte first. */
  type Word = w: seq<Byte> | |w| == 4 witness [0, 0, 0, 0]

  const SUCCESS: Word := [0, 0, 0, 0]
  const ERROR_DEVICE_LOST: Word := [0xFC, 0xFF, 0xFF, 0xFF]
  const ERROR_MEMORY_MAP_FAILED: Word := [0xFB, 0xFF, 0xFF, 0xFF]
  const WHOLE_SIZE: nat := 0xFFFF_FFFF_FFFF_FFFF
  const NULL: int := 0
  const MAP_FAILED: int := -1
  const DIAGNOSTIC_LIMIT: nat := 32

  /** The guest's record of one device memory; a null `data` is unmapped. */
  datatype Memory = Memory(allocationSize: nat, size: nat, data: int)

  /** `Map2` carries the placed-info structure of the request's chain, if there is one. */
  datatype Mode = Classic | Map2(placedInfo: Option<int>)
  datatype Request = Request(memory: nat, offset: nat, size: nat, mode: Mode)

  datatype MmapArgs = MmapArgs(address: int, size: nat, fixed: bool, fd: int, offset: nat)

  /** The bytes one `recvmsg` delivers for the result and the descriptors that came with them. With
      no bytes it has failed, with an `errno`, or met the end of the stream. */
  type Payload = p: seq<Byte> | |p| <= 4
  datatype Reply = Reply(payload: Payload, descriptors: seq<int>, errno: Option<int>)
  datatype Locals = Locals(count: int, fd: int, result: Word)

  /** One call and everything outside the guest that it meets: whether the send fails, the reply,
      what `mmap` answers and which `errno` it fails with, the size or `errno` of `fstat`, and what
      an uninitialised local holds. */
  datatype Call = Call(request: Request, sendFails: bool, reply: Reply, mmap: MmapArgs -> int, mmapErrno: int,
                       fileSize: Result<int, int>, garbage: Locals)

  datatype Receipt = Receipt(result: int, errno: int)
  datatype Stat = Stat(result: int, errno: int, size: int)

  /** One line of the log. */
  datatype Diagnostic = Diagnostic(sequence: nat, mode: string, receipt: Receipt, fds: int, fd: int, stat: Stat,
                                   offset: nat, size: nat, placed: int, mapped: int, mmapErrno: int, result: Word)

  function ReceiptOf(reply: Reply): Receipt {
    if reply.payload != [] then Receipt(|reply.payload|, 0)
    else if reply.errno.Some? then Receipt(-1, reply.errno.value)
    else Receipt(0, 0)
  }

  const NO_STAT := Stat(-1, 0, -1)

  function StatOf(fileSize: Result<int, int>): Stat {
    match fileSize
    case Ok(size) => Stat(0, 0, size)
    case Err(errno) => Stat(-1, errno, -1)
  }

  /** `recv_fds` always stores a count, a descriptor only if one came, and of the result only
      the bytes delivered. */
  function Received(reply: Reply, initial: Locals): Locals {
    if reply.payload == [] then initial.(count := 0)
    else
      Locals(|reply.descriptors|,
             if reply.descriptors == [] then initial.fd else reply.descriptors[0],
             reply.payload + initial.result[|reply.payload|..])
  }

  function Close(closed: seq<int>, fd: int): seq<int> {
    if fd > 0 then closed + [fd] else closed
  }

  const INITIAL: Locals := Locals(0, -1, ERROR_MEMORY_MAP_FAILED)

  function PlacedAddress(mode: Mode): int {
    if mode.Map2? && mode.placedInfo.Some? then mode.placedInfo.value else NULL
  }

  function MapSize(size: nat, memory: Memory): nat {
    if size == WHOLE_SIZE then memory.allocationSize else size
  }

  // --- the specification ----------------------------------------------------------------------

  datatype State = State(memories: map<nat, Memory>, closed: seq<int>, log: seq<Diagnostic>)

  /** What a caller sees of a call: its result and what it stored through `ppData`. */
  datatype Effect = Effect(state: State, result: Word, stored: Option<int>)

  /** Where the received descriptor gets mapped, if anywhere. */
  function Attempt(c: Call, memory: Memory, l: Locals): Option<int> {
    var address := PlacedAddress(c.request.mode);
    if l.count != 1 then None
    else
      var data := c.mmap(MmapArgs(address, MapSize(c.request.size, memory), address != NULL, l.fd, c.request.offset));
      if data == MAP_FAILED then None else Some(data)
  }

  /** The meaning both versions share: record a mapping, or report the failure and change nothing. */
  function Complete(s: State, c: Call, l: Locals): Effect
    requires c.request.memory in s.memories
  {
    var k := c.request.memory;
    var memory := s.memories[k];
    match Attempt(c, memory, l)
    case None => Effect(s, ERROR_MEMORY_MAP_FAILED, None)
    case Some(data) =>
      Effect(s.(memories := s.memories[k := memory.(size := MapSize(c.request.size, memory), data := data)],
                closed := Close(s.closed, l.fd)),
             l.result,
             if PlacedAddress(c.request.mode) == NULL then Some(data) else None)
  }

  predicate ReachesReply(s: State, c: Call)
    requires c.request.memory in s.memories
  {
    s.memories[c.request.memory].data == NULL && !c.sendFails
  }

  function Early(s: State, c: Call): Effect
    requires c.request.memory in s.memories && !ReachesReply(s, c)
  {
    Effect(s, if s.memories[c.request.memory].data != NULL then SUCCESS else ERROR_DEVICE_LOST, None)
  }

  /** The original records the size before it knows whether the mapping succeeds. */
  function OriginalCall(s: State, c: Call): Effect
    requires c.request.memory in s.memories
  {
    if !ReachesReply(s, c) then Early(s, c)
    else
      var k, l := c.request.memory, Received(c.reply, c.garbage);
      var e := Complete(s, c, l);
      if l.count == 1 && Attempt(c, s.memories[k], l).None?
      then e.(state := s.(memories := s.memories[k := s.memories[k].(size := MapSize(c.request.size, s.memories[k]))]))
      else e
  }

  function Entry(s: State, c: Call): Diagnostic
    requires c.request.memory in s.memories
  {
    var memory, l := s.memories[c.request.memory], Received(c.reply, INITIAL);
    var e := Attempt(c, memory, l);
    var address := PlacedAddress(c.request.mode);
    Diagnostic(|s.log| + 1,
               if c.request.mode.Classic? then "classic" else if address != NULL then "placed" else "map2",
               ReceiptOf(c.reply), l.count, l.fd, if l.count == 1 then StatOf(c.fileSize) else NO_STAT,
               c.request.offset, MapSize(c.request.size, memory), address,
               if e.Some? then e.value else MAP_FAILED, if l.count == 1 && e.None? then c.mmapErrno else 0,
               Complete(s, c, l).result)
  }

  function InstrumentedCall(s: State, c: Call): Effect
    requires c.request.memory in s.memories
  {
    if !ReachesReply(s, c) then Early(s, c)
    else
      var e := Complete(s, c, Received(c.reply, INITIAL));
      if |s.log| < DIAGNOSTIC_LIMIT then e.(state := e.state.(log := s.log + [Entry(s, c)])) else e
  }

  // --- the entry points -------------------------------------------------------------------------

  class Original {
    var locked: bool
    var memories: map<nat, Memory>
    var closed: seq<int>

    ghost function Model(log: seq<Diagnostic>): State
      reads this
    {
      State(memories, closed, log)
    }

    method MapMemory(c: Call) returns (result: Word, stored: Option<int>)
      requires !locked && c.request.memory in memories && c.request.mode.Classic?
      modifies this
      ensures !locked
      ensures Effect(Model([]), result, stored) == OriginalCall(old(Model([])), c)
    {
      stored := None;
      locked := true;
      var k := c.request.memory;
      if memories[k].data != NULL {
        locked := false;
        return SUCCESS, stored;
      }
      if c.sendFails {
        locked := false;
        return ERROR_DEVICE_LOST, stored;
      }
      var l := Received(c.reply, c.garbage);
      result := l.result;
      var size := c.request.size;
      if l.count == 1 {
        if size == WHOLE_SIZE {
          size := memories[k].allocationSize;
        }
        memories := memories[k := memories[k].(size := size)];
        var data := c.mmap(MmapArgs(NULL, size, false, l.fd, c.request.offset));
        if data != MAP_FAILED {
          closed := Close(closed, l.fd);
          memories := memories[k := memories[k].(data := data)];
          stored := Some(data);
        } else {
          result := ERROR_MEMORY_MAP_FAILED;
        }
      } else {
        result := ERROR_MEMORY_MAP_FAILED;
      }
      locked := false;
    }

    method MapMemory2(c: Call) returns (result: Word, stored: Option<int>)
      requires !locked && c.request.memory in memories && c.request.mode.Map2?
      modifies this
      ensures !locked
      ensures Effect(Model([]), result, stored) == OriginalCall(old(Model([])), c)
    {
      stored := None;
      locked := true;
      var k := c.request.memory;
      if memories[k].data != NULL {
        locked := false;
        return SUCCESS, stored;
      }
      if c.sendFails {
        locked := false;
        return ERROR_DEVICE_LOST, stored;
      }
      var l := Received(c.reply, c.garbage);
      result := l.result;
      if l.count == 1 {
        memories := memories[k := memories[k].(size := c.request.size)];
        if memories[k].size == WHOLE_SIZE {
          memories := memories[k := memories[k].(size := memories[k].allocationSize)];
        }
        var placedAddress := if c.request.mode.placedInfo.Some? then c.request.mode.placedInfo.value else NULL;
        var data := c.mmap(MmapArgs(placedAddress, memories[k].size, placedAddress != NULL, l.fd, c.request.offset));
        if data != MAP_FAILED {
          closed := Close(closed, l.fd);
          memories := memories[k := memories[k].(data := data)];
          if placedAddress == NULL {
            stored := Some(data);
          }
        } else {
          result := ERROR_MEMORY_MAP_FAILED;
        }
      } else {
        result := ERROR_MEMORY_MAP_FAILED;
      }
      locked := false;
    }
  }

  class Instrumented {
    var locked: bool
    var memories: map<nat, Memory>
    var closed: seq<int>
    var diagnostics: nat
    var log: seq<Diagnostic>

    ghost predicate Valid()
      reads this
    {
      diagnostics == |log| <= DIAGNOSTIC_LIMIT
    }

    ghost function Model(): State
      reads this
    {
      State(memories, closed, log)
    }

    method ReserveDiagnostic() returns (reserved: bool, sequence: nat)
      requires Valid()
      modifies this`diagnostics
      ensures reserved <==> |log| < DIAGNOSTIC_LIMIT
      ensures diagnostics == |log| + if reserved then 1 else 0
      ensures reserved ==> sequence == |log| + 1
    {
      if diagnostics >= DIAGNOSTIC_LIMIT {
        return false, 0;
      }
      diagnostics := diagnostics + 1;
      return true, diagnostics;
    }

    method MapMemory(c: Call) returns (result: Word, stored: Option<int>)
      requires Valid() && !locked && c.request.memory in memories && c.request.mode.Classic?
      modifies this
      ensures Valid() && !locked
      ensures Effect(Model(), result, stored) == InstrumentedCall(old(Model()), c)
    {
      stored := None;
      locked := true;
      var k := c.request.memory;
      if memories[k].data != NULL {
        locked := false;
        return SUCCESS, stored;
      }
      if c.sendFails {
        locked := false;
        return ERROR_DEVICE_LOST, stored;
      }
      var l := Received(c.reply, Locals(0, -1, ERROR_MEMORY_MAP_FAILED));
      result := l.result;
      var size := c.request.size;
      if size == WHOLE_SIZE {
        size := memories[k].allocationSize;
      }
      var diagnostic, sequence := ReserveDiagnostic();
      var stat := NO_STAT;
      if diagnostic && l.count == 1 {
        stat := StatOf(c.fileSize);
      }
      var data, mmapErrno := MAP_FAILED, 0;
      if l.count == 1 {
        data := c.mmap(MmapArgs(NULL, size, false, l.fd, c.request.offset));
        mmapErrno := if data == MAP_FAILED then c.mmapErrno else 0;
      }
      assert Attempt(c, memories[k], l) == if data == MAP_FAILED then None else Some(data);
      if l.count != 1 || data == MAP_FAILED {
        result := ERROR_MEMORY_MAP_FAILED;
      }
      if diagnostic {
        log := log + [Diagnostic(sequence, "classic", ReceiptOf(c.reply), l.count, l.fd, stat,
                                 c.request.offset, size, NULL, data, mmapErrno, result)];
      }
      assert Valid() && log == old(log) + if diagnostic then [Entry(old(Model()), c)] else [];
      if l.count == 1 && data != MAP_FAILED {
        memories := memories[k := memories[k].(size := size, data := data)];
        closed := Close(closed, l.fd);
        stored := Some(data);
      }
      locked := false;
    }

    method MapMemory2(c: Call) returns (result: Word, stored: Option<int>)
      requires Valid() && !locked && c.request.memory in memories && c.request.mode.Map2?
      modifies this
      ensures Valid() && !locked
      ensures Effect(Model(), result, stored) == InstrumentedCall(old(Model()), c)
    {
      stored := None;
      locked := true;
      var k := c.request.memory;
      if memories[k].data != NULL {
        locked := false;
        return SUCCESS, stored;
      }
      if c.sendFails {
        locked := false;
        return ERROR_DEVICE_LOST, stored;
      }
      var l := Received(c.reply, Locals(0, -1, ERROR_MEMORY_MAP_FAILED));
      result := l.result;
      var mapSize := c.request.size;
      if mapSize == WHOLE_SIZE {
        mapSize := memories[k].allocationSize;
      }
      var placedAddress := if c.request.mode.placedInfo.Some? then c.request.mode.placedInfo.value else NULL;
      var diagnostic, sequence := ReserveDiagnostic();
      var stat := NO_STAT;
      if diagnostic && l.count == 1 {
        stat := StatOf(c.fileSize);
      }
      var data, mmapErrno := MAP_FAILED, 0;
      if l.count == 1 {
        data := c.mmap(MmapArgs(placedAddress, mapSize, placedAddress != NULL, l.fd, c.request.offset));
        mmapErrno := if data == MAP_FAILED then c.mmapErrno else 0;
      }
      assert Attempt(c, memories[k], l) == if data == MAP_FAILED then None else Some(data);
      if l.count != 1 || data == MAP_FAILED {
        result := ERROR_MEMORY_MAP_FAILED;
      }
      if diagnostic {
        log := log + [Diagnostic(sequence, if placedAddress != NULL then "placed" else "map2",
                                 ReceiptOf(c.reply), l.count, l.fd, stat,
                                 c.request.offset, mapSize, placedAddress, data, mmapErrno, result)];
      }
      assert Valid() && log == old(log) + if diagnostic then [Entry(old(Model()), c)] else [];
      if l.count == 1 && data != MAP_FAILED {
        memories := memories[k := memories[k].(size := mapSize, data := data)];
        closed := Close(closed, l.fd);
        if placedAddress == NULL {
          stored := Some(data);
        }
      }
      locked := false;
    }
  }

  // --- what a call does, in plain terms ------------------------------------------------------------

  function Placed(mode: Mode): int {
    match mode
    case Classic => 0
    case Map2(None) => 0
    case Map2(Some(address)) => address
  }

  function Wanted(request: Request, memory: Memory): nat {
    if request.size == 0xFFFF_FFFF_FFFF_FFFF then memory.allocationSize else request.size
  }

  /** The descriptor to map, when the reply brings exactly one. */
  function OneDescriptor(reply: Reply): Option<int> {
    if reply.payload != [] && |reply.descriptors| == 1 then Some(reply.descriptors[0]) else None
  }

  /** Where the kernel maps it: at the placed address and fixed there, or anywhere. */
  function MappedAt(c: Call, memory: Memory): int {
    var fd, address := OneDescriptor(c.reply), Placed(c.request.mode);
    if fd.None? then -1
    else c.mmap(MmapArgs(address, Wanted(c.request, memory), address != 0, fd.value, c.request.offset))
  }

  lemma MappedAtIs(c: Call, memory: Memory)
    ensures var l := Received(c.reply, INITIAL);
      && (l.count == 1 <==> OneDescriptor(c.reply).Some?)
      && (l.count == 1 ==> l.fd == OneDescriptor(c.reply).value
                           && l.result == c.reply.payload + [0xFB, 0xFF, 0xFF, 0xFF][|c.reply.payload|..])
      && Attempt(c, memory, l) == if MappedAt(c, memory) == -1 then None else Some(MappedAt(c, memory))
  {
  }

  /** A mapped memory is answered at once and a lost server told; a failed mapping is reported and
      changes nothing; and a mapping is recorded with its size, its descriptor closed, the server's
      result returned, and its address stored unless the caller placed it. */
  lemma MapMeaning(s: State, c: Call)
    requires c.request.memory in s.memories
    ensures var e, k := InstrumentedCall(s, c), c.request.memory;
      var memory := s.memories[k];
      var data := MappedAt(c, memory);
      && (memory.data != 0 ==> e == Effect(s, [0, 0, 0, 0], None))
      && (memory.data == 0 && c.sendFails ==> e == Effect(s, [0xFC, 0xFF, 0xFF, 0xFF], None))
      && (memory.data == 0 && !c.sendFails && data == -1 ==>
            && e.state.memories == s.memories && e.state.closed == s.closed
            && e.result == [0xFB, 0xFF, 0xFF, 0xFF] && e.stored == None)
      && (memory.data == 0 && !c.sendFails && data != -1 ==>
            && e.state.memories == s.memories[k := Memory(memory.allocationSize, Wanted(c.request, memory), data)]
            && e.state.closed == s.closed + (if c.reply.descriptors[0] > 0 then [c.reply.descriptors[0]] else [])
            && e.result == c.reply.payload + [0xFB, 0xFF, 0xFF, 0xFF][|c.reply.payload|..]
            && e.stored == if Placed(c.request.mode) == 0 then Some(data) else None)
  {
    MappedAtIs(c, s.memories[c.request.memory]);
    hide Attempt, Received, MappedAt;
  }

  /** What the line of a call that got a reply says. */
  lemma LogMeaning(s: State, c: Call)
    requires c.request.memory in s.memories && s.memories[c.request.memory].data == 0 && !c.sendFails
    ensures var e, memory := InstrumentedCall(s, c), s.memories[c.request.memory];
      var data := MappedAt(c, memory);
      if |s.log| >= 32 then e.state.log == s.log
      else
        && |e.state.log| == |s.log| + 1 && e.state.log[..|s.log|] == s.log
        && var d := e.state.log[|s.log|];
        && d.sequence == |s.log| + 1
        && d.mode == (if c.request.mode.Classic? then "classic"
                      else if Placed(c.request.mode) == 0 then "map2" else "placed")
        && d.receipt.result == (if c.reply.payload != [] then |c.reply.payload|
                                else if c.reply.errno.Some? then -1 else 0)
        && d.receipt.errno == (if c.reply.payload == [] && c.reply.errno.Some? then c.reply.errno.value else 0)
        && d.fds == (if c.reply.payload == [] then 0 else |c.reply.descriptors|)
        && d.fd == (if c.reply.payload == [] || c.reply.descriptors == [] then -1 else c.reply.descriptors[0])
        && d.stat == (if OneDescriptor(c.reply).None? then Stat(-1, 0, -1)
                      else if c.fileSize.Ok? then Stat(0, 0, c.fileSize.value) else Stat(-1, c.fileSize.error, -1))
        && d.offset == c.request.offset && d.size == Wanted(c.request, memory) && d.placed == Placed(c.request.mode)
        && d.mapped == data && d.result == e.result
        && d.mmapErrno == if OneDescriptor(c.reply).Some? && data == -1 then c.mmapErrno else 0
  {
    MappedAtIs(c, s.memories[c.request.memory]);
    hide Attempt, MappedAt;
  }

  // --- one call ----------------------------------------------------------------------------------

  /** Equal in everything but the log and the recorded size of an unmapped memory. */
  ghost predicate Alike(a: State, b: State) {
    && a.memories.Keys == b.memories.Keys
    && a.closed == b.closed
    && forall k | k in a.memories ::
         && a.memories[k].allocationSize == b.memories[k].allocationSize
         && a.memories[k].data == b.memories[k].data
         && (a.memories[k].data != NULL ==> a.memories[k].size == b.memories[k].size)
  }

  ghost predicate Agree(a: Effect, b: Effect) {
    Alike(a.state, b.state) && a.result == b.result && a.stored == b.stored
  }

  /** A reply that brings one descriptor brings the whole result with it. */
  predicate Settled(reply: Reply) {
    reply.payload != [] && |reply.descriptors| == 1 ==> |reply.payload| == 4
  }

  lemma CallsAgree(a: State, b: State, c: Call)
    requires Alike(a, b) && c.request.memory in a.memories && Settled(c.reply)
    ensures Agree(OriginalCall(a, c), InstrumentedCall(b, c))
  {
    var k := c.request.memory;
    var m, n := a.memories[k], b.memories[k];
    assert MapSize(c.request.size, m) == MapSize(c.request.size, n);
  }

  /** The two versions agree whatever the kernel answers and whatever the original's
      uninitialised locals hold exactly when the reply is settled. */
  lemma CallsAgreeIffSettled(s: State, c: Call)
    requires c.request.memory in s.memories && ReachesReply(s, c)
    ensures Settled(c.reply) <==>
      forall mmap: MmapArgs -> int, garbage: Locals ::
        Agree(OriginalCall(s, c.(mmap := mmap, garbage := garbage)),
              InstrumentedCall(s, c.(mmap := mmap, garbage := garbage)))
  {
    if Settled(c.reply) {
      forall mmap: MmapArgs -> int, garbage: Locals
        ensures Agree(OriginalCall(s, c.(mmap := mmap, garbage := garbage)),
                      InstrumentedCall(s, c.(mmap := mmap, garbage := garbage)))
      {
        CallsAgree(s, s, c.(mmap := mmap, garbage := garbage));
      }
    } else {
      var succeeds: MmapArgs -> int := (args: MmapArgs) => 4096;
      var d := c.(mmap := succeeds, garbage := Locals(0, 0, SUCCESS));
      assert OriginalCall(s, d).result[3] == 0 && InstrumentedCall(s, d).result[3] == 0xFF;
      assert !Agree(OriginalCall(s, d), InstrumentedCall(s, d));
    }
  }

  // --- runs ---------------------------------------------------------------------------------------

  /** Between calls the application may unmap a memory. */
  datatype Event = Invoke(call: Call) | Unmap(memory: nat)

  function Target(e: Event): nat {
    match e
    case Invoke(c) => c.request.memory
    case Unmap(k) => k
  }

  predicate Defined(memories: map<nat, Memory>, events: seq<Event>) {
    forall i | 0 <= i < |events| :: Target(events[i]) in memories
  }

  ghost predicate AllSettled(events: seq<Event>) {
    forall i | 0 <= i < |events| && events[i].Invoke? :: Settled(events[i].call.reply)
  }

  function Unmapped(s: State, k: nat): State
    requires k in s.memories
  {
    s.(memories := s.memories[k := s.memories[k].(data := NULL)])
  }

  datatype Answer = Answer(result: Word, stored: Option<int>)
  datatype Run = Run(state: State, answers: seq<Answer>)

  function RunFrom(instrumented: bool, s: State, events: seq<Event>): (r: Run)
    requires Defined(s.memories, events)
    decreases |events|
  {
    if events == [] then Run(s, [])
    else
      match events[0]
      case Unmap(k) => RunFrom(instrumented, Unmapped(s, k), events[1..])
      case Invoke(c) =>
        var e := if instrumented then InstrumentedCall(s, c) else OriginalCall(s, c);
        var rest := RunFrom(instrumented, e.state, events[1..]);
        rest.(answers := [Answer(e.result, e.stored)] + rest.answers)
  }

  /** Over any run of map and unmap calls the instrumented guest gives the answers of the
      original, maps the same memories at the same addresses with the same sizes, and closes the
      same descriptors in the same order. */
  lemma {:induction false} RunsAgree(a: State, b: State, events: seq<Event>)
    requires Alike(a, b) && Defined(a.memories, events) && AllSettled(events)
    ensures Defined(b.memories, events)
    ensures var original, instrumented := RunFrom(false, a, events), RunFrom(true, b, events);
      Alike(original.state, instrumented.state) && original.answers == instrumented.answers
    decreases |events|
  {
    if events != [] {
      match events[0]
      case Unmap(k) =>
        RunsAgree(Unmapped(a, k), Unmapped(b, k), events[1..]);
      case Invoke(c) =>
        CallsAgree(a, b, c);
        RunsAgree(OriginalCall(a, c).state, InstrumentedCall(b, c).state, events[1..]);
    }
  }

  /** A mapped memory keeps its address and size over any run that does not unmap it. */
  lemma {:induction false} MappingsStayPut(instrumented: bool, s: State, events: seq<Event>, k: nat)
    requires Defined(s.memories, events) && k in s.memories && s.memories[k].data != NULL
    requires forall i | 0 <= i < |events| :: events[i].Unmap? ==> events[i].memory != k
    ensures var end := RunFrom(instrumented, s, events).state;
      k in end.memories && end.memories[k] == s.memories[k]
    decreases |events|
  {
    if events != [] {
      match events[0]
      case Unmap(other) =>
        MappingsStayPut(instrumented, Unmapped(s, other), events[1..], k);
      case Invoke(c) =>
        var e := if instrumented then InstrumentedCall(s, c) else OriginalCall(s, c);
        MappingsStayPut(instrumented, e.state, events[1..], k);
    }
  }

  /** How many calls of an instrumented run get as far as the reply. */
  function Replies(s: State, events: seq<Event>): nat
    requires Defined(s.memories, events)
    decreases |events|
  {
    if events == [] then 0
    else
      match events[0]
      case Unmap(k) => Replies(Unmapped(s, k), events[1..])
      case Invoke(c) =>
        (if ReachesReply(s, c) then 1 else 0) + Replies(InstrumentedCall(s, c).state, events[1..])
  }

  predicate Numbered(log: seq<Diagnostic>) {
    |log| <= DIAGNOSTIC_LIMIT && forall i | 0 <= i < |log| :: log[i].sequence == i + 1
  }

  /** Both entry points share one budget: a run logs each of its first replies until thirty-two
      lines are out, numbers them from one without a gap, and never rewrites a line. */
  lemma {:induction false} DiagnosticsAreCapped(s: State, events: seq<Event>)
    requires Defined(s.memories, events) && Numbered(s.log)
    ensures var log := RunFrom(true, s, events).state.log;
      && Numbered(log) && s.log <= log
      && var wanted := |s.log| + Replies(s, events);
      && |log| == if wanted <= DIAGNOSTIC_LIMIT then wanted else DIAGNOSTIC_LIMIT
    decreases |events|
  {
    if events != [] {
      match events[0]
      case Unmap(k) =>
        DiagnosticsAreCapped(Unmapped(s, k), events[1..]);
      case Invoke(c) =>
        DiagnosticsAreCapped(InstrumentedCall(s, c).state, events[1..]);
    }
  }

  /** A failed mapping is where recorded sizes part: the original keeps the size it asked for. */
  lemma SizesPartIff(s: State, c: Call)
    requires c.request.memory in s.memories && Settled(c.reply)
    ensures OriginalCall(s, c).state.memories != InstrumentedCall(s, c).state.memories <==>
      var memory := s.memories[c.request.memory];
      && ReachesReply(s, c) && c.reply.payload != [] && |c.reply.descriptors| == 1
      && Attempt(c, memory, Received(c.reply, INITIAL)).None?
      && memory.size != MapSize(c.request.size, memory)
  {
    var k := c.request.memory;
    var after := OriginalCall(s, c).state.memories;
    if after != s.memories {
      assert after == s.memories[k := after[k]];
    }
    assert s.memories[k := s.memories[k]] == s.memories;
    assert Received(c.reply, INITIAL).count == Received(c.reply, c.garbage).count;
  }
}
