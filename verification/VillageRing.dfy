/** Login spread and the village ring: the pending one-shot relocations, the per-spawn-point
    settler counts, and the packed key that names a spawn point. */
module VillageRing {
  import opened Wrappers

  type BotId = nat
  type Race = nat
  /** A packed cell key. */
  datatype Key = Key(bits: bv64)

  datatype Mode = NearPlayer | Village

  // --- the cell key ----------------------------------------------------------------------

  const HALF: bv64 := 0x20_0000

  /** Map id and the truncated 10-yard cell coordinates, as 64-bit two's complement. */
  function CellKey(mapId: bv64, cellX: bv64, cellY: bv64): Key {
    Key((mapId << 44) | ((cellX + HALF) << 22) | (cellY + HALF))
  }

  /** `-2^21 <= c < 2^21`, in two's complement. */
  predicate InGrid(c: bv64) {
    c < 0x20_0000 || c >= 0xFFFF_FFFF_FFE0_0000
  }

  /** Distinct spawn points on the grid get distinct keys. */
  lemma CellKeyIsInjective(m: bv64, x: bv64, y: bv64, m': bv64, x': bv64, y': bv64)
    requires m < 0x10_0000 && m' < 0x10_0000
    requires InGrid(x) && InGrid(y) && InGrid(x') && InGrid(y')
    requires CellKey(m, x, y) == CellKey(m', x', y')
    ensures m == m' && x == x' && y == y'
  {
    KeyParts(m, x, y);
    KeyParts(m', x', y');
  }

  lemma InGridIs(c: bv64)
    ensures InGrid(c) <==> c + HALF < 0x40_0000
  {
  }

  lemma KeyParts(m: bv64, x: bv64, y: bv64)
    requires m < 0x10_0000 && InGrid(x) && InGrid(y)
    ensures CellKey(m, x, y).bits & 0x3F_FFFF == y + HALF
    ensures (CellKey(m, x, y).bits >> 22) & 0x3F_FFFF == x + HALF
    ensures CellKey(m, x, y).bits >> 44 == m
  {
    InGridIs(x);
    InGridIs(y);
    hide InGrid;
    PackedParts(m, x + HALF, y + HALF);
  }

  lemma PackedParts(m: bv64, x: bv64, y: bv64)
    requires m < 0x10_0000 && x < 0x40_0000 && y < 0x40_0000
    ensures var bits := (m << 44) | (x << 22) | y;
      bits & 0x3F_FFFF == y && (bits >> 22) & 0x3F_FFFF == x && bits >> 44 == m
  {
  }

  /** The three fields of a packed key, and their packing. */
  function MapField(bits: bv64): bv64 {
    bits >> 44
  }

  function XField(bits: bv64): bv64 {
    (bits >> 22) & 0x3F_FFFF
  }

  function YField(bits: bv64): bv64 {
    bits & 0x3F_FFFF
  }

  function Join(m: bv64, x: bv64, y: bv64): bv64 {
    (m << 44) | (x << 22) | y
  }

  predicate OnGrid(m: bv64, x: bv64, y: bv64) {
    m < 0x10_0000 && InGrid(x) && InGrid(y)
  }

  /** The spawn point on the grid that a key names. */
  function PointOf(k: Key): (bv64, bv64, bv64) {
    (MapField(k.bits), XField(k.bits) - HALF, YField(k.bits) - HALF)
  }

  lemma JoinFields(bits: bv64)
    ensures Join(MapField(bits), XField(bits), YField(bits)) == bits
    ensures MapField(bits) < 0x10_0000 && XField(bits) < 0x40_0000 && YField(bits) < 0x40_0000
  {
  }

  lemma KeyOfFields(m: bv64, x: bv64, y: bv64)
    requires m < 0x10_0000 && x < 0x40_0000 && y < 0x40_0000
    ensures OnGrid(m, x - HALF, y - HALF)
    ensures CellKey(m, x - HALF, y - HALF) == Key(Join(m, x, y))
  {
    InGridIs(x - HALF);
    InGridIs(y - HALF);
    hide InGrid;
  }

  lemma KeyOfPoint(k: Key)
    ensures var (m, x, y) := PointOf(k); OnGrid(m, x, y) && CellKey(m, x, y) == k
  {
    hide MapField, XField, YField, Join, CellKey, OnGrid;
    JoinFields(k.bits);
    KeyOfFields(MapField(k.bits), XField(k.bits), YField(k.bits));
  }

  /** Every key is the key of a spawn point on the grid. So a spawn point off the grid shares its
      key with a different one, and one on the grid has it to itself there. */
  lemma OffGridKeysCollide(m: bv64, x: bv64, y: bv64)
    ensures var (m', x', y') := PointOf(CellKey(m, x, y));
      && OnGrid(m', x', y') && CellKey(m', x', y') == CellKey(m, x, y)
      && (OnGrid(m, x, y) <==> (m, x, y) == (m', x', y'))
  {
    KeyOfPoint(CellKey(m, x, y));
    if OnGrid(m, x, y) {
      var (m', x', y') := PointOf(CellKey(m, x, y));
      hide PointOf, CellKey;
      CellKeyIsInjective(m, x, y, m', x', y');
    }
  }

  // --- arming and teleporting --------------------------------------------------------------

  datatype Config = Config(loginSpread: bool, ringCount: nat)

  /** What the manager reads of a bot when it logs in. */
  datatype Bot = Bot(id: BotId, race: Race, cell: Key, level: nat,
                     managed: bool, leaving: bool, inBattleGround: bool)

  /** A spawn point's recorded race and settler count. */
  datatype Cell = Cell(race: Race, count: nat)

  datatype Spread = Spread(pending: map<BotId, Mode>, cells: map<Key, Cell>, settlers: set<BotId>)

  predicate Eligible(config: Config, bot: Bot) {
    config.loginSpread && bot.managed && !bot.leaving && !bot.inBattleGround && 1 <= bot.level < 5
  }

  /** The bot becomes a settler of its cell now. */
  predicate Designates(config: Config, s: Spread, bot: Bot) {
    && Eligible(config, bot) && config.ringCount > 0 && bot.id !in s.settlers
    && (bot.cell in s.cells ==>
          s.cells[bot.cell].race == bot.race && s.cells[bot.cell].count < config.ringCount)
  }

  function Arm(config: Config, s: Spread, bot: Bot): Spread {
    if !Eligible(config, bot) then s
    else
      var opens := config.ringCount > 0 && bot.cell !in s.cells;
      var joins := Designates(config, s, bot);
      var cells :=
        if opens then s.cells[bot.cell := Cell(bot.race, 1)]
        else if joins then s.cells[bot.cell := Cell(bot.race, s.cells[bot.cell].count + 1)]
        else s.cells;
      var settlers := if joins then s.settlers + {bot.id} else s.settlers;
      var mode := if bot.id in settlers then Village else NearPlayer;
      Spread(if bot.id in s.pending then s.pending else s.pending[bot.id := mode], cells, settlers)
  }

  /** The bot's one-shot relocation, taken from the pending set. */
  function Teleport(s: Spread, bot: BotId): (Spread, Option<Mode>) {
    if bot !in s.pending then (s, None)
    else (s.(pending := s.pending - {bot}), Some(s.pending[bot]))
  }

  class RandomPlayerbotMgr {
    var pending: map<BotId, Mode>
    var cells: map<Key, Cell>
    var settlers: set<BotId>

    ghost function State(): Spread
      reads this
    {
      Spread(pending, cells, settlers)
    }

    method ArmLoginSpread(config: Config, bot: Bot) returns (scheduled: bool)
      modifies this
      ensures State() == Arm(config, old(State()), bot)
      ensures scheduled == (Eligible(config, bot) && bot.id !in old(pending))
      ensures !config.loginSpread || !bot.managed || bot.leaving || bot.inBattleGround || bot.level < 1 || bot.level > 4
        ==> !scheduled && State() == old(State())
      ensures config.loginSpread && bot.managed && !bot.leaving && !bot.inBattleGround && 1 <= bot.level <= 4 ==>
        var room := bot.cell in old(cells) ==>
          old(cells)[bot.cell].race == bot.race && old(cells)[bot.cell].count < config.ringCount;
        var joins := config.ringCount > 0 && bot.id !in old(settlers) && room;
        && settlers == old(settlers) + (if joins then {bot.id} else {})
        && (config.ringCount > 0 && bot.cell !in old(cells) ==> cells == old(cells)[bot.cell := Cell(bot.race, 1)])
        && (joins && bot.cell in old(cells) ==>
              cells == old(cells)[bot.cell := Cell(bot.race, old(cells)[bot.cell].count + 1)])
        && (config.ringCount == 0 || (bot.cell in old(cells) && !joins) ==> cells == old(cells))
        && (bot.id in old(pending) ==> !scheduled && pending == old(pending))
        && (bot.id !in old(pending) ==>
              scheduled && pending == old(pending)[bot.id := if bot.id in settlers then Village else NearPlayer])
    {
      if !config.loginSpread || !bot.managed || bot.leaving || bot.inBattleGround {
        return false;
      }
      if bot.level < 1 || bot.level >= 5 {
        return false;
      }
      var settler := bot.id in settlers;
      if config.ringCount > 0 {
        if bot.cell in cells {
          var entry := cells[bot.cell];
          if !settler && entry.race == bot.race && entry.count < config.ringCount {
            cells := cells[bot.cell := entry.(count := entry.count + 1)];
            settlers := settlers + {bot.id};
            settler := true;
          }
        } else {
          cells := cells[bot.cell := Cell(bot.race, 1)];
          if !settler {
            settlers := settlers + {bot.id};
            settler := true;
          }
        }
      }
      scheduled := bot.id !in pending;
      if scheduled {
        pending := pending[bot.id := if settler then Village else NearPlayer];
      }
    }

    method LoginSpreadTeleport(bot: BotId) returns (mode: Option<Mode>)
      modifies this
      ensures (State(), mode) == Teleport(old(State()), bot)
      ensures cells == old(cells) && settlers == old(settlers)
      ensures bot in old(pending) ==> mode == Some(old(pending)[bot]) && pending == old(pending) - {bot}
      ensures bot !in old(pending) ==> mode == None && pending == old(pending)
    {
      if bot !in pending {
        return None;
      }
      mode := Some(pending[bot]);
      pending := pending - {bot};
    }
  }

  // --- one session ---------------------------------------------------------------------------

  /** A login, or the teleport event that takes a bot's entry (and, with random teleports off,
      only drops it). */
  datatype Event = Login(bot: Bot) | TeleportEvent(id: BotId)

  /** `named[k]` are the bots designated in cell `k` this session, in order; `armed` and
      `consumed` count a bot's entries into and out of the pending set. `residents[k]` are the
      bots the cell's count stands for, and `villagers[k]` those sent to the village from there. */
  datatype Session = Session(
    spread: Spread, named: map<Key, seq<Bot>>, armed: map<BotId, nat>, consumed: map<BotId, nat>,
    inherited: set<Key>, residents: map<Key, set<BotId>>, villagers: map<Key, set<BotId>>,
    settledAtLogin: map<BotId, bool>, placements: seq<Placement>)

  /** What a teleport event answered, and whether the bot was a settler once the login that armed it
      was done. */
  datatype Placement = Placement(bot: BotId, mode: Mode, settler: bool)

  function At(m: map<Key, set<BotId>>, k: Key): set<BotId> {
    if k in m then m[k] else {}
  }

  function Residents(s: Session, k: Key): set<BotId> {
    At(s.residents, k)
  }

  function Villagers(s: Session, k: Key): set<BotId> {
    At(s.villagers, k)
  }

  /** The login opens its cell, or adds to its count. */
  predicate Counts(config: Config, s: Spread, bot: Bot) {
    Eligible(config, bot) && config.ringCount > 0 && (bot.cell !in s.cells || Designates(config, s, bot))
  }

  /** The login newly sends the bot to the village. */
  predicate Sends(config: Config, s: Spread, bot: Bot) {
    var s' := Arm(config, s, bot);
    bot.id !in s.pending && bot.id in s'.pending && s'.pending[bot.id] == Village
  }

  function Count<T(==)>(m: map<T, nat>, x: T): nat {
    if x in m then m[x] else 0
  }

  function Named(s: Session, k: Key): seq<Bot> {
    if k in s.named then s.named[k] else []
  }

  function Next(config: Config, s: Session, e: Event): Session {
    match e
    case Login(bot) =>
      var spread := Arm(config, s.spread, bot);
      Session(
        spread,
        if Designates(config, s.spread, bot) then s.named[bot.cell := Named(s, bot.cell) + [bot]] else s.named,
        if bot.id in spread.pending && bot.id !in s.spread.pending
        then s.armed[bot.id := Count(s.armed, bot.id) + 1] else s.armed,
        s.consumed,
        if bot.cell in spread.cells && bot.cell !in s.spread.cells && !Designates(config, s.spread, bot)
        then s.inherited + {bot.cell} else s.inherited,
        if Counts(config, s.spread, bot)
        then s.residents[bot.cell := Residents(s, bot.cell) + {bot.id}] else s.residents,
        if Sends(config, s.spread, bot)
        then s.villagers[bot.cell := Villagers(s, bot.cell) + {bot.id}] else s.villagers,
        if Eligible(config, bot) && bot.id !in s.spread.pending
        then s.settledAtLogin[bot.id := bot.id in spread.settlers] else s.settledAtLogin,
        s.placements)
    case TeleportEvent(id) =>
      var (spread, mode) := Teleport(s.spread, id);
      s.(spread := spread,
         consumed := if mode.Some? then s.consumed[id := Count(s.consumed, id) + 1] else s.consumed,
         placements := s.placements +
           if mode.Some? then [Placement(id, mode.value, id in s.settledAtLogin && s.settledAtLogin[id])] else [])
  }

  function Run(config: Config, s: Session, events: seq<Event>): Session
    decreases |events|
  {
    if events == [] then s else Run(config, Next(config, s, events[0]), events[1..])
  }

  /** A manager at start-up, with the settlers the database remembers. */
  function Fresh(settlers: set<BotId>): Session {
    Session(Spread(map[], map[], settlers), map[], map[], map[], {}, map[], map[], map[], [])
  }

  ghost predicate CellInv(config: Config, s: Session, k: Key)
    requires k in s.spread.cells
  {
    && s.spread.cells[k].count <= config.ringCount
    && s.spread.cells[k].count == |Named(s, k)| + (if k in s.inherited then 1 else 0)
    && forall j | 0 <= j < |Named(s, k)| ::
         Named(s, k)[j].race == s.spread.cells[k].race && Named(s, k)[j].id in s.spread.settlers
  }

  ghost predicate RingInv(config: Config, s: Session) {
    && (forall k | k in s.spread.cells :: CellInv(config, s, k))
    && (forall k | k in s.named :: k in s.spread.cells)
    && s.inherited <= s.spread.cells.Keys
  }

  ghost predicate NamedOnce(s: Session) {
    Once(s.named)
  }

  ghost predicate Once(named: map<Key, seq<Bot>>) {
    forall k, j, k', j' | k in named && 0 <= j < |named[k]| && k' in named && 0 <= j' < |named[k']| ::
      named[k][j].id == named[k'][j'].id ==> k == k' && j == j'
  }

  lemma AppendKeepsOnce(named: map<Key, seq<Bot>>, k: Key, list: seq<Bot>, bot: Bot)
    requires Once(named) && list == if k in named then named[k] else []
    requires forall k', j | k' in named && 0 <= j < |named[k']| :: named[k'][j].id != bot.id
    ensures Once(named[k := list + [bot]])
  {
    var after: map<Key, seq<Bot>> := named[k := list + [bot]];
    forall k': Key, j: int | k' in after && 0 <= j < |after[k']|
      ensures after[k'][j].id == bot.id ==> k' == k && j == |list|
      ensures !(k' == k && j == |list|) ==> k' in named && j < |named[k']| && after[k'][j] == named[k'][j]
    {
    }
  }

  ghost predicate PendingInv(s: Session) {
    forall b :: Count(s.armed, b) == Count(s.consumed, b) + (if b in s.spread.pending then 1 else 0)
  }

  lemma LoginKeepsOtherCell(config: Config, s: Session, bot: Bot, k: Key)
    requires k in s.spread.cells && k != bot.cell && CellInv(config, s, k)
    ensures var s' := Next(config, s, Login(bot)); k in s'.spread.cells && CellInv(config, s', k)
  {
    var s' := Next(config, s, Login(bot));
    assert Named(s', k) == Named(s, k) && s'.spread.cells[k] == s.spread.cells[k];
    assert s.spread.settlers <= s'.spread.settlers;
  }

  lemma LoginKeepsOwnCell(config: Config, s: Session, bot: Bot)
    requires bot.cell in s.spread.cells ==> CellInv(config, s, bot.cell)
    requires bot.cell in s.named || bot.cell in s.inherited ==> bot.cell in s.spread.cells
    ensures var s' := Next(config, s, Login(bot)); bot.cell in s'.spread.cells ==> CellInv(config, s', bot.cell)
  {
  }

  lemma NextKeepsRing(config: Config, s: Session, e: Event)
    requires RingInv(config, s)
    ensures RingInv(config, Next(config, s, e))
  {
    match e
    case Login(bot) =>
      var s' := Next(config, s, e);
      forall k | k in s'.spread.cells ensures CellInv(config, s', k) {
        if k == bot.cell {
          LoginKeepsOwnCell(config, s, bot);
        } else {
          LoginKeepsOtherCell(config, s, bot, k);
        }
      }
      assert s'.inherited <= s'.spread.cells.Keys;
    case TeleportEvent(id) =>
      var s' := Next(config, s, e);
      forall k | k in s'.spread.cells ensures CellInv(config, s', k) {
        assert CellInv(config, s, k) && Named(s', k) == Named(s, k);
      }
  }

  lemma NextKeepsNamedOnce(config: Config, s: Session, e: Event)
    requires RingInv(config, s) && NamedOnce(s)
    ensures NamedOnce(Next(config, s, e))
  {
    hide Once;
    if e.Login? && Designates(config, s.spread, e.bot) {
      forall k, j | k in s.named && 0 <= j < |s.named[k]| ensures s.named[k][j].id != e.bot.id {
        assert Named(s, k)[j].id in s.spread.settlers;
      }
      AppendKeepsOnce(s.named, e.bot.cell, Named(s, e.bot.cell), e.bot);
    }
  }

  /** Over any session of logins and teleports: a cell's count is its newly designated bots,
      plus one if an already persisted settler opened it; it never exceeds the ring size; the
      designated bots share the recorded race; and no bot is designated twice. */
  lemma {:induction false} RingStaysBounded(config: Config, s: Session, events: seq<Event>)
    requires RingInv(config, s) && NamedOnce(s)
    ensures RingInv(config, Run(config, s, events)) && NamedOnce(Run(config, s, events))
    decreases |events|
  {
    if events != [] {
      NextKeepsRing(config, s, events[0]);
      NextKeepsNamedOnce(config, s, events[0]);
      RingStaysBounded(config, Next(config, s, events[0]), events[1..]);
    }
  }

  lemma DesignatedFit(config: Config, settlers: set<BotId>, events: seq<Event>, k: Key)
    ensures var s := Run(config, Fresh(settlers), events);
      && |Named(s, k)| <= config.ringCount
      && (forall j | 0 <= j < |Named(s, k)| ::
            k in s.spread.cells && Named(s, k)[j].race == s.spread.cells[k].race)
      && forall i, j | 0 <= i < j < |Named(s, k)| :: Named(s, k)[i].id != Named(s, k)[j].id
  {
    RingStaysBounded(config, Fresh(settlers), events);
  }

  lemma NextKeepsPending(config: Config, s: Session, e: Event)
    requires PendingInv(s)
    ensures PendingInv(Next(config, s, e))
  {
    hide Designates, Eligible, Counts, Sends;
  }

  /** A bot is armed once for each relocation it consumes, with at most one entry pending. */
  lemma {:induction false} EachEntryConsumedOnce(config: Config, s: Session, events: seq<Event>)
    requires PendingInv(s)
    ensures PendingInv(Run(config, s, events))
    decreases |events|
  {
    hide Next, PendingInv;
    if events != [] {
      NextKeepsPending(config, s, events[0]);
      EachEntryConsumedOnce(config, Next(config, s, events[0]), events[1..]);
    }
  }

  /** Only settlers wait for a place in the village. */
  ghost predicate VillagersSettled(s: Spread) {
    forall b | b in s.pending && s.pending[b] == Village :: b in s.settlers
  }

  /** Over any session, whoever is relocated to the village is a settler by then, and a settler
      stays one. */
  lemma {:induction false} VillagersAreSettlers(config: Config, s: Session, events: seq<Event>)
    requires VillagersSettled(s.spread)
    ensures VillagersSettled(Run(config, s, events).spread)
    ensures s.spread.settlers <= Run(config, s, events).spread.settlers
    decreases |events|
  {
    if events != [] {
      VillagersAreSettlers(config, Next(config, s, events[0]), events[1..]);
    }
  }

  /** A waiting entry, and every placement made, is for the village exactly when the bot was a settler
      once the login that armed it was done. */
  ghost predicate ModesFollowLogins(s: Session) {
    && (forall b | b in s.spread.pending ::
          b in s.settledAtLogin && (s.spread.pending[b] == Village <==> s.settledAtLogin[b]))
    && forall i | 0 <= i < |s.placements| :: s.placements[i].mode == Village <==> s.placements[i].settler
  }

  lemma NextFollowsLogins(config: Config, s: Session, e: Event)
    requires ModesFollowLogins(s)
    ensures ModesFollowLogins(Next(config, s, e))
  {
    hide Eligible, Designates, Counts, Sends;
  }

  /** Over any session, a bot is placed in the village exactly when it was a settler once the login
      that armed it was done, and near a player exactly when it was not. */
  lemma {:induction false} PlacementsFollowLogins(config: Config, s: Session, events: seq<Event>)
    requires ModesFollowLogins(s)
    ensures ModesFollowLogins(Run(config, s, events))
    decreases |events|
  {
    hide Next, ModesFollowLogins;
    if events != [] {
      NextFollowsLogins(config, s, events[0]);
      PlacementsFollowLogins(config, Next(config, s, events[0]), events[1..]);
    }
  }

  // --- how many villagers a cell gets -----------------------------------------------------------

  /** A settler that is not one of the cell's residents is sent to the village from there. */
  predicate StrangerComes(config: Config, s: Session, e: Event, k: Key) {
    && e.Login? && e.bot.cell == k && Eligible(config, e.bot)
    && e.bot.id in s.spread.settlers && e.bot.id !in s.spread.pending
    && (k in s.spread.cells || config.ringCount == 0)
    && e.bot.id !in Residents(s, k)
  }

  /** The strangers that come to the cell over a run. */
  function Strangers(config: Config, s: Session, events: seq<Event>, k: Key): set<BotId>
    decreases |events|
  {
    if events == [] then {}
    else
      (if StrangerComes(config, s, events[0], k) then {events[0].bot.id} else {})
      + Strangers(config, Next(config, s, events[0]), events[1..], k)
  }

  ghost predicate VillageInv(config: Config, s: Session, k: Key) {
    && Residents(s, k) <= s.spread.settlers && Villagers(s, k) <= s.spread.settlers
    && |Residents(s, k)| == Places(s.spread, k) <= config.ringCount
    && (Villagers(s, k) != {} ==> k in s.spread.cells || config.ringCount == 0)
  }

  /** What a login does to its own cell. */
  lemma LoginEffect(config: Config, s: Session, bot: Bot)
    ensures var s', k := Next(config, s, Login(bot)), bot.cell;
      && Residents(s', k) == Residents(s, k) + (if Counts(config, s.spread, bot) then {bot.id} else {})
      && Villagers(s', k) == Villagers(s, k) + (if Sends(config, s.spread, bot) then {bot.id} else {})
  {
  }

  lemma ArmEffect(config: Config, s: Spread, bot: Bot)
    ensures var s', k := Arm(config, s, bot), bot.cell;
      && (Sends(config, s, bot) <==>
            Eligible(config, bot) && bot.id !in s.pending && (bot.id in s.settlers || Designates(config, s, bot)))
      && s'.settlers == s.settlers + (if Designates(config, s, bot) then {bot.id} else {})
      && (k in s'.cells <==> k in s.cells || Counts(config, s, bot))
      && Places(s', k) == Places(s, k) + (if Counts(config, s, bot) then 1 else 0)
      && (Counts(config, s, bot) && Places(s, k) <= config.ringCount && (k !in s.cells ==> Places(s, k) == 0) ==>
            Places(s', k) <= config.ringCount)
  {
  }

  function Places(s: Spread, k: Key): nat {
    if k in s.cells then s.cells[k].count else 0
  }

  lemma LoginAtCell(config: Config, s: Session, bot: Bot)
    requires VillageInv(config, s, bot.cell)
    ensures var s', k := Next(config, s, Login(bot)), bot.cell;
      && VillageInv(config, s', k)
      && Villagers(s', k) - Residents(s', k)
         == Villagers(s, k) - Residents(s, k) + if StrangerComes(config, s, Login(bot), k) then {bot.id} else {}
  {
    hide Arm, Sends, Residents, Villagers, Places, Counts, Designates, Eligible, StrangerComes;
    LoginEffect(config, s, bot);
    ArmEffect(config, s.spread, bot);
    StrangerIsSentUncounted(config, s, bot);
    LoginSpread(config, s, bot);
    NoPlaces(s.spread, bot.cell);
    hide Next;
    OneMore(Villagers(s, bot.cell), Residents(s, bot.cell), s.spread.settlers,
            Next(config, s, Login(bot)).spread.settlers, bot.id,
            Sends(config, s.spread, bot), Counts(config, s.spread, bot));
  }

  lemma OneMore(villagers: set<BotId>, residents: set<BotId>, settlers: set<BotId>, settlers': set<BotId>,
                id: BotId, sends: bool, counts: bool)
    requires villagers <= settlers <= settlers' && residents <= settlers
    requires sends || counts ==> id in settlers'
    requires counts ==> id !in settlers || (villagers == {} && |residents| == 0)
    ensures var villagers' := villagers + if sends then {id} else {};
      var residents' := residents + if counts then {id} else {};
      && villagers' <= settlers' && residents' <= settlers'
      && villagers' - residents' == villagers - residents + (if sends && !counts && id !in residents then {id} else {})
      && |residents'| == |residents| + if counts then 1 else 0
  {
    var v, r: set<BotId> := if sends then {id} else {}, if counts then {id} else {};
    Uncounted(villagers, residents, id, sends, counts);
    if counts {
      Counted(residents, settlers, id);
    } else {
      assert residents + {} == residents;
    }
    assert villagers + v <= settlers' && residents + r <= settlers';
  }

  lemma Uncounted(villagers: set<BotId>, residents: set<BotId>, id: BotId, sends: bool, counts: bool)
    requires counts ==> id !in villagers
    ensures villagers + (if sends then {id} else {}) - (residents + if counts then {id} else {})
         == villagers - residents + (if sends && !counts && id !in residents then {id} else {})
  {
  }

  lemma Counted(residents: set<BotId>, settlers: set<BotId>, id: BotId)
    requires residents <= settlers && (id !in settlers || |residents| == 0)
    ensures id !in residents && |residents + {id}| == |residents| + 1
  {
  }

  lemma StrangerIsSentUncounted(config: Config, s: Session, bot: Bot)
    ensures StrangerComes(config, s, Login(bot), bot.cell) <==>
      && Sends(config, s.spread, bot) && !Counts(config, s.spread, bot) && bot.id !in Residents(s, bot.cell)
    ensures Counts(config, s.spread, bot) ==>
      config.ringCount > 0 && (bot.id !in s.spread.settlers || bot.cell !in s.spread.cells)
    ensures Counts(config, s.spread, bot) ==> bot.id in s.spread.settlers || Designates(config, s.spread, bot)
    ensures Sends(config, s.spread, bot) ==>
      bot.cell in s.spread.cells || Counts(config, s.spread, bot) || config.ringCount == 0
  {
    hide Sends, Residents;
    ArmEffect(config, s.spread, bot);
  }

  lemma LoginSpread(config: Config, s: Session, bot: Bot)
    ensures Next(config, s, Login(bot)).spread == Arm(config, s.spread, bot)
  {
  }

  lemma NoPlaces(s: Spread, k: Key)
    ensures k !in s.cells ==> Places(s, k) == 0
  {
  }

  lemma ElsewhereNothing(config: Config, s: Session, e: Event, k: Key)
    requires e.Login? ==> e.bot.cell != k
    ensures var s' := Next(config, s, e);
      && Residents(s', k) == Residents(s, k) && Villagers(s', k) == Villagers(s, k)
      && (k in s'.spread.cells <==> k in s.spread.cells) && Places(s'.spread, k) == Places(s.spread, k)
      && s.spread.settlers <= s'.spread.settlers
  {
  }

  lemma NextAtCell(config: Config, s: Session, e: Event, k: Key)
    requires VillageInv(config, s, k)
    ensures var s' := Next(config, s, e);
      && VillageInv(config, s', k)
      && Villagers(s', k) - Residents(s', k)
         == Villagers(s, k) - Residents(s, k) + if StrangerComes(config, s, e, k) then {e.bot.id} else {}
  {
    hide Next, Residents, Villagers, Places;
    if e.Login? && e.bot.cell == k {
      LoginAtCell(config, s, e.bot);
    } else {
      ElsewhereNothing(config, s, e, k);
    }
  }

  lemma {:induction false} UncountedAreStrangers(config: Config, s: Session, events: seq<Event>, k: Key)
    requires VillageInv(config, s, k)
    ensures var end := Run(config, s, events);
      && VillageInv(config, end, k)
      && Villagers(end, k) - Residents(end, k)
         == Villagers(s, k) - Residents(s, k) + Strangers(config, s, events, k)
    decreases |events|
  {
    hide VillageInv, StrangerComes, Next, Residents, Villagers;
    if events != [] {
      NextAtCell(config, s, events[0], k);
      UncountedAreStrangers(config, Next(config, s, events[0]), events[1..], k);
    }
  }

  /** Over any session, the villagers a cell gets beyond those its count stands for are exactly the
      strangers that come to it. So they stay within the ring size exactly when the strangers are
      no more than the places left by those residents that were sent themselves; without strangers
      they always do. */
  lemma RingBoundIff(config: Config, settlers: set<BotId>, events: seq<Event>, k: Key)
    ensures var s := Run(config, Fresh(settlers), events);
      var strangers := Strangers(config, Fresh(settlers), events, k);
      && |Residents(s, k)| == Places(s.spread, k) <= config.ringCount
      && Villagers(s, k) - Residents(s, k) == strangers
      && (Villagers(s, k) <= Residents(s, k) <==> strangers == {})
      && (|Villagers(s, k)| <= config.ringCount <==>
            |strangers| <= config.ringCount - |Villagers(s, k) * Residents(s, k)|)
      && (strangers == {} ==> |Villagers(s, k)| <= config.ringCount)
  {
    FreshVillage(config, settlers, k);
    UncountedAreStrangers(config, Fresh(settlers), events, k);
    hide Run, Strangers, Residents, Villagers, Places, Fresh;
    var s := Run(config, Fresh(settlers), events);
    var villagers, residents := Villagers(s, k), Residents(s, k);
    var strangers := Strangers(config, Fresh(settlers), events, k);
    assert villagers - residents == strangers;
    assert villagers == villagers * residents + strangers;
    Smaller(villagers * residents, residents);
  }

  lemma FreshVillage(config: Config, settlers: set<BotId>, k: Key)
    ensures VillageInv(config, Fresh(settlers), k)
    ensures Villagers(Fresh(settlers), k) == {}
  {
  }

  lemma {:induction false} Smaller(a: set<BotId>, b: set<BotId>)
    requires a <= b
    ensures |a| <= |b|
  {
    assert b == a + (b - a);
  }

  const ANN := Bot(0, 1, Key(0), 1, true, false, false)
  const BEA := Bot(1, 1, Key(1), 1, true, false, false)

  /** With a ring of one and no settler remembered: a bot settles, is placed, and logs in again
      where another has settled. Two villagers share a cell whose count is one. */
  lemma RelogOverfillsTheRing()
    ensures var config := Config(true, 1);
      var s := Run(config, Fresh({}), [Login(ANN), TeleportEvent(0), Login(BEA), Login(ANN.(cell := Key(1)))]);
      Places(s.spread, Key(1)) == 1 && Villagers(s, Key(1)) == {0, 1}
  {
    var config := Config(true, 1);
    var moved := Login(ANN.(cell := Key(1)));
    var events := [Login(ANN), TeleportEvent(0), Login(BEA), moved];
    var s1 := Next(config, Fresh({}), Login(ANN));
    assert s1.spread == Spread(map[0 := Village], map[Key(0) := Cell(1, 1)], {0});
    var s2 := Next(config, s1, TeleportEvent(0));
    assert s2.spread == Spread(map[], map[Key(0) := Cell(1, 1)], {0}) && Villagers(s2, Key(1)) == {};
    var s3 := Next(config, s2, Login(BEA));
    LoginEffect(config, s2, BEA);
    assert s3.spread == Spread(map[1 := Village], map[Key(0) := Cell(1, 1), Key(1) := Cell(1, 1)], {0, 1});
    LoginEffect(config, s3, moved.bot);
    assert events[1..] == [TeleportEvent(0), Login(BEA), moved];
    assert events[1..][1..] == [Login(BEA), moved] && events[1..][1..][1..] == [moved];
    assert Run(config, s2, [Login(BEA), moved]) == Run(config, s3, [moved]) == Next(config, s3, moved);
    assert Run(config, s1, events[1..]) == Run(config, s2, events[1..][1..]);
    assert Run(config, Fresh({}), events) == Run(config, s1, events[1..]);
    assert Villagers(s3, Key(1)) == {1};
  }
}
