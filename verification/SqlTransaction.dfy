/** Executing a queued transaction on one connection, hardened and not. */
module SqlTransaction {
  import opened Wrappers

  type Store = map<string, string>

  /** A statement's effect; `None` when it fails, leaving the data as it was. */
  type Operation = Store -> Option<Store>

  /** What the server has committed, and the working copy of an open transaction. */
  datatype Connection = Connection(committed: Store, open: Option<Store>)

  function Begin(c: Connection, accepted: bool): (Connection, bool) {
    if accepted && c.open.None? then (c.(open := Some(c.committed)), true) else (c, false)
  }

  /** Outside a transaction a statement commits by itself. */
  function Execute(c: Connection, op: Operation): (Connection, bool) {
    match c.open
    case Some(work) =>
      (match op(work) case Some(next) => (c.(open := Some(next)), true) case None => (c, false))
    case None =>
      (match op(c.committed) case Some(next) => (c.(committed := next), true) case None => (c, false))
  }

  function Commit(c: Connection, accepted: bool): (Connection, bool) {
    if accepted && c.open.Some? then (Connection(c.open.value, None), true) else (c, false)
  }

  function Rollback(c: Connection): Connection {
    c.(open := None)
  }

  class SqlConnection {
    var committed: Store
    var open: Option<Store>

    ghost function State(): Connection
      reads this
    {
      Connection(committed, open)
    }

    method BeginTransaction(accepted: bool) returns (ok: bool)
      modifies this
      ensures (State(), ok) == Begin(old(State()), accepted)
    {
      ok := accepted && open.None?;
      if ok {
        open := Some(committed);
      }
    }

    method ExecuteStatement(op: Operation) returns (ok: bool)
      modifies this
      ensures (State(), ok) == Execute(old(State()), op)
    {
      var next := op(if open.Some? then open.value else committed);
      ok := next.Some?;
      if ok {
        if open.Some? {
          open := next;
        } else {
          committed := next.value;
        }
      }
    }

    method CommitTransaction(accepted: bool) returns (ok: bool)
      modifies this
      ensures (State(), ok) == Commit(old(State()), accepted)
    {
      ok := accepted && open.Some?;
      if ok {
        committed, open := open.value, None;
      }
    }

    method RollbackTransaction()
      modifies this
      ensures State() == Rollback(old(State()))
    {
      open := None;
    }

    /** The statement loop both forms share: stops and rolls back at the first failure. */
    method ExecuteItems(items: seq<Operation>) returns (ok: bool)
      modifies this
      ensures (State(), ok) == Items(old(State()), items)
    {
      for i := 0 to |items|
        invariant Items(State(), items[i..]) == Items(old(State()), items)
      {
        assert items[i..][1..] == items[i + 1..];
        ok := ExecuteStatement(items[i]);
        if !ok {
          RollbackTransaction();
          return;
        }
      }
      ok := true;
    }

    /** The DO_SQLITE branch. */
    method ExecuteHardened(items: seq<Operation>, beginOk: bool, commitOk: bool) returns (committed: bool)
      modifies this
      ensures (State(), committed) == Hardened(old(State()), Batch(items, beginOk, commitOk))
    {
      var begun := BeginTransaction(beginOk);
      if !begun {
        return false;
      }
      var ran := ExecuteItems(items);
      if !ran {
        return false;
      }
      committed := CommitTransaction(commitOk);
      if !committed {
        RollbackTransaction();
      }
    }

    /** The `#else` branch. */
    method ExecuteUnguarded(items: seq<Operation>, beginOk: bool, commitOk: bool) returns (committed: bool)
      modifies this
      ensures (State(), committed) == Unguarded(old(State()), Batch(items, beginOk, commitOk))
    {
      var _ := BeginTransaction(beginOk);
      var ran := ExecuteItems(items);
      if !ran {
        return false;
      }
      committed := CommitTransaction(commitOk);
    }
  }

  function Items(c: Connection, items: seq<Operation>): (Connection, bool)
    decreases |items|
  {
    if items == [] then (c, true)
    else
      var (c', ok) := Execute(c, items[0]);
      if !ok then (Rollback(c'), false) else Items(c', items[1..])
  }

  /** The queued statements, and what the server will answer to BEGIN and COMMIT. */
  datatype Batch = Batch(items: seq<Operation>, beginOk: bool, commitOk: bool)

  function Hardened(c: Connection, b: Batch): (Connection, bool) {
    var (begun, ok) := Begin(c, b.beginOk);
    if !ok then (begun, false)
    else
      var (ran, ok) := Items(begun, b.items);
      if !ok then (ran, false)
      else
        var (done, ok) := Commit(ran, b.commitOk);
        if ok then (done, true) else (Rollback(done), false)
  }

  function Unguarded(c: Connection, b: Batch): (Connection, bool) {
    var (begun, _) := Begin(c, b.beginOk);
    var (ran, ok) := Items(begun, b.items);
    if !ok then (ran, false) else Commit(ran, b.commitOk)
  }

  // --- atomicity -----------------------------------------------------------------------

  /** All statements in turn, or nothing. */
  function Fold(s: Store, items: seq<Operation>): Option<Store>
    decreases |items|
  {
    if items == [] then Some(s)
    else match items[0](s)
      case None => None
      case Some(next) => Fold(next, items[1..])
  }

  /** The statements up to the first that fails, each committed by itself. */
  function Prefix(s: Store, items: seq<Operation>): Store
    decreases |items|
  {
    if items == [] then s
    else match items[0](s)
      case None => s
      case Some(next) => Prefix(next, items[1..])
  }

  /** All or nothing, told truthfully, with no transaction left open. */
  predicate AllOrNothing(before: Connection, items: seq<Operation>, after: Connection, ok: bool) {
    && after.open.None?
    && (ok ==> Fold(before.committed, items) == Some(after.committed))
    && (!ok ==> after.committed == before.committed)
  }

  lemma {:induction false} ItemsInTransaction(c: Connection, items: seq<Operation>)
    requires c.open.Some?
    ensures Items(c, items) ==
      match Fold(c.open.value, items)
      case Some(s) => (c.(open := Some(s)), true)
      case None => (c.(open := None), false)
    decreases |items|
  {
    if items != [] && items[0](c.open.value).Some? {
      ItemsInTransaction(Execute(c, items[0]).0, items[1..]);
    }
  }

  lemma {:induction false} ItemsInAutocommit(c: Connection, items: seq<Operation>)
    requires c.open.None?
    ensures Items(c, items) == (Connection(Prefix(c.committed, items), None), Fold(c.committed, items).Some?)
    decreases |items|
  {
    if items != [] && items[0](c.committed).Some? {
      ItemsInAutocommit(Execute(c, items[0]).0, items[1..]);
    }
  }

  /** The hardened form commits exactly when BEGIN, every statement and COMMIT succeed. */
  lemma HardenedIsAtomic(c: Connection, b: Batch)
    requires c.open.None?
    ensures var (after, ok) := Hardened(c, b);
      && AllOrNothing(c, b.items, after, ok)
      && (ok <==> b.beginOk && b.commitOk && Fold(c.committed, b.items).Some?)
  {
    ItemsInTransaction(Begin(c, true).0, b.items);
  }

  /** The unguarded form is atomic exactly when BEGIN holds and COMMIT is either accepted or
      never reached; without BEGIN, only when the batch's autocommitted prefix is invisible. */
  lemma UnguardedIsAtomicIff(c: Connection, b: Batch)
    requires c.open.None?
    ensures var (after, ok) := Unguarded(c, b);
      AllOrNothing(c, b.items, after, ok) <==>
        if b.beginOk then b.commitOk || Fold(c.committed, b.items).None?
        else Prefix(c.committed, b.items) == c.committed
  {
    if b.beginOk {
      ItemsInTransaction(Begin(c, true).0, b.items);
    } else {
      ItemsInAutocommit(c, b.items);
    }
  }

  function RunBatches(c: Connection, batches: seq<Batch>): (Connection, seq<bool>)
    decreases |batches|
  {
    if batches == [] then (c, [])
    else
      var (next, ok) := Hardened(c, batches[0]);
      var (end, answers) := RunBatches(next, batches[1..]);
      (end, [ok] + answers)
  }

  /** The fold of the batches that were answered `true`, in order. */
  function Replay(s: Store, batches: seq<Batch>, answers: seq<bool>): Option<Store>
    requires |batches| == |answers|
    decreases |batches|
  {
    if batches == [] then Some(s)
    else if !answers[0] then Replay(s, batches[1..], answers[1..])
    else match Fold(s, batches[0].items)
      case None => None
      case Some(next) => Replay(next, batches[1..], answers[1..])
  }

  /** Over any run of batches and failures, the data is the fold of exactly the batches
      reported as committed, and the connection is never wedged. */
  lemma {:induction false} RunIsReplayOfCommitted(c: Connection, batches: seq<Batch>)
    requires c.open.None?
    ensures var (end, answers) := RunBatches(c, batches);
      && end.open.None? && |answers| == |batches|
      && Replay(c.committed, batches, answers) == Some(end.committed)
    decreases |batches|
  {
    if batches != [] {
      HardenedIsAtomic(c, batches[0]);
      var (next, ok) := Hardened(c, batches[0]);
      RunIsReplayOfCommitted(next, batches[1..]);
      var answers := RunBatches(c, batches).1;
      assert answers[1..] == RunBatches(next, batches[1..]).1;
    }
  }

  /** A refused COMMIT leaves the unguarded connection open, and then the next batch's BEGIN
      is refused whatever the server would have said: its statements join the old work. */
  lemma RefusedCommitWedges(c: Connection, b: Batch, next: Batch)
    requires c.open.None? && b.beginOk && !b.commitOk && Fold(c.committed, b.items).Some?
    ensures var (after, ok) := Unguarded(c, b);
      && !ok && after.open == Fold(c.committed, b.items)
      && !Begin(after, next.beginOk).1
      && (next.commitOk && Fold(after.open.value, next.items).Some? ==>
            Unguarded(after, next) == (Connection(Fold(after.open.value, next.items).value, None), true))
  {
    ItemsInTransaction(Begin(c, true).0, b.items);
    ItemsInTransaction(Unguarded(c, b).0, next.items);
  }
}
