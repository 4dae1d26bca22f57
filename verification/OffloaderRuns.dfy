/** Every interleaving of offloader workers, crawler inserts, failures and crashes. */
module OffloaderRuns {
  import opened Common
  import opened Offloader

  datatype Config = Config(rowsPerObject: nat, continuous: bool)

  predicate ValidConfig(c: Config) { c.rowsPerObject < TWO_64 }

  /** Where a worker of `run_worker` stands. */
  datatype Pc =
    | Looping                              // about to read the shutdown flag
    | Querying                             // transaction begun
    | Holding(batch: Batch)                // rows claimed and locked
    | Uploaded(batch: Batch, key: Key)     // object stored, not committed
    | Done(count: nat)                     // batch returned Ok, not yet counted
    | Erred                                // batch returned Err, not yet counted
    | ExitedEmpty                          // left the loop on an empty claim
    | ExitedShutdown                       // left the loop on the flag
    | Crashed                              // process gone, connection maybe not yet dropped

  /**
   `objects` gives the batch that each object encodes; the object's text is `Encode` of it.
   `lost` holds the workers whose connection, and with it their transaction and its locks, is gone
   while they work on.  `original` and `uncounted` are history: payloads as inserted, and committed
   rows no counter will see.
   */
  datatype State = State(
    rows: map<RowId, Row>,
    locks: Locks,
    objects: map<Key, Batch>,
    workers: seq<Pc>,
    lost: set<nat>,
    shutdown: bool,
    migrated: nat,
    errors: nat,
    original: map<RowId, string>,
    uncounted: nat)

  datatype Event =
    | Insert(id: RowId, payload: string)
    | Begin(w: nat)
    | LeaveOnShutdown(w: nat)
    | ClaimFails(w: nat)
    | ClaimBatch(w: nat, batch: Batch)
    | Put(w: nat, key: Key, stored: bool, ok: bool)
    | Commit(w: nat, applied: bool, ok: bool)
    | Count(w: nat)
    | Crash(w: nat)
    | DropConnection(w: nat)
    | Shutdown

  predicate At(s: State, w: nat, pc: Pc) { w < |s.workers| && s.workers[w] == pc }

  predicate Enabled(c: Config, s: State, e: Event)
    requires ValidConfig(c)
  {
    match e
    case Insert(id, payload) => id !in s.rows && OneLine(payload)
    case Begin(w) => At(s, w, Looping) && !s.shutdown
    case LeaveOnShutdown(w) => At(s, w, Looping) && s.shutdown
    case ClaimFails(w) => At(s, w, Querying)
    case ClaimBatch(w, batch) =>
      At(s, w, Querying) && w !in s.lost && AsI64(c.rowsPerObject) >= 0
      && TakesFirst(batch, s.rows, Available(s.rows, s.locks), AsI64(c.rowsPerObject))
    case Put(w, key, stored, ok) =>
      w < |s.workers| && s.workers[w].Holding? && key !in s.objects && (ok ==> stored)
    case Commit(w, applied, ok) =>
      w < |s.workers| && s.workers[w].Uploaded? && (ok ==> applied) && (applied ==> w !in s.lost)
    case Count(w) => w < |s.workers| && (s.workers[w].Done? || s.workers[w].Erred?)
    case Crash(w) => w < |s.workers| && !s.workers[w].ExitedEmpty? && !s.workers[w].ExitedShutdown? &&
        !s.workers[w].Crashed?
    case DropConnection(w) =>
      w < |s.workers| && w !in s.lost && (s.workers[w].Crashed? || s.workers[w].Querying? || HoldsBatch(s.workers[w]))
    case Shutdown => true
  }

  predicate HasWorker(e: Event) { !e.Insert? && !e.Shutdown? }

  /** The step of the worker itself; what the step does to the database is column by column below. */
  function NextPc(c: Config, pc: Pc, e: Event): Pc {
    match e
    case Begin(_) => Querying
    case LeaveOnShutdown(_) => ExitedShutdown
    case ClaimFails(_) => Erred
    case ClaimBatch(_, batch) => if batch != [] then Holding(batch) else if c.continuous then Looping else ExitedEmpty
    case Put(_, key, _, ok) => if ok && pc.Holding? then Uploaded(pc.batch, key) else Erred
    case Commit(_, _, ok) => if ok && pc.Uploaded? then Done(|pc.batch|) else Erred
    case Count(_) => Looping
    case Crash(_) => Crashed
    case _ => pc
  }

  function WorkersAfter(c: Config, s: State, e: Event): seq<Pc> {
    if HasWorker(e) && e.w < |s.workers| then s.workers[e.w := NextPc(c, s.workers[e.w], e)] else s.workers
  }

  /** The commit of `e` takes effect in the database. */
  predicate Stamps(s: State, e: Event) {
    e.Commit? && e.applied && e.w < |s.workers| && s.workers[e.w].Uploaded?
  }

  function RowsAfter(s: State, e: Event): map<RowId, Row> {
    if e.Insert? then s.rows[e.id := Row(e.payload, None)]
    else if Stamps(s, e) then Stamp(s.rows, Ids(s.workers[e.w].batch), s.workers[e.w].key)
    else s.rows
  }

  predicate EndsTransaction(e: Event) { (e.Put? && !e.ok) || e.Commit? || e.DropConnection? }

  function LocksAfter(s: State, e: Event): Locks {
    if e.ClaimBatch? then WithLocks(s.locks, Ids(e.batch), e.w)
    else if EndsTransaction(e) then Without(s.locks, e.w)
    else s.locks
  }

  /** A worker's next transaction takes another connection. */
  function LostAfter(s: State, e: Event): set<nat> {
    if e.Begin? then s.lost - {e.w} else if e.DropConnection? then s.lost + {e.w} else s.lost
  }

  function ObjectsAfter(s: State, e: Event): map<Key, Batch> {
    if e.Put? && e.stored && e.w < |s.workers| && s.workers[e.w].Holding? then s.objects[e.key := s.workers[e.w].batch]
    else s.objects
  }

  function UncountedAfter(s: State, e: Event): nat {
    if Stamps(s, e) && !e.ok then s.uncounted + |s.workers[e.w].batch|
    else if e.Crash? && e.w < |s.workers| then s.uncounted + CountOf(s.workers[e.w])
    else s.uncounted
  }

  function MigratedAfter(s: State, e: Event): nat {
    if e.Count? && e.w < |s.workers| then s.migrated + CountOf(s.workers[e.w]) else s.migrated
  }

  function ErrorsAfter(s: State, e: Event): nat {
    if e.Count? && e.w < |s.workers| && s.workers[e.w].Erred? then s.errors + 1 else s.errors
  }

  function Apply(c: Config, s: State, e: Event): State {
    State(RowsAfter(s, e), LocksAfter(s, e), ObjectsAfter(s, e), WorkersAfter(c, s, e), LostAfter(s, e),
          s.shutdown || e.Shutdown?, MigratedAfter(s, e), ErrorsAfter(s, e),
          if e.Insert? then s.original[e.id := e.payload] else s.original, UncountedAfter(s, e))
  }

  predicate HoldsBatch(pc: Pc) { pc.Holding? || pc.Uploaded? }

  function CountOf(pc: Pc): nat { if pc.Done? then pc.count else 0 }

  function Exec(c: Config, s: State, es: seq<Event>): State {
    if es == [] then s else Apply(c, Exec(c, s, es[..|es| - 1]), es[|es| - 1])
  }

  predicate Run(c: Config, s: State, es: seq<Event>)
    requires ValidConfig(c)
  {
    es != [] ==> Run(c, s, es[..|es| - 1]) && Enabled(c, Exec(c, s, es[..|es| - 1]), es[|es| - 1])
  }

  /** Nothing stamped, nothing claimed, every worker about to start. */
  ghost predicate Init(s: State) {
    && (forall r :: r in s.rows ==> s.rows[r].s3Key.None? && OneLine(s.rows[r].payload))
    && s.locks == map[] && s.objects == map[] && s.lost == {}
    && (forall w :: 0 <= w < |s.workers| ==> s.workers[w].Looping?)
    && s.migrated == 0 && s.errors == 0 && s.uncounted == 0
    && s.original == map r | r in s.rows :: s.rows[r].payload
  }

  // ----- Safety

  /** A claimed batch is what is in the table: original payloads of unstamped rows, each locked by the holder. */
  ghost predicate BatchOk(s: State, w: nat)
    requires w < |s.workers| && HoldsBatch(s.workers[w])
  {
    var batch := s.workers[w].batch;
    && DistinctIds(batch)
    && (forall i :: 0 <= i < |batch| ==>
          && batch[i].0 in s.rows && s.rows[batch[i].0].s3Key.None?
          && batch[i].0 in s.original && batch[i].1 == s.original[batch[i].0]
          && batch[i].0 in s.locks && s.locks[batch[i].0] == w)
    && (s.workers[w].Uploaded? ==> s.workers[w].key in s.objects && s.objects[s.workers[w].key] == batch)
  }

  /** The worker holds a batch and still has the transaction that claimed it. */
  predicate Connected(s: State, w: nat) { w < |s.workers| && HoldsBatch(s.workers[w]) && w !in s.lost }

  /** A lock belongs to a connected worker that is in the middle of a batch, or to one that died. */
  ghost predicate LocksOk(s: State) {
    forall r :: r in s.locks ==>
      && s.locks[r] < |s.workers| && s.locks[r] !in s.lost
      && (s.workers[s.locks[r]].Crashed? ||
          (HoldsBatch(s.workers[s.locks[r]]) && r in Ids(s.workers[s.locks[r]].batch)))
  }

  /** The object stored for `batch` gives back the payload of row `r` as it was inserted. */
  ghost predicate Archived(batch: Batch, r: RowId, payload: string) {
    DistinctIds(batch) && (forall i :: 0 <= i < |batch| ==> OneLine(batch[i].1)) &&
    exists k :: 0 <= k < |batch| && batch[k] == (r, payload)
  }

  /** An unstamped row still has its payload; a stamped row's payload is in the object it names. */
  ghost predicate RowOk(s: State, r: RowId)
    requires r in s.rows
  {
    && r in s.original && OneLine(s.original[r])
    && match s.rows[r].s3Key
       case None => s.rows[r].payload == s.original[r]
       case Some(key) => key in s.objects && Archived(s.objects[key], r, s.original[r])
  }

  ghost predicate Inv(s: State) {
    && (forall r :: r in s.rows ==> RowOk(s, r))
    && (forall w :: Connected(s, w) ==> BatchOk(s, w))
    && LocksOk(s)
  }

  lemma BatchIsArchived(s: State, w: nat, r: RowId)
    requires Inv(s) && Connected(s, w) && r in Ids(s.workers[w].batch)
    ensures r in s.rows && r in s.original && Archived(s.workers[w].batch, r, s.original[r])
  {
    var batch := s.workers[w].batch;
    assert BatchOk(s, w);
    forall i | 0 <= i < |batch|
      ensures OneLine(batch[i].1)
    {
      assert RowOk(s, batch[i].0);
    }
    var k :| 0 <= k < |batch| && batch[k].0 == r;
    assert batch[k] == (r, s.original[r]);
  }

  lemma RowsStayOk(c: Config, s: State, e: Event)
    requires ValidConfig(c) && Inv(s) && Enabled(c, s, e)
    ensures var t := Apply(c, s, e); forall r :: r in t.rows ==> RowOk(t, r)
  {
    var t := Apply(c, s, e);
    forall r | r in t.rows
      ensures RowOk(t, r)
    {
      if r in s.rows {
        assert RowOk(s, r);
        if e.Commit? && e.applied && r in Ids(s.workers[e.w].batch) {
          BatchIsArchived(s, e.w, r);
          assert BatchOk(s, e.w);
        }
      }
    }
  }

  lemma OtherRowStays(c: Config, s: State, e: Event, r: RowId, w: nat)
    requires ValidConfig(c) && Inv(s) && Enabled(c, s, e) && (e.Insert? || e.Shutdown? || e.w != w)
    requires r in s.rows && s.rows[r].s3Key.None? && r in s.locks && s.locks[r] == w
    ensures r in RowsAfter(s, e) && RowsAfter(s, e)[r].s3Key.None?
  {
    hide TakesFirst, BatchOk, LocksOk, RowOk;
    if Stamps(s, e) && r in Ids(s.workers[e.w].batch) {
      BatchIsLocked(s, e.w, r);
    }
  }

  lemma OtherLockStays(c: Config, s: State, e: Event, r: RowId, w: nat)
    requires ValidConfig(c) && Enabled(c, s, e) && (e.Insert? || e.Shutdown? || e.w != w)
    requires r in s.locks && s.locks[r] == w
    ensures r in LocksAfter(s, e) && LocksAfter(s, e)[r] == w
  {
  }

  lemma OtherWorkerStays(c: Config, s: State, e: Event, w: nat)
    requires ValidConfig(c) && Enabled(c, s, e) && (e.Insert? || e.Shutdown? || e.w != w) && w < |s.workers|
    ensures w < |WorkersAfter(c, s, e)| && WorkersAfter(c, s, e)[w] == s.workers[w]
    ensures w in LostAfter(s, e) <==> w in s.lost
  {
    hide TakesFirst;
  }

  /** What a step does to the batch of a worker other than the one that moves. */
  lemma OtherBatchStaysOk(c: Config, s: State, e: Event, w: nat)
    requires ValidConfig(c) && Inv(s) && Enabled(c, s, e)
    requires Connected(s, w)
    requires e.Insert? || e.Shutdown? || e.w != w
    ensures w < |Apply(c, s, e).workers| && Apply(c, s, e).workers[w] == s.workers[w] && BatchOk(Apply(c, s, e), w)
  {
    if s.workers[w].Uploaded? { OtherObjectsStay(c, s, e, w); }
    OtherWorkerStays(c, s, e, w);
    assert BatchOk(s, w);
    OriginalsStay(c, s, e);
    var batch := s.workers[w].batch;
    hide Enabled, Inv, RowsAfter, LocksAfter, WorkersAfter, LostAfter, ObjectsAfter, MigratedAfter, ErrorsAfter,
         UncountedAfter, DistinctIds;
    forall i | 0 <= i < |batch|
      ensures batch[i].0 in Apply(c, s, e).rows && Apply(c, s, e).rows[batch[i].0].s3Key.None?
      ensures batch[i].0 in Apply(c, s, e).locks && Apply(c, s, e).locks[batch[i].0] == w
    {
      OtherRowStays(c, s, e, batch[i].0, w);
      OtherLockStays(c, s, e, batch[i].0, w);
    }
  }

  lemma OriginalsStay(c: Config, s: State, e: Event)
    requires ValidConfig(c) && Inv(s) && Enabled(c, s, e)
    ensures forall r :: r in s.rows && r in s.original ==>
        r in Apply(c, s, e).original && Apply(c, s, e).original[r] == s.original[r]
  {
    hide Inv, RowsAfter, LocksAfter, WorkersAfter, LostAfter, ObjectsAfter, MigratedAfter, ErrorsAfter, UncountedAfter,
         TakesFirst;
  }

  lemma OtherObjectsStay(c: Config, s: State, e: Event, w: nat)
    requires ValidConfig(c) && Inv(s) && Enabled(c, s, e) && Connected(s, w) && s.workers[w].Uploaded?
    ensures s.workers[w].key in ObjectsAfter(s, e) && ObjectsAfter(s, e)[s.workers[w].key] == s.workers[w].batch
  {
    hide TakesFirst, RowOk, LocksOk;
    assert BatchOk(s, w);
  }

  lemma BatchIsLocked(s: State, w: nat, r: RowId)
    requires Inv(s) && Connected(s, w) && r in Ids(s.workers[w].batch)
    ensures r in s.locks && s.locks[r] == w
  {
    assert BatchOk(s, w);
  }

  lemma ClaimedBatchIsOk(c: Config, s: State, w: nat, batch: Batch)
    requires ValidConfig(c) && Inv(s) && Enabled(c, s, ClaimBatch(w, batch)) && batch != []
    ensures BatchOk(Apply(c, s, ClaimBatch(w, batch)), w)
  {
    forall i | 0 <= i < |batch|
      ensures batch[i].0 in Ids(batch) && batch[i].0 in s.original && batch[i].1 == s.original[batch[i].0]
    {
      assert RowOk(s, batch[i].0);
    }
  }

  lemma BatchesStayOk(c: Config, s: State, e: Event, w: nat)
    requires ValidConfig(c) && Inv(s) && Enabled(c, s, e)
    requires Connected(Apply(c, s, e), w)
    ensures BatchOk(Apply(c, s, e), w)
  {
    if e.Insert? || e.Shutdown? || e.w != w {
      OtherBatchStaysOk(c, s, e, w);
    } else if e.ClaimBatch? {
      ClaimedBatchIsOk(c, s, w, e.batch);
    } else {
      assert e.Put?;
      assert BatchOk(s, w);
    }
  }

  lemma LocksStayOk(c: Config, s: State, e: Event)
    requires ValidConfig(c) && Inv(s) && Enabled(c, s, e)
    ensures LocksOk(Apply(c, s, e))
  {
    hide TakesFirst, RowsAfter, ObjectsAfter, MigratedAfter, ErrorsAfter, UncountedAfter, BatchOk, RowOk;
    var t := Apply(c, s, e);
    forall r | r in t.locks
      ensures t.locks[r] < |t.workers| && t.locks[r] !in t.lost
      ensures t.workers[t.locks[r]].Crashed? ||
          (HoldsBatch(t.workers[t.locks[r]]) && r in Ids(t.workers[t.locks[r]].batch))
    {
      if r in s.locks {
        assert s.locks[r] < |s.workers|;
      }
    }
  }

  lemma InvPreserved(c: Config, s: State, e: Event)
    requires ValidConfig(c) && Inv(s) && Enabled(c, s, e)
    ensures Inv(Apply(c, s, e))
  {
    RowsStayOk(c, s, e);
    LocksStayOk(c, s, e);
    var t := Apply(c, s, e);
    forall w | Connected(t, w)
      ensures BatchOk(t, w)
    {
      BatchesStayOk(c, s, e, w);
    }
  }

  lemma {:induction false} ReachableInv(c: Config, s: State, es: seq<Event>)
    requires ValidConfig(c) && Init(s) && Run(c, s, es)
    ensures Inv(Exec(c, s, es))
  {
    if es != [] {
      ReachableInv(c, s, es[..|es| - 1]);
      InvPreserved(c, Exec(c, s, es[..|es| - 1]), es[|es| - 1]);
    }
  }

  /** A row that has a key has given up its payload. */
  lemma {:induction false} StampedRowsAreEmpty(c: Config, s: State, es: seq<Event>, r: RowId)
    requires ValidConfig(c) && Init(s) && Run(c, s, es)
    requires r in Exec(c, s, es).rows && Exec(c, s, es).rows[r].s3Key.Some?
    ensures Exec(c, s, es).rows[r].payload == "{}"
  {
    hide Enabled, LocksAfter, WorkersAfter, ObjectsAfter;
    if es != [] {
      var front := es[..|es| - 1];
      if r in Exec(c, s, front).rows && Exec(c, s, front).rows[r].s3Key.Some? {
        StampedRowsAreEmpty(c, s, front, r);
      }
    }
  }

  /**
   In every reachable state each payload that was ever inserted is in its row, or in the object its row names and no
   longer in the row.
   */
  lemma NoPayloadIsLost(c: Config, s: State, es: seq<Event>, r: RowId)
    requires ValidConfig(c) && Init(s) && Run(c, s, es) && r in Exec(c, s, es).original
    ensures var t := Exec(c, s, es);
            && r in t.rows
            && (t.rows[r].s3Key.None? ==> t.rows[r].payload == t.original[r])
            && (t.rows[r].s3Key.Some? ==> t.rows[r].payload == "{}" && t.rows[r].s3Key.value in t.objects &&
                                          Recover(Encode(t.objects[t.rows[r].s3Key.value]), r) == Some(t.original[r]))
  {
    ReachableInv(c, s, es);
    OriginalRows(c, s, es);
    var t := Exec(c, s, es);
    assert RowOk(t, r);
    if t.rows[r].s3Key.Some? {
      StampedRowsAreEmpty(c, s, es, r);
      var batch := t.objects[t.rows[r].s3Key.value];
      var k :| 0 <= k < |batch| && batch[k] == (r, t.original[r]);
      RecoverEncoded(batch, k);
    }
  }

  lemma {:induction false} OriginalRows(c: Config, s: State, es: seq<Event>)
    requires ValidConfig(c) && Init(s) && Run(c, s, es)
    ensures Exec(c, s, es).original.Keys == Exec(c, s, es).rows.Keys
  {
    if es != [] {
      OriginalRows(c, s, es[..|es| - 1]);
    }
  }

  /** No two workers that still have their transactions ever have the same row in hand. */
  lemma WorkersAreDisjoint(c: Config, s: State, es: seq<Event>, v: nat, w: nat, i: nat, j: nat)
    requires ValidConfig(c) && Init(s) && Run(c, s, es) && v != w
    requires Connected(Exec(c, s, es), v) && Connected(Exec(c, s, es), w)
    requires i < |Exec(c, s, es).workers[v].batch| && j < |Exec(c, s, es).workers[w].batch|
    ensures Exec(c, s, es).workers[v].batch[i].0 != Exec(c, s, es).workers[w].batch[j].0
  {
    ReachableInv(c, s, es);
    var t := Exec(c, s, es);
    assert BatchOk(t, v) && BatchOk(t, w);
  }

  lemma StampedRowStays(c: Config, s: State, e: Event, r: RowId)
    requires ValidConfig(c) && Inv(s) && Enabled(c, s, e) && r in s.rows && s.rows[r].s3Key.Some?
    ensures r in RowsAfter(s, e) && RowsAfter(s, e)[r] == s.rows[r]
  {
    if Stamps(s, e) {
      assert BatchOk(s, e.w);
    }
  }

  /**
   A row is stamped once and for all, even if a worker that has lost its connection still has it in hand:
   such a worker may store an object, but never changes a row.
   */
  lemma {:induction false} StampIsFinal(c: Config, s: State, es: seq<Event>, i: nat, r: RowId)
    requires ValidConfig(c) && Init(s) && Run(c, s, es) && i <= |es|
    requires r in Exec(c, s, es[..i]).rows && Exec(c, s, es[..i]).rows[r].s3Key.Some?
    ensures r in Exec(c, s, es).rows && Exec(c, s, es).rows[r] == Exec(c, s, es[..i]).rows[r]
  {
    hide Enabled, RowsAfter, LocksAfter, ObjectsAfter, WorkersAfter, Inv;
    if i == |es| {
      assert es[..i] == es;
    } else {
      var front := es[..|es| - 1];
      assert front[..i] == es[..i];
      StampIsFinal(c, s, front, i, r);
      ReachableInv(c, s, front);
      StampedRowStays(c, Exec(c, s, front), es[|es| - 1], r);
    }
  }

  /** Runs of given events, one after the other. */
  lemma RunOneMore(c: Config, s: State, es: seq<Event>, e: Event)
    requires ValidConfig(c) && Run(c, s, es) && Enabled(c, Exec(c, s, es), e)
    ensures Run(c, s, es + [e]) && Exec(c, s, es + [e]) == Apply(c, Exec(c, s, es), e)
  {
    hide Enabled, Apply;
    assert (es + [e])[..|es|] == es;
  }

  /** What a single row and a batch size of one let a worker claim. */
  lemma OneRowIsTaken(r: RowId, payload: string)
    ensures var rows := map[r := Row(payload, None)]; TakesFirst([(r, payload)], rows, Available(rows, map[]), 1)
  {
    var rows, batch := map[r := Row(payload, None)], [(r, payload)];
    assert batch[0].0 == r;
    assert Ids(batch) == {r} && Available(rows, map[]) == {r};
  }

  /** After `Begin` and `ClaimBatch` the worker holds the only row. */
  lemma ClaimsTheRow(c: Config, s: State, w: nat, r: RowId, payload: string)
    requires c.rowsPerObject == 1 && s.rows == map[r := Row(payload, None)] && s.locks == map[] && !s.shutdown
    requires w < |s.workers| && s.workers[w].Looping?
    ensures var batch := [(r, payload)]; var t := Apply(c, s, Begin(w));
            && Enabled(c, s, Begin(w)) && Enabled(c, t, ClaimBatch(w, batch))
            && Apply(c, t, ClaimBatch(w, batch)) ==
               s.(workers := s.workers[w := Holding(batch)], lost := s.lost - {w}, locks := map[r := w])
  {
    hide TakesFirst, Available;
    var batch := [(r, payload)];
    OneRowIsTaken(r, payload);
    assert s.workers[w := Querying][w := Holding(batch)] == s.workers[w := Holding(batch)];
    assert batch[0].0 == r;
    assert Ids(batch) == {r};
    assert WithLocks(map[], {r}, w) == map[r := w];
  }

  lemma DropsItsLock(c: Config, s: State, w: nat, r: RowId)
    requires ValidConfig(c) && s.locks == map[r := w] && w < |s.workers| && HoldsBatch(s.workers[w]) && w !in s.lost
    ensures Enabled(c, s, DropConnection(w))
    ensures Apply(c, s, DropConnection(w)) == s.(locks := map[], lost := s.lost + {w})
  {
    assert s.workers[w := s.workers[w]] == s.workers;
  }

  /** A lost connection is needed for that: with one, two workers can have the same row in hand. */
  lemma LostConnectionShares(c: Config, s: State, r: RowId, payload: string)
    requires c.rowsPerObject == 1 && Init(s) && s.rows == map[r := Row(payload, None)] &&
        s.workers == [Looping, Looping] && !s.shutdown
    ensures var batch := [(r, payload)];
            var es := [Begin(0), ClaimBatch(0, batch), DropConnection(0), Begin(1), ClaimBatch(1, batch)];
            Run(c, s, es) && Exec(c, s, es).workers == [Holding(batch), Holding(batch)]
  {
    hide Enabled, Apply;
    var batch := [(r, payload)];
    var none: seq<Event> := [];
    ClaimsTheRow(c, s, 0, r, payload);
    RunOneMore(c, s, none, Begin(0));
    RunOneMore(c, s, none + [Begin(0)], ClaimBatch(0, batch));
    var two := none + [Begin(0)] + [ClaimBatch(0, batch)];
    DropsItsLock(c, Exec(c, s, two), 0, r);
    RunOneMore(c, s, two, DropConnection(0));
    var three := two + [DropConnection(0)];
    ClaimsTheRow(c, Exec(c, s, three), 1, r, payload);
    RunOneMore(c, s, three, Begin(1));
    RunOneMore(c, s, three + [Begin(1)], ClaimBatch(1, batch));
    assert three + [Begin(1)] + [ClaimBatch(1, batch)]
        == [Begin(0), ClaimBatch(0, batch), DropConnection(0), Begin(1), ClaimBatch(1, batch)];
  }

  // ----- Completeness

  predicate NoInserts(es: seq<Event>) { forall i :: 0 <= i < |es| ==> !es[i].Insert? }

  /** Every worker, if there is one, has left the loop on an empty claim. */
  predicate AllExitedEmpty(s: State) { forall w :: 0 <= w < |s.workers| ==> s.workers[w].ExitedEmpty? }

  /**
   With a fixed set of rows, some workers and a batch size that is not zero, once every worker has left
   the loop on an empty claim, no row is left unstamped: a worker may leave while others still hold
   rows, but then the last one to leave has seen them all.
   */
  lemma {:induction false} NothingIsLeftBehind(c: Config, s: State, es: seq<Event>)
    requires ValidConfig(c) && Init(s) && Run(c, s, es) && NoInserts(es) && s.workers != []
    requires AsI64(c.rowsPerObject) != 0 && AllExitedEmpty(Exec(c, s, es))
    ensures Unstamped(Exec(c, s, es).rows) == {}
  {
    WorkersStay(c, s, es);
    assert Exec(c, s, es).workers[0].ExitedEmpty?;
    if es != [] {
      var front, e := es[..|es| - 1], es[|es| - 1];
      var t := Exec(c, s, front);
      assert NoInserts(front) by { assert forall i :: 0 <= i < |front| ==> front[i] == es[i]; }
      ReachableInv(c, s, front);
      if AllExitedEmpty(t) {
        NothingIsLeftBehind(c, s, front);
        WorkersStay(c, s, front);
        NothingMoves(c, t, e);
      } else {
        LastExitSeesAll(c, t, e);
      }
    }
  }

  lemma {:induction false} WorkersStay(c: Config, s: State, es: seq<Event>)
    ensures |Exec(c, s, es).workers| == |s.workers|
  {
    if es != [] {
      WorkersStay(c, s, es[..|es| - 1]);
    }
  }

  /** Without workers that run, only inserts change the table. */
  lemma NothingMoves(c: Config, t: State, e: Event)
    requires ValidConfig(c) && Enabled(c, t, e) && !e.Insert? && AllExitedEmpty(t)
    ensures Apply(c, t, e).rows == t.rows && Apply(c, t, e).workers == t.workers
  {
  }

  lemma LastExitSeesAll(c: Config, t: State, e: Event)
    requires ValidConfig(c) && Inv(t) && Enabled(c, t, e)
    requires !AllExitedEmpty(t) && AllExitedEmpty(Apply(c, t, e)) && AsI64(c.rowsPerObject) != 0
    ensures Unstamped(Apply(c, t, e).rows) == {}
  {
    var u := Apply(c, t, e);
    assert e.ClaimBatch? && e.batch == [] by {
      var w :| 0 <= w < |t.workers| && !t.workers[w].ExitedEmpty?;
      assert u.workers[w].ExitedEmpty?;
    }
    assert Available(t.rows, t.locks) == {} by {
      assert Ids(e.batch) == {};
    }
    forall w | 0 <= w < |t.workers|
      ensures t.workers[w].ExitedEmpty? || t.workers[w].Querying?
    {
      assert u.workers[w].ExitedEmpty?;
    }
    assert t.locks.Keys == {};
    assert forall r :: r in Unstamped(t.rows) ==> r in Available(t.rows, t.locks);
  }

  /** Without workers nothing is ever stamped. */
  lemma {:induction false} NoWorkersStampNothing(c: Config, s: State, es: seq<Event>)
    requires ValidConfig(c) && Init(s) && Run(c, s, es) && s.workers == []
    ensures Unstamped(Exec(c, s, es).rows) == Exec(c, s, es).rows.Keys
  {
    if es != [] {
      NoWorkersStampNothing(c, s, es[..|es| - 1]);
      WorkersStay(c, s, es[..|es| - 1]);
    }
  }

  /** A pool of no workers, which the command line accepts, has stopped before it began. */
  lemma ZeroWorkersStopAtOnce(c: Config, s: State)
    requires ValidConfig(c) && Init(s) && s.workers == []
    ensures Run(c, s, []) && AllExitedEmpty(Exec(c, s, [])) && Unstamped(Exec(c, s, []).rows) == s.rows.Keys
  {
    NoWorkersStampNothing(c, s, []);
  }

  lemma {:induction false} RowsKeepTheirIds(c: Config, s: State, es: seq<Event>)
    requires ValidConfig(c) && Run(c, s, es) && NoInserts(es)
    ensures Exec(c, s, es).rows.Keys == s.rows.Keys
  {
    if es != [] {
      var front := es[..|es| - 1];
      assert NoInserts(front) by { assert forall i :: 0 <= i < |front| ==> front[i] == es[i]; }
      RowsKeepTheirIds(c, s, front);
    }
  }

  /**
   Over every run with a fixed set of rows at whose end all workers have left on an empty claim: no row is
   left unstamped exactly if there was none to stamp, or there are workers and the batch size is not zero.
   */
  lemma CompleteExactlyWhen(c: Config, s: State, es: seq<Event>)
    requires ValidConfig(c) && Init(s) && Run(c, s, es) && NoInserts(es) && AllExitedEmpty(Exec(c, s, es))
    ensures Unstamped(Exec(c, s, es).rows) == {} <==>
        s.rows == map[] || (s.workers != [] && AsI64(c.rowsPerObject) != 0)
  {
    RowsKeepTheirIds(c, s, es);
    if s.workers == [] {
      NoWorkersStampNothing(c, s, es);
    } else if AsI64(c.rowsPerObject) == 0 {
      ZeroBatchStampsNothing(c, s, es);
    } else {
      NothingIsLeftBehind(c, s, es);
    }
    assert s.rows.Keys == {} <==> s.rows == map[];
  }

  /** With a batch size of zero, which the command line accepts, no run ever stamps a row. */
  lemma {:induction false} ZeroBatchStampsNothing(c: Config, s: State, es: seq<Event>)
    requires ValidConfig(c) && Init(s) && Run(c, s, es) && AsI64(c.rowsPerObject) == 0
    ensures Unstamped(Exec(c, s, es).rows) == Exec(c, s, es).rows.Keys
    ensures forall w :: 0 <= w < |Exec(c, s, es).workers| ==> !HoldsBatch(Exec(c, s, es).workers[w])
  {
    if es != [] {
      ZeroBatchStampsNothing(c, s, es[..|es| - 1]);
    }
  }

  /** Each of the first n workers begins and claims nothing. */
  function EmptyClaims(n: nat): seq<Event> {
    if n == 0 then [] else EmptyClaims(n - 1) + [Begin(n - 1)] + [ClaimBatch(n - 1, [])]
  }

  function FirstExited(workers: seq<Pc>, n: nat): seq<Pc>
    requires n <= |workers|
  {
    seq(n, i => ExitedEmpty) + workers[n..]
  }

  lemma NothingIsTaken(rows: map<RowId, Row>, avail: set<RowId>)
    ensures TakesFirst([], rows, avail, 0)
  {
  }

  lemma OneExits(c: Config, s: State, n: nat)
    requires ValidConfig(c) && AsI64(c.rowsPerObject) == 0 && !c.continuous && !s.shutdown
    requires s.locks == map[] && s.lost == {} && n < |s.workers| && s.workers[n].Looping?
    ensures Enabled(c, s, Begin(n)) && Enabled(c, Apply(c, s, Begin(n)), ClaimBatch(n, []))
    ensures Apply(c, Apply(c, s, Begin(n)), ClaimBatch(n, [])) == s.(workers := s.workers[n := ExitedEmpty])
  {
    NothingIsTaken(s.rows, Available(s.rows, s.locks));
    assert Ids([]) == {};
    assert s.workers[n := Querying][n := ExitedEmpty] == s.workers[n := ExitedEmpty];
    assert WithLocks(map[], {}, n) == map[];
    assert s.lost - {n} == s.lost;
  }

  lemma {:induction false} EmptyClaimsRun(c: Config, s: State, n: nat)
    requires ValidConfig(c) && Init(s) && AsI64(c.rowsPerObject) == 0 && !c.continuous && !s.shutdown &&
        n <= |s.workers|
    ensures Run(c, s, EmptyClaims(n)) && NoInserts(EmptyClaims(n))
    ensures Exec(c, s, EmptyClaims(n)) == s.(workers := FirstExited(s.workers, n))
  {
    hide Enabled, Apply;
    if n == 0 {
      assert FirstExited(s.workers, 0) == s.workers;
    } else {
      EmptyClaimsRun(c, s, n - 1);
      var t := s.(workers := FirstExited(s.workers, n - 1));
      OneExits(c, t, n - 1);
      RunOneMore(c, s, EmptyClaims(n - 1), Begin(n - 1));
      RunOneMore(c, s, EmptyClaims(n - 1) + [Begin(n - 1)], ClaimBatch(n - 1, []));
      assert FirstExited(s.workers, n - 1)[n - 1 := ExitedEmpty] == FirstExited(s.workers, n);
    }
  }

  /** ... and any number of workers then leave one after the other on their first claims, whatever the table holds. */
  lemma ZeroBatchExitsAtOnce(c: Config, s: State)
    requires ValidConfig(c) && Init(s) && AsI64(c.rowsPerObject) == 0 && !c.continuous && !s.shutdown
    ensures var es := EmptyClaims(|s.workers|);
            Run(c, s, es) && NoInserts(es) && AllExitedEmpty(Exec(c, s, es)) &&
                Unstamped(Exec(c, s, es).rows) == s.rows.Keys
  {
    EmptyClaimsRun(c, s, |s.workers|);
    ZeroBatchStampsNothing(c, s, EmptyClaims(|s.workers|));
  }

  // ----- Conservation

  function PendingCount(workers: seq<Pc>): nat {
    if workers == [] then 0
    else PendingCount(workers[..|workers| - 1]) + if workers[|workers| - 1].Done? then workers[|workers| - 1].count
        else 0
  }

  lemma {:induction false} PendingAfterMove(workers: seq<Pc>, w: nat, pc: Pc)
    requires w < |workers|
    ensures PendingCount(workers[w := pc]) == PendingCount(workers) - CountOf(workers[w]) + CountOf(pc)
  {
    var front := workers[..|workers| - 1];
    if w == |workers| - 1 {
      assert workers[w := pc][..|workers| - 1] == front;
    } else {
      PendingAfterMove(front, w, pc);
      assert workers[w := pc][..|workers| - 1] == front[w := pc];
    }
  }

  /** Every stamped row is accounted for: counted, about to be counted, or lost to an error after its commit. */
  lemma {:induction false} StampsAreAccountedFor(c: Config, s: State, es: seq<Event>)
    requires ValidConfig(c) && Init(s) && Run(c, s, es)
    ensures var t := Exec(c, s, es);
            |StampedIds(t.rows)| == t.migrated + PendingCount(t.workers) + t.uncounted
  {
    if es == [] {
      assert StampedIds(s.rows) == {};
      NothingPending(s.workers);
    } else {
      var front, e := es[..|es| - 1], es[|es| - 1];
      StampsAreAccountedFor(c, s, front);
      ReachableInv(c, s, front);
      AccountStep(c, Exec(c, s, front), e);
    }
  }

  lemma {:induction false} NothingPending(workers: seq<Pc>)
    requires forall w :: 0 <= w < |workers| ==> workers[w].Looping?
    ensures PendingCount(workers) == 0
  {
    if workers != [] { NothingPending(workers[..|workers| - 1]); }
  }

  lemma StampAdds(rows: map<RowId, Row>, batch: Batch, key: Key)
    requires DistinctIds(batch) && forall i :: 0 <= i < |batch| ==> batch[i].0 in rows && rows[batch[i].0].s3Key.None?
    ensures |StampedIds(Stamp(rows, Ids(batch), key))| == |StampedIds(rows)| + |batch|
  {
    DistinctCount(batch);
    assert StampedIds(Stamp(rows, Ids(batch), key)) == StampedIds(rows) + Ids(batch);
    assert StampedIds(rows) !! Ids(batch);
  }

  lemma StampedAfter(c: Config, t: State, e: Event)
    requires ValidConfig(c) && Inv(t) && Enabled(c, t, e)
    ensures |StampedIds(RowsAfter(t, e))| == |StampedIds(t.rows)| + if Stamps(t, e) then |t.workers[e.w].batch| else 0
  {
    hide Stamp, TakesFirst, RowOk, LocksOk, DistinctIds;
    if Stamps(t, e) {
      assert BatchOk(t, e.w);
      StampAdds(t.rows, t.workers[e.w].batch, t.workers[e.w].key);
    } else if e.Insert? {
      assert StampedIds(RowsAfter(t, e)) == StampedIds(t.rows);
    }
  }

  lemma PendingAfter(c: Config, t: State, e: Event)
    requires ValidConfig(c) && Enabled(c, t, e) && HasWorker(e)
    ensures PendingCount(WorkersAfter(c, t, e)) ==
            PendingCount(t.workers) - CountOf(t.workers[e.w]) + CountOf(NextPc(c, t.workers[e.w], e))
  {
    PendingAfterMove(t.workers, e.w, NextPc(c, t.workers[e.w], e));
  }

  lemma OthersKeepWorkers(c: Config, t: State, e: Event)
    requires !HasWorker(e)
    ensures WorkersAfter(c, t, e) == t.workers
  {
  }

  lemma AccountStep(c: Config, t: State, e: Event)
    requires ValidConfig(c) && Inv(t) && Enabled(c, t, e)
    requires |StampedIds(t.rows)| == t.migrated + PendingCount(t.workers) + t.uncounted
    ensures var u := Apply(c, t, e); |StampedIds(u.rows)| == u.migrated + PendingCount(u.workers) + u.uncounted
  {
    hide TakesFirst, BatchOk, RowOk, LocksAfter, ObjectsAfter, RowsAfter, ErrorsAfter, WorkersAfter, Inv;
    StampedAfter(c, t, e);
    if HasWorker(e) {
      PendingAfter(c, t, e);
    } else {
      OthersKeepWorkers(c, t, e);
    }
  }

  // ----- When the counter is exact

  /** A commit that took effect is reported as failed, or its worker crashes before it counts the rows. */
  predicate Loses(s: State, e: Event) {
    (Stamps(s, e) && !e.ok) || (e.Crash? && e.w < |s.workers| && s.workers[e.w].Done?)
  }

  /** No worker ever holds an empty batch or is about to count zero rows. */
  predicate NothingEmpty(workers: seq<Pc>) {
    forall w :: 0 <= w < |workers| ==>
        (HoldsBatch(workers[w]) ==> workers[w].batch != []) && (workers[w].Done? ==> workers[w].count > 0)
  }

  lemma {:induction false} NeverEmpty(c: Config, s: State, es: seq<Event>)
    requires ValidConfig(c) && Init(s) && Run(c, s, es)
    ensures NothingEmpty(Exec(c, s, es).workers)
  {
    hide TakesFirst, RowsAfter, LocksAfter, ObjectsAfter, UncountedAfter, MigratedAfter;
    if es != [] {
      NeverEmpty(c, s, es[..|es| - 1]);
    }
  }

  predicate LosesAt(c: Config, s: State, es: seq<Event>, i: nat)
    requires i < |es|
  {
    Loses(Exec(c, s, es[..i]), es[i])
  }

  predicate NeverLoses(c: Config, s: State, es: seq<Event>) { forall i :: 0 <= i < |es| ==> !LosesAt(c, s, es, i) }

  lemma NeverLosesStep(c: Config, s: State, es: seq<Event>)
    requires es != []
    ensures var n := |es| - 1; NeverLoses(c, s, es) <==> NeverLoses(c, s, es[..n]) && !LosesAt(c, s, es, n)
  {
    hide Loses, Exec;
    var n, front := |es| - 1, es[..|es| - 1];
    forall i | 0 <= i < n
      ensures LosesAt(c, s, front, i) == LosesAt(c, s, es, i)
    {
      assert front[..i] == es[..i];
    }
  }

  lemma {:induction false} UncountedExactlyWhenLost(c: Config, s: State, es: seq<Event>)
    requires ValidConfig(c) && Init(s) && Run(c, s, es)
    ensures Exec(c, s, es).uncounted == 0 <==> NeverLoses(c, s, es)
  {
    hide TakesFirst, RowsAfter, LocksAfter, ObjectsAfter, MigratedAfter, WorkersAfter, Init, NeverLoses;
    if es == [] {
      NoEventNoLoss(c, s);
    } else {
      UncountedExactlyWhenLost(c, s, es[..|es| - 1]);
      NeverEmpty(c, s, es[..|es| - 1]);
      NeverLosesStep(c, s, es);
    }
  }

  lemma NoEventNoLoss(c: Config, s: State)
    ensures Init(s) ==> s.uncounted == 0
    ensures NeverLoses(c, s, [])
  {
  }

  predicate NobodyPending(workers: seq<Pc>) { forall w :: 0 <= w < |workers| ==> !workers[w].Done? }

  lemma {:induction false} PendingMeansDone(workers: seq<Pc>)
    requires NothingEmpty(workers)
    ensures PendingCount(workers) == 0 <==> NobodyPending(workers)
  {
    if workers != [] {
      PendingMeansDone(workers[..|workers| - 1]);
    }
  }

  /**
   The counter equals the number of stamped rows exactly if no worker is between commit and count, no commit
   that took effect was reported as failed, and no worker crashed between commit and count.
   */
  lemma CounterIsExactUnlessLost(c: Config, s: State, es: seq<Event>)
    requires ValidConfig(c) && Init(s) && Run(c, s, es)
    ensures var t := Exec(c, s, es);
            && t.migrated <= |StampedIds(t.rows)|
            && (t.migrated == |StampedIds(t.rows)| <==> NobodyPending(t.workers) && NeverLoses(c, s, es))
  {
    hide NeverLoses, NothingEmpty, NobodyPending;
    StampsAreAccountedFor(c, s, es);
    UncountedExactlyWhenLost(c, s, es);
    NeverEmpty(c, s, es);
    PendingMeansDone(Exec(c, s, es).workers);
  }

  /** The first batch of the only worker up to its upload. */
  lemma UploadsTheRow(c: Config, s: State, r: RowId, payload: string, key: Key)
    requires c.rowsPerObject == 1 && Init(s) && s.rows == map[r := Row(payload, None)] && s.workers == [Looping] &&
        !s.shutdown
    ensures var batch := [(r, payload)]; var es := [Begin(0), ClaimBatch(0, batch), Put(0, key, true, true)];
            && Run(c, s, es)
            && Exec(c, s, es) == s.(workers := [Uploaded(batch, key)], locks := map[r := 0],
                                    objects := map[key := batch])
  {
    hide Run, Exec, TakesFirst;
    var batch := [(r, payload)];
    var none: seq<Event> := [];
    NoEvents(c, s);
    ClaimsTheRow(c, s, 0, r, payload);
    RunOneMore(c, s, none, Begin(0));
    RunOneMore(c, s, none + [Begin(0)], ClaimBatch(0, batch));
    var two := none + [Begin(0)] + [ClaimBatch(0, batch)];
    var t := Exec(c, s, two);
    assert t.lost == {} && t.workers == [Holding(batch)];
    RunOneMore(c, s, two, Put(0, key, true, true));
    assert two + [Put(0, key, true, true)] == [Begin(0), ClaimBatch(0, batch), Put(0, key, true, true)];
  }

  lemma NoEvents(c: Config, s: State)
    requires ValidConfig(c)
    ensures Run(c, s, []) && Exec(c, s, []) == s
  {
  }

  lemma StampsTheRow(s: State, r: RowId, payload: string, key: Key, ok: bool)
    requires s.rows == map[r := Row(payload, None)] && s.workers == [Uploaded([(r, payload)], key)]
    ensures |StampedIds(RowsAfter(s, Commit(0, true, ok)))| == 1
  {
    var batch := [(r, payload)];
    assert batch[0].0 == r;
    assert Ids(batch) == {r};
    assert StampedIds(RowsAfter(s, Commit(0, true, ok))) == {r};
  }

  /** A commit that takes effect but is reported as failed: one row stamped, none counted, one error. */
  lemma FailedReportIsNotCounted(c: Config, s: State, r: RowId, payload: string, key: Key)
    requires c.rowsPerObject == 1 && Init(s) && s.rows == map[r := Row(payload, None)] && s.workers == [Looping] &&
        !s.shutdown
    ensures var es := [Begin(0), ClaimBatch(0, [(r, payload)]), Put(0, key, true, true)] + [Commit(0, true, false)]
        + [Count(0)];
            && Run(c, s, es) && NobodyPending(Exec(c, s, es).workers)
            && Exec(c, s, es).migrated == 0 && Exec(c, s, es).errors == 1 && |StampedIds(Exec(c, s, es).rows)| == 1
  {
    hide Run, Exec, TakesFirst, Stamp, StampedIds;
    var es := [Begin(0), ClaimBatch(0, [(r, payload)]), Put(0, key, true, true)];
    UploadsTheRow(c, s, r, payload, key);
    StampsTheRow(Exec(c, s, es), r, payload, key, false);
    RunOneMore(c, s, es, Commit(0, true, false));
    RunOneMore(c, s, es + [Commit(0, true, false)], Count(0));
  }

  /** A worker that crashes between commit and count: one row stamped, none counted. */
  lemma CrashBeforeCountIsNotCounted(c: Config, s: State, r: RowId, payload: string, key: Key)
    requires c.rowsPerObject == 1 && Init(s) && s.rows == map[r := Row(payload, None)] && s.workers == [Looping] &&
        !s.shutdown
    ensures var es := [Begin(0), ClaimBatch(0, [(r, payload)]), Put(0, key, true, true)] + [Commit(0, true, true)]
        + [Crash(0)];
            && Run(c, s, es) && NobodyPending(Exec(c, s, es).workers)
            && Exec(c, s, es).migrated == 0 && Exec(c, s, es).errors == 0 && |StampedIds(Exec(c, s, es).rows)| == 1
  {
    hide Run, Exec, TakesFirst, Stamp, StampedIds;
    var es := [Begin(0), ClaimBatch(0, [(r, payload)]), Put(0, key, true, true)];
    UploadsTheRow(c, s, r, payload, key);
    StampsTheRow(Exec(c, s, es), r, payload, key, true);
    RunOneMore(c, s, es, Commit(0, true, true));
    RunOneMore(c, s, es + [Commit(0, true, true)], Crash(0));
  }
}
