/**
 The payload offloader: workers that claim unstamped rows with SKIP LOCKED, upload
 them as one NDJSON object, and only then blank the payloads and commit.

 The upload happens inside the transaction, so row locks are part of the state,
 and a worker can fail or die between any two steps.
 */
module Offloader {
  import opened Common

  const TWO_64: int := 0x1_0000_0000_0000_0000
  const TWO_128: int := 0x1_0000_0000_0000_0000_0000_0000_0000_0000

  type RowId = n: nat | n < TWO_128
  type Key = nat

  /** A row of raw_crawl_items: the JSON text of its payload and its object key, once stamped. */
  datatype Row = Row(payload: string, s3Key: Option<Key>)

  type Batch = seq<(RowId, string)>

  // ----- The batch object

  function HexDigit(d: nat): char
    requires d < 16
  {
    "0123456789abcdef"[d]
  }

  lemma HexDigitInjective(a: nat, b: nat)
    requires a < 16 && b < 16 && HexDigit(a) == HexDigit(b)
    ensures a == b
  {
    var digits := "0123456789abcdef";
    assert forall i, j :: 0 <= i < j < 16 ==> digits[i] != digits[j];
  }

  function Hex(n: nat, width: nat): (r: string)
    ensures |r| == width
    ensures OneLine(r)
  {
    if width == 0 then [] else Hex(n / 16, width - 1) + [HexDigit(n % 16)]
  }

  function Pow16(k: nat): nat { if k == 0 then 1 else 16 * Pow16(k - 1) }

  lemma {:induction false} HexInjective(a: nat, b: nat, width: nat)
    requires a < Pow16(width) && b < Pow16(width) && Hex(a, width) == Hex(b, width)
    ensures a == b
  {
    if width > 0 {
      var x, y := Hex(a, width), Hex(b, width);
      assert x[..width - 1] == Hex(a / 16, width - 1) && y[..width - 1] == Hex(b / 16, width - 1);
      assert x[width - 1] == HexDigit(a % 16) && y[width - 1] == HexDigit(b % 16);
      HexInjective(a / 16, b / 16, width - 1);
      HexDigitInjective(a % 16, b % 16);
    }
  }

  /** The number that a digit stands for, in the hexadecimal notation with small letters. */
  predicate DigitFor(c: char, n: int) {
    || ('0' <= c <= '9' && n == c as int - '0' as int)
    || ('a' <= c <= 'f' && n == c as int - 'a' as int + 10)
  }

  predicate ReadsAs(s: string, n: int) {
    if s == [] then n == 0
    else n >= 0 && DigitFor(s[|s| - 1], n % 16) && ReadsAs(s[..|s| - 1], n / 16)
  }

  lemma DigitReads(n: nat)
    requires n < 16
    ensures DigitFor(HexDigit(n), n)
  {
    assert "0123456789abcdef"[..10] == "0123456789" && "0123456789abcdef"[10..] == "abcdef";
  }

  lemma {:induction false} HexReads(n: nat, width: nat)
    requires n < Pow16(width)
    ensures ReadsAs(Hex(n, width), n)
  {
    if width > 0 {
      var r := Hex(n, width);
      assert r[..|r| - 1] == Hex(n / 16, width - 1) && r[|r| - 1] == HexDigit(n % 16);
      DigitReads(n % 16);
      HexReads(n / 16, width - 1);
    }
  }

  /** The hyphenated text of a UUID. */
  function IdText(id: RowId): (r: string)
    ensures |r| == 36
    ensures OneLine(r)
  {
    Hyphenated(Hex(id, 32))
  }

  function Hyphenated(d: string): (r: string)
    requires |d| == 32 && OneLine(d)
    ensures |r| == 36 && OneLine(r)
  {
    d[..8] + ("-" + d[8..12]) + ("-" + d[12..16]) + ("-" + d[16..20]) + ("-" + d[20..])
  }

  lemma HyphensAreRemovable(d: string)
    requires |d| == 32 && OneLine(d)
    ensures var t := Hyphenated(d); d == t[..8] + t[9..13] + t[14..18] + t[19..23] + t[24..]
  {
    var t := Hyphenated(d);
    var a, b, c, e := t[9..13], t[14..18], t[19..23], t[24..];
    assert a == d[8..12];
    assert b == d[12..16];
    assert c == d[16..20];
    assert e == d[20..];
  }

  /** The text of an id is its 32 hexadecimal digits with hyphens after the 8th, 12th, 16th and 20th. */
  lemma IdTextReadsAsId(id: RowId)
    ensures var t := IdText(id);
            && t[8] == t[13] == t[18] == t[23] == '-'
            && ReadsAs(t[..8] + t[9..13] + t[14..18] + t[19..23] + t[24..], id)
  {
    HyphensAreRemovable(Hex(id, 32));
    SixteenToThe32();
    HexReads(id, 32);
  }

  lemma IdTextInjective(a: RowId, b: RowId)
    requires IdText(a) == IdText(b)
    ensures a == b
  {
    HyphensAreRemovable(Hex(a, 32));
    HyphensAreRemovable(Hex(b, 32));
    SixteenToThe32();
    HexInjective(a, b, 32);
  }

  lemma SixteenToThe32()
    ensures Pow16(32) == TWO_128
  {
    assert Pow16(8) == 0x1_0000_0000;
    assert Pow16(16) == 0x1_0000_0000 * 0x1_0000_0000 by { Pow16Sum(8, 8); }
    Pow16Sum(16, 16);
  }

  lemma {:induction false} Pow16Sum(a: nat, b: nat)
    ensures Pow16(a + b) == Pow16(a) * Pow16(b)
  {
    if a > 0 { Pow16Sum(a - 1, b); }
  }

  function LineHead(id: RowId): string { "{\"id\":\"" + IdText(id) + "\",\"payload\":" }

  /** One line of the object, without its line feed. */
  function Line(id: RowId, payload: string): string { LineHead(id) + payload + "}" }

  function Lines(batch: Batch): (r: seq<string>)
    ensures |r| == |batch|
  {
    seq(|batch|, i requires 0 <= i < |batch| => Line(batch[i].0, batch[i].1))
  }

  /** Newline-delimited text. */
  function JoinLines(lines: seq<string>): string {
    if lines == [] then [] else JoinLines(lines[..|lines| - 1]) + (lines[|lines| - 1] + "\n")
  }

  function Encode(batch: Batch): string { JoinLines(Lines(batch)) }

  /** jsonb prints a document on one line. */
  predicate OneLine(text: string) { forall i :: 0 <= i < |text| ==> text[i] != '\n' }

  function FirstNewline(text: string): (r: nat)
    ensures r <= |text|
    ensures r < |text| ==> text[r] == '\n'
    ensures forall i :: 0 <= i < r ==> text[i] != '\n'
  {
    if text == [] || text[0] == '\n' then 0 else FirstNewline(text[1..]) + 1
  }

  /** Recovery of one row: search the object for the line that starts with the row's id. */
  function Recover(text: string, id: RowId): Option<string>
    decreases |text|
  {
    if text == [] then None
    else
      var n := FirstNewline(text);
      var line, head := text[..n], "{\"id\":\"" + IdText(id) + "\",\"payload\":";
      if head <= line && |line| > |head| && line[|line| - 1] == '}' then Some(line[|head|..|line| - 1])
      else if n < |text| then Recover(text[n + 1..], id)
      else None
  }

  predicate DistinctIds(batch: Batch) {
    forall i, j :: 0 <= i < j < |batch| ==> batch[i].0 != batch[j].0
  }

  lemma FirstNewlineOfLine(line: string, rest: string)
    requires OneLine(line)
    ensures FirstNewline(line + "\n" + rest) == |line|
  {
    var text := line + "\n" + rest;
    assert text[|line|] == '\n';
    assert forall i :: 0 <= i < |line| ==> text[i] == line[i];
  }

  lemma {:induction false} RecoverSkips(lines: seq<string>, rest: string, id: RowId)
    requires forall i :: 0 <= i < |lines| ==> OneLine(lines[i]) && !(LineHead(id) <= lines[i])
    ensures Recover(JoinLines(lines) + rest, id) == Recover(rest, id)
    decreases |lines|
  {
    if lines == [] {
      assert JoinLines(lines) + rest == rest;
    } else {
      var front, line := lines[..|lines| - 1], lines[|lines| - 1];
      var tail := line + "\n" + rest;
      assert JoinLines(lines) + rest == JoinLines(front) + tail;
      RecoverSkips(front, tail, id);
      FirstNewlineOfLine(line, rest);
      assert tail[..|line|] == line && tail[|line| + 1..] == rest;
    }
  }

  lemma HeadDecides(id: RowId, other: RowId, payload: string)
    requires LineHead(id) <= Line(other, payload)
    ensures id == other
  {
    var a, b := LineHead(id), LineHead(other);
    assert |a| == |b|;
    assert Line(other, payload)[..|b|] == b;
    assert a == b;
    assert a[7..43] == IdText(id) && b[7..43] == IdText(other);
    IdTextInjective(id, other);
  }

  lemma RecoverFirst(id: RowId, payload: string, rest: string)
    requires OneLine(payload)
    ensures Recover(Line(id, payload) + "\n" + rest, id) == Some(payload)
  {
    var line, head := Line(id, payload), LineHead(id);
    var text := line + "\n" + rest;
    FirstNewlineOfLine(line, rest);
    assert text[..|line|] == line;
    assert line[|head|..|line| - 1] == payload;
    assert head <= line && |line| > |head|;
  }

  /** Every payload of a batch can be read back from its object by the row's id. */
  lemma RecoverEncoded(batch: Batch, k: nat)
    requires k < |batch| && DistinctIds(batch)
    requires forall i :: 0 <= i < |batch| ==> OneLine(batch[i].1)
    ensures Recover(Encode(batch), batch[k].0) == Some(batch[k].1)
  {
    var (id, payload) := batch[k];
    var lines := Lines(batch);
    JoinSplit(lines, k);
    var rest := JoinLines(lines[k + 1..]);
    forall i | 0 <= i < k
      ensures OneLine(lines[..k][i]) && !(LineHead(id) <= lines[..k][i])
    {
      if LineHead(id) <= Line(batch[i].0, batch[i].1) {
        HeadDecides(id, batch[i].0, batch[i].1);
      }
    }
    RecoverSkips(lines[..k], lines[k] + "\n" + rest, id);
    RecoverFirst(id, payload, rest);
  }

  lemma {:induction false} JoinSplit(lines: seq<string>, k: nat)
    requires k < |lines|
    ensures JoinLines(lines) == JoinLines(lines[..k]) + (lines[k] + "\n" + JoinLines(lines[k + 1..]))
  {
    if k == |lines| - 1 {
      assert lines[k + 1..] == [];
    } else {
      var front := lines[..|lines| - 1];
      JoinSplit(front, k);
      assert front[..k] == lines[..k] && front[k] == lines[k];
      var tail := lines[k + 1..];
      assert tail[..|tail| - 1] == front[k + 1..];
    }
  }

  // ----- The claim query

  /** usize as i64. */
  function AsI64(n: nat): int
    requires n < TWO_64
  {
    if n < TWO_64 / 2 then n else n - TWO_64
  }

  /** From two to the 63rd on a size wraps around to a negative number. */
  lemma LargeSizesWrap(n: nat)
    requires n < TWO_64
    ensures n <= 9_223_372_036_854_775_807 ==> AsI64(n) == n
    ensures n > 9_223_372_036_854_775_807 ==> AsI64(n) == n - 18_446_744_073_709_551_616 < 0
  {
  }

  function Unstamped(rows: map<RowId, Row>): set<RowId> {
    set r | r in rows && rows[r].s3Key.None?
  }

  type Locks = map<RowId, nat>

  function Available(rows: map<RowId, Row>, locks: Locks): set<RowId> {
    set r | r in rows && rows[r].s3Key.None? && r !in locks
  }

  function Ids(batch: Batch): set<RowId> { set i | 0 <= i < |batch| :: batch[i].0 }

  lemma IdsAppend(batch: Batch, id: RowId, payload: string)
    ensures Ids(batch + [(id, payload)]) == Ids(batch) + {id}
  {
    var longer := batch + [(id, payload)];
    assert longer[|batch|].0 == id;
    assert forall i :: 0 <= i < |batch| ==> longer[i] == batch[i];
  }

  lemma NoIds()
    ensures Ids([]) == {}
  {
  }

  lemma AvailableRows(rows: map<RowId, Row>, locks: Locks)
    ensures Available(rows, locks) <= rows.Keys
  {
  }

  /** ORDER BY id LIMIT n over the available rows, with their payloads. */
  predicate TakesFirst(batch: Batch, rows: map<RowId, Row>, avail: set<RowId>, limit: nat) {
    && |batch| <= limit
    && (forall i :: 0 <= i < |batch| ==>
        batch[i].0 in avail && batch[i].0 in rows && batch[i].1 == rows[batch[i].0].payload)
    && (forall i, j :: 0 <= i < j < |batch| ==> batch[i].0 < batch[j].0)
    && (forall i, r :: 0 <= i < |batch| && r in avail && r !in Ids(batch) ==> batch[i].0 < r)
    && (|batch| < limit ==> avail == Ids(batch))
  }

  function Smaller(avail: set<RowId>, r: RowId): set<RowId> { set k | k in avail && k < r }

  lemma {:induction false} AscendingIds(batch: Batch)
    requires forall i, j :: 0 <= i < j < |batch| ==> batch[i].0 < batch[j].0
    ensures |Ids(batch)| == |batch|
  {
    if batch == [] {
      NoIds();
    } else {
      var front, last := batch[..|batch| - 1], batch[|batch| - 1];
      AscendingIds(front);
      IdsAppend(front, last.0, last.1);
      assert batch == front + [last];
    }
  }

  lemma {:induction false} FewerIds(a: set<RowId>, b: set<RowId>)
    requires a <= b
    ensures |a| <= |b|
  {
    if a != {} {
      var x :| x in a;
      FewerIds(a - {x}, b - {x});
    }
  }

  lemma IdsOfFront(batch: Batch, i: nat, r: RowId)
    requires i <= |batch|
    ensures r in Ids(batch[..i]) <==> exists j :: 0 <= j < i && batch[j].0 == r
  {
    assert forall j :: 0 <= j < i ==> batch[..i][j] == batch[j];
  }

  lemma SmallerRow(batch: Batch, rows: map<RowId, Row>, avail: set<RowId>, limit: nat, i: nat, r: RowId)
    requires TakesFirst(batch, rows, avail, limit) && i < |batch|
    ensures r in Smaller(avail, batch[i].0) <==> exists j :: 0 <= j < i && batch[j].0 == r
  {
    if r in Smaller(avail, batch[i].0) {
      assert r in Ids(batch);
    }
  }

  lemma SmallerAre(batch: Batch, rows: map<RowId, Row>, avail: set<RowId>, limit: nat, i: nat)
    requires TakesFirst(batch, rows, avail, limit) && i < |batch|
    ensures |Smaller(avail, batch[i].0)| == i
  {
    AscendingIds(batch[..i]);
    hide TakesFirst, Ids, Smaller;
    forall r
      ensures r in Smaller(avail, batch[i].0) <==> r in Ids(batch[..i])
    {
      IdsOfFront(batch, i, r);
      SmallerRow(batch, rows, avail, limit, i, r);
    }
    assert Smaller(avail, batch[i].0) == Ids(batch[..i]);
  }

  /** A claim takes an available row exactly if fewer than its limit have a smaller id, and puts it behind those. */
  lemma TakenExactlyWhen(batch: Batch, rows: map<RowId, Row>, avail: set<RowId>, limit: nat, r: RowId)
    requires TakesFirst(batch, rows, avail, limit) && r in avail
    ensures r in Ids(batch) <==> |Smaller(avail, r)| < limit
    ensures r in Ids(batch) ==>
              var n := |Smaller(avail, r)|; n < |batch| && r in rows && batch[n] == (r, rows[r].payload)
  {
    if r in Ids(batch) {
      hide Smaller;
      var i :| 0 <= i < |batch| && batch[i].0 == r;
      SmallerAre(batch, rows, avail, limit, i);
    } else {
      AscendingIds(batch);
      FewerIds(Ids(batch), Smaller(avail, r));
    }
  }

  function Stamp(rows: map<RowId, Row>, ids: set<RowId>, key: Key): map<RowId, Row> {
    map r | r in rows :: if r in ids then Row("{}", Some(key)) else rows[r]
  }

  function Without(locks: Locks, worker: nat): Locks {
    map r | r in locks && locks[r] != worker :: locks[r]
  }

  function WithLocks(locks: Locks, ids: set<RowId>, worker: nat): Locks {
    map r | r in locks.Keys + ids :: if r in ids then worker else locks[r]
  }

  // ----- The code of one batch

  /** What can go wrong in one batch; the last two leave the caller unsure. */
  datatype Fault = NoFault | QueryFails | PutFails | PutStoredButFails | UpdateFails | CommitFails | CommittedButFails

  /** One turn of a worker's loop: whether the shutdown flag is up, a fresh object key, and what goes wrong. */
  datatype Turn = Turn(shutdown: bool, key: Key, fault: Fault)

  datatype Exit = OnEmptyClaim | OnShutdown | StillRunning

  datatype BatchError = BeginOrClaim | Upload | Persist

  class Store {
    var rows: map<RowId, Row>
    var locks: Locks
    var objects: map<Key, string>

    constructor (rows: map<RowId, Row>)
      ensures this.rows == rows && locks == map[] && objects == map[]
    {
      this.rows := rows;
      locks := map[];
      objects := map[];
    }

    method ClaimRows(worker: nat, limit: nat) returns (batch: Batch)
      modifies this`locks
      ensures TakesFirst(batch, rows, Available(rows, old(locks)), limit)
      ensures locks == WithLocks(old(locks), Ids(batch), worker)
    {
      hide Ids, Available, WithLocks;
      ghost var before := locks;
      NoIds();
      var avail := Available(rows, locks);
      AvailableRows(rows, locks);
      var todo := avail;
      batch := [];
      while |batch| < limit && todo != {}
        invariant |batch| <= limit && locks == before
        invariant todo == avail - Ids(batch) && Ids(batch) <= avail
        invariant forall i :: 0 <= i < |batch| ==>
            batch[i].0 in avail && batch[i].0 in rows && batch[i].1 == rows[batch[i].0].payload
        invariant forall i, j :: 0 <= i < j < |batch| ==> batch[i].0 < batch[j].0
        invariant forall i, r :: 0 <= i < |batch| && r in todo ==> batch[i].0 < r
        decreases todo
      {
        var r := Least(todo);
        IdsAppend(batch, r, rows[r].payload);
        batch := batch + [(r, rows[r].payload)];
        todo := todo - {r};
      }
      assert forall r :: r in avail && r !in Ids(batch) ==> r in todo;
      assert todo == {} ==> avail == Ids(batch);
      locks := WithLocks(locks, Ids(batch), worker);
    }

    method StampRows(batch: Batch, key: Key)
      modifies this`rows
      ensures rows == Stamp(old(rows), Ids(batch), key) && rows.Keys == old(rows).Keys
      ensures forall r :: r in rows ==> rows[r] == if r in Ids(batch) then Row("{}", Some(key)) else old(rows)[r]
    {
      var ids := Ids(batch);
      rows := map x | x in rows :: if x in ids then rows[x].(payload := "{}", s3Key := Some(key)) else rows[x];
    }

    /** Ending the transaction, either way, gives up the locks that `ClaimRows` took. */
    method EndTransaction(batch: Batch, worker: nat, ghost before: Locks)
      requires worker !in before.Values && Ids(batch) !! before.Keys
      requires locks == WithLocks(before, Ids(batch), worker)
      modifies this`locks
      ensures locks == before
    {
      ReleaseRestores(before, Ids(batch), worker);
      locks := Without(locks, worker);
    }

    /** One batch: claim, upload, stamp, commit; on any error the transaction rolls back. */
    method OffloadOneBatch(worker: nat, rowsPerObject: nat, key: Key, fault: Fault)
      returns (r: Result<nat, BatchError>, ghost batch: Batch)
      requires rowsPerObject < TWO_64 && key !in objects
      requires worker !in locks.Values
      modifies this
      ensures locks == old(locks)
      ensures rowsPerObject > 9_223_372_036_854_775_807 || fault.QueryFails? ==> r == Err(BeginOrClaim) && batch == []
      ensures AsI64(rowsPerObject) >= 0 && !fault.QueryFails? ==>
                TakesFirst(batch, old(rows), Available(old(rows), old(locks)), AsI64(rowsPerObject))
      ensures batch == [] ==> rows == old(rows) && objects == old(objects)
      ensures batch == [] && AsI64(rowsPerObject) >= 0 && !fault.QueryFails? ==> r == Ok(0)
      ensures batch != [] ==> (r.Ok? <==> fault.NoFault?) && (r.Ok? ==> r.value == |batch|)
      ensures batch != [] ==> objects == if fault.PutFails? then old(objects) else old(objects)[key := Encode(batch)]
      ensures batch != [] ==>
                rows == if fault.NoFault? || fault.CommittedButFails? then Stamp(old(rows), Ids(batch), key)
                    else old(rows)
      ensures r.Ok? ==> forall i :: 0 <= i < |batch| ==>
                          batch[i].0 in rows && rows[batch[i].0] == Row("{}", Some(key))
    {
      batch := [];
      var limit := if rowsPerObject < TWO_64 / 2 then rowsPerObject as int else rowsPerObject - TWO_64;
      if fault.QueryFails? || limit < 0 {
        return Err(BeginOrClaim), batch;
      }
      ghost var before := locks;
      var claimed := ClaimRows(worker, limit);
      batch := claimed;
      assert Ids(claimed) !! before.Keys;
      if claimed == [] {
        EndTransaction(claimed, worker, before);
        return Ok(0), batch;
      }
      var body := BuildObject(claimed);
      if !fault.PutFails? {
        objects := objects[key := body];
      }
      if fault.PutFails? || fault.PutStoredButFails? {
        EndTransaction(claimed, worker, before);
        return Err(Upload), batch;
      }
      var saved := rows;
      StampRows(claimed, key);
      if fault.UpdateFails? || fault.CommitFails? {
        rows := saved;
      }
      EndTransaction(claimed, worker, before);
      if fault.NoFault? {
        return Ok(|claimed|), batch;
      }
      return Err(Persist), batch;
    }

    /**
     A worker's loop, cut off after the given turns.  `migrated` and `errors` are what it adds to the
     shared counters; `unseen` are the turns whose rows were stamped by a commit that was reported as failed.
     */
    method RunWorker(worker: nat, rowsPerObject: nat, continuous: bool, turns: seq<Turn>)
      returns (exit: Exit, migrated: nat, errors: nat, ghost unseen: set<nat>)
      requires rowsPerObject < TWO_64 && worker !in locks.Values
      requires forall i :: 0 <= i < |turns| ==> turns[i].key !in objects
      requires forall i, j :: 0 <= i < j < |turns| ==> turns[i].key != turns[j].key
      modifies this
      ensures locks == old(locks) && rows.Keys == old(rows).Keys
      ensures exit.OnEmptyClaim? && AsI64(rowsPerObject) > 0 ==> Available(rows, locks) == {}
      ensures exit.OnEmptyClaim? && AsI64(rowsPerObject) > 0 && locks == map[] ==> Unstamped(rows) == {}
      ensures exit.OnEmptyClaim? ==> !continuous
      ensures migrated + |StampedIds(old(rows))| <= |StampedIds(rows)|
      ensures migrated + |StampedIds(old(rows))| == |StampedIds(rows)| <==> unseen == {}
      ensures forall i :: i in unseen ==> i < |turns| && turns[i].fault.CommittedButFails?
    {
      migrated, errors, unseen := 0, 0, {};
      var i := 0;
      while i < |turns|
        invariant 0 <= i <= |turns|
        invariant locks == old(locks) && rows.Keys == old(rows).Keys
        invariant forall j :: i <= j < |turns| ==> turns[j].key !in objects
        invariant migrated + |StampedIds(old(rows))| <= |StampedIds(rows)|
        invariant migrated + |StampedIds(old(rows))| == |StampedIds(rows)| <==> unseen == {}
        invariant forall j :: j in unseen ==> j < i && turns[j].fault.CommittedButFails?
      {
        if turns[i].shutdown {
          return OnShutdown, migrated, errors, unseen;
        }
        ghost var before := rows;
        var r, batch := OffloadOneBatch(worker, rowsPerObject, turns[i].key, turns[i].fault);
        if batch != [] {
          StampedGrowth(before, batch, Available(before, locks), AsI64(rowsPerObject), turns[i].key);
          if turns[i].fault.CommittedButFails? {
            unseen := unseen + {i};
          }
        }
        i := i + 1;
        match r {
          case Ok(n) =>
            if n == 0 {
              if !continuous {
                assert Ids(batch) == {};
                assert forall x :: x in Unstamped(rows) && x !in locks ==> x in Available(rows, locks);
                return OnEmptyClaim, migrated, errors, unseen;
              }
            } else {
              migrated := migrated + n;
            }
          case Err(_) =>
            errors := errors + 1;
        }
      }
      return StillRunning, migrated, errors, unseen;
    }
  }

  lemma {:induction false} DistinctCount(batch: Batch)
    requires DistinctIds(batch)
    ensures |Ids(batch)| == |batch|
  {
    if batch == [] {
      assert Ids(batch) == {};
    } else {
      var front := batch[..|batch| - 1];
      DistinctCount(front);
      assert Ids(batch) == Ids(front) + {batch[|batch| - 1].0} by {
        forall r | r in Ids(batch)
          ensures r in Ids(front) + {batch[|batch| - 1].0}
        {
          var i :| 0 <= i < |batch| && batch[i].0 == r;
          if i < |front| { assert front[i].0 == r; }
        }
        forall r | r in Ids(front)
          ensures r in Ids(batch)
        {
          var i :| 0 <= i < |front| && front[i].0 == r;
          assert batch[i].0 == r;
        }
      }
      assert forall i :: 0 <= i < |front| ==> front[i].0 != batch[|batch| - 1].0;
    }
  }

  function StampedIds(rows: map<RowId, Row>): set<RowId> { set r | r in rows && rows[r].s3Key.Some? }

  lemma StampedGrowth(rows: map<RowId, Row>, batch: Batch, avail: set<RowId>, limit: nat, key: Key)
    requires TakesFirst(batch, rows, avail, limit) && avail <= Unstamped(rows)
    ensures |StampedIds(Stamp(rows, Ids(batch), key))| == |StampedIds(rows)| + |batch|
  {
    DistinctCount(batch);
    assert StampedIds(Stamp(rows, Ids(batch), key)) == StampedIds(rows) + Ids(batch);
    assert StampedIds(rows) !! Ids(batch);
  }

  /** Rolling back gives up exactly the locks that the claim took. */
  lemma ReleaseRestores(locks: Locks, ids: set<RowId>, worker: nat)
    requires worker !in locks.Values && ids !! locks.Keys
    ensures Without(WithLocks(locks, ids, worker), worker) == locks
  {
    assert forall x :: x in locks ==> locks[x] in locks.Values;
  }

  /** The NDJSON body: one line for each row, in order. */
  method BuildObject(batch: Batch) returns (body: string)
    ensures body == Encode(batch)
  {
    body := "";
    for i := 0 to |batch|
      invariant body == Encode(batch[..i])
    {
      var (id, payload) := batch[i];
      assert Lines(batch[..i + 1])[..i] == Lines(batch[..i]);
      assert Lines(batch[..i + 1])[i] == Line(id, payload);
      body := body + ("{\"id\":\"" + IdText(id) + "\",\"payload\":" + payload + "}" + "\n");
    }
    assert batch[..|batch|] == batch;
  }

  method Least(s: set<RowId>) returns (r: RowId)
    requires s != {}
    ensures r in s && forall x :: x in s ==> r <= x
  {
    r :| r in s;
    var todo := s - {r};
    while todo != {}
      invariant todo <= s && r in s
      invariant forall x :: x in s && x !in todo ==> r <= x
      decreases |todo|
    {
      var x :| x in todo;
      if x < r { r := x; }
      todo := todo - {x};
    }
  }
}
