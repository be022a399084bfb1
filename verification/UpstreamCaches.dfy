/**
 The chunked block cache. Records live in storage chunks of `density` records; a cursor
 names a chunk and a record in it, and the cursor's chunk is held in memory. Storage is an
 infallible map from chunk number to records, where a missing chunk reads as empty.
 */
module UpstreamCaches {
  import opened Base
  import opened Arithmetic

  type Storage<R> = map<nat, seq<R>>

  datatype Cache<R> = Cache(chunk: nat, record: nat, cached: seq<R>, storage: Storage<R>)

  function ReadChunk<R>(storage: Storage<R>, n: nat): seq<R> {
    if n in storage then storage[n] else []
  }

  function Start<R>(c: Cache<R>): Cache<R> {
    Cache(0, 0, ReadChunk(c.storage, 0), c.storage)
  }

  predicate HasRecord<R>(c: Cache<R>) {
    c.record < |c.cached|
  }

  function Read<R>(c: Cache<R>): Option<R> {
    if HasRecord(c) then Some(c.cached[c.record]) else None
  }

  /** The cursor moved on, and whether the chunk it left was not over-full. */
  function Next<R>(c: Cache<R>, density: nat): (Cache<R>, bool) {
    if !HasRecord(c) then (c, true)
    else if c.record + 1 < density then (c.(record := c.record + 1), true)
    else if |c.cached| > density then (c.(record := c.record + 1), false)
    else (Cache(c.chunk + 1, 0, ReadChunk(c.storage, c.chunk + 1), c.storage), true)
  }

  function Write<R>(c: Cache<R>, density: nat, r: R): Cache<R> {
    var cached := c.cached + [r];
    var storage := c.storage[c.chunk := cached];
    if c.record + 1 >= density then Cache(c.chunk + 1, 0, [], storage)
    else Cache(c.chunk, c.record + 1, cached, storage)
  }

  // ---------------------------------------------------------------------------------
  // The flat log behind the chunks

  function Cut<R>(log: seq<R>, low: nat, high: nat): seq<R>
    requires low <= high
  {
    log[Min(low, |log|)..Min(high, |log|)]
  }

  function Slice<R>(log: seq<R>, density: nat, n: nat): seq<R> {
    Cut(log, n * density, n * density + density)
  }

  /** Chunk `n` holds records `n * density` up to `(n + 1) * density` of the log: all chunks before the last are full. */
  ghost predicate Denotes<R>(storage: Storage<R>, density: nat, log: seq<R>) {
    forall n: nat :: ReadChunk(storage, n) == Slice(log, density, n)
  }

  /** The cursor stands at `pos` of the log, on a record or at the first free place after the last. */
  ghost predicate At<R>(c: Cache<R>, density: nat, log: seq<R>, pos: nat) {
    && Denotes(c.storage, density, log)
    && c.cached == ReadChunk(c.storage, c.chunk)
    && c.record < density
    && pos == c.chunk * density + c.record <= |log|
  }

  lemma ChunksApart(m: nat, n: nat, density: nat)
    requires m < n
    ensures m * density + density <= n * density
  {
    ProductMonotone(m, n, density);
  }

  lemma AtChunk<R>(c: Cache<R>, density: nat, log: seq<R>, pos: nat)
    requires At(c, density, log, pos)
    ensures c.record <= |c.cached| <= density
    ensures c.cached == Slice(log, density, c.chunk)
    ensures |c.cached| == Min(|log| - c.chunk * density, density)
    ensures HasRecord(c) <==> pos < |log|
  {
  }

  lemma StartIsAtZero<R>(c: Cache<R>, density: nat, log: seq<R>)
    requires density >= 1 && Denotes(c.storage, density, log)
    ensures At(Start(c), density, log, 0)
  {
  }

  lemma ReadIsRecord<R>(c: Cache<R>, density: nat, log: seq<R>, pos: nat)
    requires At(c, density, log, pos)
    ensures Read(c) == if pos < |log| then Some(log[pos]) else None
  {
    AtChunk(c, density, log, pos);
  }

  /** The over-full error is never raised, and the cursor moves by one until it is at the end. */
  lemma NextAdvances<R>(c: Cache<R>, density: nat, log: seq<R>, pos: nat)
    requires At(c, density, log, pos)
    ensures Next(c, density).1
    ensures At(Next(c, density).0, density, log, if pos < |log| then pos + 1 else pos)
  {
    AtChunk(c, density, log, pos);
    assert (c.chunk + 1) * density == c.chunk * density + density;
  }

  lemma CutElsewhere<R>(log: seq<R>, low: nat, high: nat, r: R)
    requires low <= high && (high <= |log| || |log| < low)
    ensures Cut(log + [r], low, high) == Cut(log, low, high)
  {
  }

  lemma CutAtEnd<R>(log: seq<R>, low: nat, high: nat, r: R)
    requires low <= |log| < high
    ensures Cut(log + [r], low, high) == Cut(log, low, high) + [r]
  {
    assert Cut(log, low, high) == log[low..];
    assert Cut(log + [r], low, high) == (log + [r])[low..];
  }

  lemma SliceAfterAppend<R>(log: seq<R>, density: nat, r: R, last: nat, n: nat)
    requires last * density <= |log| < last * density + density
    ensures Slice(log + [r], density, n) == if n == last then Slice(log, density, n) + [r] else Slice(log, density, n)
  {
    var low := n * density;
    if n == last {
      CutAtEnd(log, low, low + density, r);
    } else {
      if n < last {
        ChunksApart(n, last, density);
      } else {
        ChunksApart(last, n, density);
      }
      CutElsewhere(log, low, low + density, r);
    }
  }

  lemma AppendDenotes<R>(storage: Storage<R>, density: nat, log: seq<R>, r: R, last: nat)
    requires Denotes(storage, density, log)
    requires last * density <= |log| < last * density + density
    ensures Denotes(storage[last := ReadChunk(storage, last) + [r]], density, log + [r])
  {
    forall n: nat
      ensures ReadChunk(storage[last := ReadChunk(storage, last) + [r]], n) == Slice(log + [r], density, n)
    {
      SliceAfterAppend(log, density, r, last, n);
    }
  }

  /** A write while the cursor's chunk has room appends one record to the log. */
  lemma WriteAppends<R>(c: Cache<R>, density: nat, log: seq<R>, pos: nat, r: R)
    requires At(c, density, log, pos) && |c.cached| < density
    ensures At(Write(c, density, r), density, log + [r], pos + 1)
  {
    AtChunk(c, density, log, pos);
    AppendDenotes(c.storage, density, log, r, c.chunk);
    if c.record + 1 >= density {
      NextChunkEmpty(log, density, c.chunk);
      assert ReadChunk(c.storage, c.chunk + 1) == Slice(log, density, c.chunk + 1);
    }
  }

  lemma NextChunkEmpty<R>(log: seq<R>, density: nat, last: nat)
    requires |log| < last * density + density
    ensures (last + 1) * density == last * density + density
    ensures Slice(log, density, last + 1) == []
  {
  }

  lemma CutLength<R>(log: seq<R>, low: nat, size: nat)
    ensures |Cut(log, low, low + size)| <= size
  {
  }

  lemma OverfullDenotesNothing<R>(storage: Storage<R>, density: nat, chunk: nat, log: seq<R>)
    requires |ReadChunk(storage, chunk)| > density
    ensures !Denotes(storage, density, log)
  {
    CutLength(log, chunk * density, density);
  }

  lemma OverfullWrite<R>(c: Cache<R>, density: nat, r: R)
    requires |c.cached| >= density
    ensures !exists log' :: Denotes(Write(c, density, r).storage, density, log')
  {
    var storage := Write(c, density, r).storage;
    forall log' ensures !Denotes(storage, density, log') {
      OverfullDenotesNothing(storage, density, c.chunk, log');
    }
  }

  /**
   A write leaves storage that denotes some log if and only if the cursor's chunk has room;
   then the log has grown by the record. At the end of the log there always is room.
   */
  lemma WriteNeedsRoom<R>(c: Cache<R>, density: nat, log: seq<R>, pos: nat, r: R)
    requires At(c, density, log, pos)
    ensures (exists log' :: Denotes(Write(c, density, r).storage, density, log')) <==> |c.cached| < density
    ensures |c.cached| < density ==> At(Write(c, density, r), density, log + [r], pos + 1)
    ensures pos == |log| ==> |c.cached| < density
  {
    AtChunk(c, density, log, pos);
    if |c.cached| < density {
      WriteAppends(c, density, log, pos, r);
    } else {
      OverfullWrite(c, density, r);
    }
  }

  // ---------------------------------------------------------------------------------
  // Reading it all back

  function Advance<R>(c: Cache<R>, density: nat, n: nat): Cache<R> {
    if n == 0 then c else Next(Advance(c, density, n - 1), density).0
  }

  /** Reading from the start gives the log in order, and then nothing, for ever. */
  lemma {:induction false} ReadingYieldsLog<R>(c: Cache<R>, density: nat, log: seq<R>, n: nat)
    requires density >= 1 && Denotes(c.storage, density, log)
    ensures At(Advance(Start(c), density, n), density, log, Min(n, |log|))
    ensures Read(Advance(Start(c), density, n)) == if n < |log| then Some(log[n]) else None
  {
    if n == 0 {
      StartIsAtZero(c, density, log);
    } else {
      ReadingYieldsLog(c, density, log, n - 1);
      NextAdvances(Advance(Start(c), density, n - 1), density, log, Min(n - 1, |log|));
    }
    ReadIsRecord(Advance(Start(c), density, n), density, log, Min(n, |log|));
  }

  // ---------------------------------------------------------------------------------
  // Runs

  datatype Op<R> = StartReading | NextRecord | WriteRecord(record: R)

  function Step<R>(c: Cache<R>, density: nat, op: Op<R>): (Cache<R>, bool) {
    match op
    case StartReading => (Start(c), true)
    case NextRecord => Next(c, density)
    case WriteRecord(r) => (Write(c, density, r), true)
  }

  function New<R>(): Cache<R> {
    Cache(0, 0, [], map[])
  }

  function Run<R>(density: nat, ops: seq<Op<R>>): (Cache<R>, bool) {
    if ops == [] then (New(), true) else
    var (c, ok) := Run(density, ops[..|ops| - 1]);
    var (c', ok') := Step(c, density, ops[|ops| - 1]);
    (c', ok && ok')
  }

  /** Every write finds room in the cursor's chunk; reading to the end beforehand ensures it. */
  predicate WritesHaveRoom<R>(density: nat, ops: seq<Op<R>>) {
    ops == [] ||
    (WritesHaveRoom(density, ops[..|ops| - 1]) &&
     (ops[|ops| - 1].WriteRecord? ==> |Run(density, ops[..|ops| - 1]).0.cached| < density))
  }

  function Written<R>(ops: seq<Op<R>>): seq<R> {
    if ops == [] then [] else
    Written(ops[..|ops| - 1]) + (if ops[|ops| - 1].WriteRecord? then [ops[|ops| - 1].record] else [])
  }

  /** Where the cursor of a flat log would be. */
  function Position<R>(ops: seq<Op<R>>): nat {
    if ops == [] then 0 else
    var pos := Position(ops[..|ops| - 1]);
    match ops[|ops| - 1]
    case StartReading => 0
    case NextRecord => if pos < |Written(ops[..|ops| - 1])| then pos + 1 else pos
    case WriteRecord(_) => pos + 1
  }

  /**
   For any density of at least one and any interleaving of restarts, reads and writes with
   room, the chunks denote exactly the records written, in order, the cursor is where a
   flat log's would be, and no step fails.
   */
  lemma {:induction false} RunRefinesFlatLog<R>(density: nat, ops: seq<Op<R>>)
    requires density >= 1 && WritesHaveRoom(density, ops)
    ensures Run(density, ops).1
    ensures At(Run(density, ops).0, density, Written(ops), Position(ops))
  {
    if ops != [] {
      var before := ops[..|ops| - 1];
      RunRefinesFlatLog(density, before);
      var c := Run(density, before).0;
      match ops[|ops| - 1]
      case StartReading =>
        StartIsAtZero(c, density, Written(before));
        assert Written(ops) == Written(before);
      case NextRecord =>
        NextAdvances(c, density, Written(before), Position(before));
        assert Written(ops) == Written(before);
      case WriteRecord(r) => WriteAppends(c, density, Written(before), Position(before), r);
    }
  }

  /** Every write happens with the flat log's cursor in the last chunk, with room left in it. */
  predicate WritesInLastChunk<R>(density: nat, ops: seq<Op<R>>)
    requires density >= 1
  {
    ops == [] ||
    (var before := ops[..|ops| - 1];
     && WritesInLastChunk(density, before)
     && (ops[|ops| - 1].WriteRecord? ==> |Written(before)| < Position(before) / density * density + density))
  }

  lemma ChunkOfPosition(chunk: nat, record: nat, density: nat)
    requires record < density
    ensures (chunk * density + record) / density == chunk
  {
    var pos := chunk * density + record;
    QuotientAndRemainder(pos, density);
    if pos / density < chunk {
      ProductMonotone(pos / density, chunk, density);
    } else if chunk < pos / density {
      ProductMonotone(chunk, pos / density, density);
    }
  }

  lemma RoomInFlatTerms<R>(c: Cache<R>, density: nat, log: seq<R>, pos: nat)
    requires At(c, density, log, pos)
    ensures |c.cached| < density <==> |log| < pos / density * density + density
  {
    AtChunk(c, density, log, pos);
    ChunkOfPosition(c.chunk, c.record, density);
  }

  /** Whether writes find room can be told from the flat log alone. */
  lemma {:induction false} RoomIsFlat<R>(density: nat, ops: seq<Op<R>>)
    requires density >= 1
    ensures WritesHaveRoom(density, ops) <==> WritesInLastChunk(density, ops)
  {
    if ops != [] {
      var before := ops[..|ops| - 1];
      RoomIsFlat(density, before);
      if WritesHaveRoom(density, before) {
        RunRefinesFlatLog(density, before);
        RoomInFlatTerms(Run(density, before).0, density, Written(before), Position(before));
      }
    }
  }

  /** Every write happens at the end of the log. */
  predicate WritesAtEnd<R>(ops: seq<Op<R>>) {
    ops == [] ||
    (var before := ops[..|ops| - 1];
     WritesAtEnd(before) && (ops[|ops| - 1].WriteRecord? ==> Position(before) == |Written(before)|))
  }

  /** Appending only at the end keeps the chunks a flat log, for every density. */
  lemma {:induction false} AppendingRefinesFlatLog<R>(density: nat, ops: seq<Op<R>>)
    requires density >= 1 && WritesAtEnd(ops)
    ensures WritesHaveRoom(density, ops)
    ensures Run(density, ops).1
    ensures At(Run(density, ops).0, density, Written(ops), Position(ops))
  {
    if ops != [] {
      var before := ops[..|ops| - 1];
      AppendingRefinesFlatLog(density, before);
      QuotientAndRemainder(Position(before), density);
      RoomInFlatTerms(Run(density, before).0, density, Written(before), Position(before));
    }
    RunRefinesFlatLog(density, ops);
  }

  // ---------------------------------------------------------------------------------
  // The mutable cache

  class UpstreamCache<R> {
    const density: nat
    var currentChunk: nat
    var currentRecord: nat
    var chunkCached: seq<R>
    var storage: Storage<R>

    ghost function State(): Cache<R>
      reads this
    {
      Cache(currentChunk, currentRecord, chunkCached, storage)
    }

    constructor (density: nat, storage: Storage<R>)
      ensures this.density == density && State() == New().(storage := storage)
      ensures density >= 1 && storage == map[] ==> At(State(), density, [], 0)
    {
      this.density := density;
      this.storage := storage;
      currentChunk, currentRecord, chunkCached := 0, 0, [];
    }

    method StartReading(ghost log: seq<R>)
      modifies this`currentChunk, this`currentRecord, this`chunkCached
      ensures State() == Start(old(State()))
      ensures density >= 1 && Denotes(storage, density, log) ==> At(State(), density, log, 0)
    {
      currentChunk := 0;
      currentRecord := 0;
      chunkCached := ReadChunk(storage, 0);
      if density >= 1 && Denotes(storage, density, log) {
        StartIsAtZero(State(), density, log);
      }
    }

    method NextRecord(ghost log: seq<R>, ghost pos: nat) returns (ok: bool)
      modifies this`currentChunk, this`currentRecord, this`chunkCached
      ensures (State(), ok) == Next(old(State()), density)
      ensures old(At(State(), density, log, pos)) ==>
                ok && At(State(), density, log, if pos < |log| then pos + 1 else pos)
    {
      if At(State(), density, log, pos) {
        NextAdvances(State(), density, log, pos);
      }
      if currentRecord < |chunkCached| {
        currentRecord := currentRecord + 1;
        if currentRecord >= density {
          if |chunkCached| > density {
            return false;
          }
          currentRecord := 0;
          currentChunk := currentChunk + 1;
          chunkCached := ReadChunk(storage, currentChunk);
        }
      }
      ok := true;
    }

    method ReadRecord(ghost log: seq<R>, ghost pos: nat) returns (r: Option<R>)
      ensures r == Read(State())
      ensures At(State(), density, log, pos) ==> r == if pos < |log| then Some(log[pos]) else None
    {
      if At(State(), density, log, pos) {
        ReadIsRecord(State(), density, log, pos);
      }
      r := if currentRecord < |chunkCached| then Some(chunkCached[currentRecord]) else None;
    }

    method WriteRecord(record: R, ghost log: seq<R>, ghost pos: nat)
      modifies this`currentChunk, this`currentRecord, this`chunkCached, this`storage
      ensures State() == Write(old(State()), density, record)
      ensures old(At(State(), density, log, pos)) && |old(chunkCached)| < density ==>
                At(State(), density, log + [record], pos + 1)
    {
      if At(State(), density, log, pos) && |chunkCached| < density {
        WriteAppends(State(), density, log, pos, record);
      }
      chunkCached := chunkCached + [record];
      storage := storage[currentChunk := chunkCached];
      currentRecord := currentRecord + 1;
      if currentRecord >= density {
        currentRecord := 0;
        currentChunk := currentChunk + 1;
        chunkCached := [];
      }
    }
  }
}
