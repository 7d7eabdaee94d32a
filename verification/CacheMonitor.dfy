/**
 * `CacheMonitor`: counters kept in memory and moved into a Redis hash by a timer. The moving
 * goes through the cache client, which counts it, so the monitor observes itself.
 * Redis is taken to be reachable and each step to be atomic.
 */
module CacheMonitor {
  import opened Collections

  datatype Stat =
    | ReadHits | ReadMisses | ReadHitRatio | ReadMsecs | ReadMsecsAvg
    | DeleteHits | DeleteMisses | DeleteHitRatio | DeleteMsecs | DeleteMsecsAvg
    | Writes | WriteMsecs | WriteMsecsAvg

  const STAT_KEYS: seq<Stat> := [
    ReadHits, ReadMisses, ReadHitRatio, ReadMsecs, ReadMsecsAvg,
    DeleteHits, DeleteMisses, DeleteHitRatio, DeleteMsecs, DeleteMsecsAvg,
    Writes, WriteMsecs, WriteMsecsAvg]

  /** The in-memory counters. The ratio and average entries of the dictionary stay 0 and are left out. */
  datatype Counters = Counters(
    writes: nat, writeMsecs: nat,
    readHits: nat, readMisses: nat, readMsecs: nat,
    deleteHits: nat, deleteMisses: nat, deleteMsecs: nat)
  {
    function At(k: Stat): nat {
      match k
      case Writes => writes
      case WriteMsecs => writeMsecs
      case ReadHits => readHits
      case ReadMisses => readMisses
      case ReadMsecs => readMsecs
      case DeleteHits => deleteHits
      case DeleteMisses => deleteMisses
      case DeleteMsecs => deleteMsecs
      case _ => 0
    }

    function Cleared(k: Stat): Counters {
      match k
      case Writes => this.(writes := 0)
      case WriteMsecs => this.(writeMsecs := 0)
      case ReadHits => this.(readHits := 0)
      case ReadMisses => this.(readMisses := 0)
      case ReadMsecs => this.(readMsecs := 0)
      case DeleteHits => this.(deleteHits := 0)
      case DeleteMisses => this.(deleteMisses := 0)
      case DeleteMsecs => this.(deleteMsecs := 0)
      case _ => this
    }

    predicate HasReads() { readHits != 0 || readMisses != 0 }
    predicate HasDeletes() { deleteHits != 0 || deleteMisses != 0 }
    predicate Active() { writes != 0 || HasReads() || HasDeletes() }
  }

  const ZERO := Counters(0, 0, 0, 0, 0, 0, 0, 0)

  /** The hash at the statistics key: integer fields, and the derived ratios and averages. */
  datatype Hash = Hash(counts: map<Stat, nat>, derived: map<Stat, real>) {
    function At(k: Stat): nat { if k in counts then counts[k] else 0 }
    predicate Has(k: Stat) { k in counts || k in derived }
    function Without(k: Stat): Hash { Hash(counts - {k}, derived - {k}) }
  }

  const NO_HASH := Hash(map[], map[])

  datatype Monitor = Monitor(local: Counters, hash: Hash) {
    /** What the in-memory counter and the hash add up to. */
    function Total(k: Stat): nat { local.At(k) + hash.At(k) }
  }

  function Ratio(a: nat, b: nat): real {
    if b == 0 then 0.0 else a as real / b as real
  }

  function CountRead(m: Monitor, hits: nat, misses: nat, ms: nat): Monitor {
    m.(local := m.local.(readHits := m.local.readHits + hits, readMisses := m.local.readMisses + misses,
                         readMsecs := m.local.readMsecs + ms))
  }

  function CountWrite(m: Monitor, ms: nat): Monitor {
    m.(local := m.local.(writes := m.local.writes + 1, writeMsecs := m.local.writeMsecs + ms))
  }

  function CountDelete(m: Monitor, attempts: nat, hits: nat, ms: nat): Monitor
    requires hits <= attempts
  {
    m.(local := m.local.(deleteHits := m.local.deleteHits + hits, deleteMisses := m.local.deleteMisses + (attempts - hits),
                         deleteMsecs := m.local.deleteMsecs + ms))
  }

  function IncrementHash(m: Monitor, k: Stat, v: nat, ms: nat): Monitor {
    CountWrite(m.(hash := m.hash.(counts := m.hash.counts[k := m.hash.At(k) + v])), ms)
  }

  function PutHash(m: Monitor, k: Stat, x: real, ms: nat): Monitor {
    CountWrite(m.(hash := m.hash.(derived := m.hash.derived[k := x])), ms)
  }

  function MoveWrites(m: Monitor, l: Counters, ms: Stat -> nat): Monitor {
    if l.writes == 0 then m
    else
      var m1 := IncrementHash(m, Writes, l.writes, ms(Writes));
      var m2 := IncrementHash(m1, WriteMsecs, l.writeMsecs, ms(WriteMsecs));
      PutHash(m2, WriteMsecsAvg, Ratio(m2.hash.At(WriteMsecs), m2.hash.At(Writes)), ms(WriteMsecsAvg))
  }

  function MoveReads(m: Monitor, l: Counters, ms: Stat -> nat): Monitor {
    if !l.HasReads() then m
    else
      var m1 := IncrementHash(m, ReadHits, l.readHits, ms(ReadHits));
      var m2 := IncrementHash(m1, ReadMisses, l.readMisses, ms(ReadMisses));
      var m3 := IncrementHash(m2, ReadMsecs, l.readMsecs, ms(ReadMsecs));
      var attempts := m3.hash.At(ReadHits) + m3.hash.At(ReadMisses);
      var m4 := PutHash(m3, ReadHitRatio, Ratio(m3.hash.At(ReadHits), attempts), ms(ReadHitRatio));
      PutHash(m4, ReadMsecsAvg, Ratio(m3.hash.At(ReadMsecs), attempts), ms(ReadMsecsAvg))
  }

  function MoveDeletes(m: Monitor, l: Counters, ms: Stat -> nat): Monitor {
    if !l.HasDeletes() then m
    else
      var m1 := IncrementHash(m, DeleteHits, l.deleteHits, ms(DeleteHits));
      var m2 := IncrementHash(m1, DeleteMisses, l.deleteMisses, ms(DeleteMisses));
      var m3 := IncrementHash(m2, DeleteMsecs, l.deleteMsecs, ms(DeleteMsecs));
      var attempts := m3.hash.At(DeleteHits) + m3.hash.At(DeleteMisses);
      var m4 := PutHash(m3, DeleteHitRatio, Ratio(m3.hash.At(DeleteHits), attempts), ms(DeleteHitRatio));
      PutHash(m4, DeleteMsecsAvg, Ratio(m3.hash.At(DeleteMsecs), attempts), ms(DeleteMsecsAvg))
  }

  /** One timer tick; `ms` gives the duration of the client call that writes each field. */
  function UpdateRegionStats(m: Monitor, ms: Stat -> nat): Monitor {
    MoveDeletes(MoveReads(MoveWrites(m.(local := ZERO), m.local, ms), m.local, ms), m.local, ms)
  }

  function ResetOne(m: Monitor, k: Stat, ms: nat): Monitor {
    var m1 := Monitor(m.local.Cleared(k), m.hash.Without(k));
    CountDelete(m1, 1, if m.hash.Has(k) then 1 else 0, ms)
  }

  function ResetFrom(m: Monitor, keys: seq<Stat>, ms: Stat -> nat): Monitor
    decreases keys
  {
    if keys == [] then m else ResetFrom(ResetOne(m, keys[0], ms(keys[0])), keys[1..], ms)
  }

  /** The monitor as it runs, over the region's hash. */
  class Running {
    var local: Counters
    var hash: Hash

    function Value(): Monitor
      reads this
    {
      Monitor(local, hash)
    }

    constructor ()
      ensures Value() == Monitor(ZERO, NO_HASH)
    {
      local, hash := ZERO, NO_HASH;
    }

    method CountReads(hits: nat, misses: nat, ms: nat)
      modifies this
      ensures Value() == CountRead(old(Value()), hits, misses, ms)
    {
      if hits > 0 {
        local := local.(readHits := local.readHits + hits);
      }
      if misses > 0 {
        local := local.(readMisses := local.readMisses + misses);
      }
      local := local.(readMsecs := local.readMsecs + ms);
    }

    method CountOneWrite(ms: nat)
      modifies this
      ensures Value() == CountWrite(old(Value()), ms)
    {
      local := local.(writes := local.writes + 1);
      local := local.(writeMsecs := local.writeMsecs + ms);
    }

    method CountDeletes(attempts: nat, hits: nat, ms: nat)
      requires hits <= attempts
      modifies this
      ensures Value() == CountDelete(old(Value()), attempts, hits, ms)
    {
      local := local.(deleteHits := local.deleteHits + hits);
      local := local.(deleteMisses := local.deleteMisses + (attempts - hits));
      local := local.(deleteMsecs := local.deleteMsecs + ms);
    }

    method Increment(k: Stat, v: nat, ms: nat) returns (n: nat)
      modifies this
      ensures Value() == IncrementHash(old(Value()), k, v, ms) && n == hash.At(k)
    {
      n := hash.At(k) + v;
      hash := hash.(counts := hash.counts[k := n]);
      CountOneWrite(ms);
    }

    method Put(k: Stat, x: real, ms: nat)
      modifies this
      ensures Value() == PutHash(old(Value()), k, x, ms)
    {
      hash := hash.(derived := hash.derived[k := x]);
      CountOneWrite(ms);
    }

    method PushWrites(l: Counters, ms: Stat -> nat)
      modifies this
      ensures Value() == MoveWrites(old(Value()), l, ms)
    {
      if l.writes != 0 {
        var writes := Increment(Writes, l.writes, ms(Writes));
        var msecs := Increment(WriteMsecs, l.writeMsecs, ms(WriteMsecs));
        Put(WriteMsecsAvg, Ratio(msecs, writes), ms(WriteMsecsAvg));
      }
    }

    method PushReads(l: Counters, ms: Stat -> nat)
      modifies this
      ensures Value() == MoveReads(old(Value()), l, ms)
    {
      if l.readHits != 0 || l.readMisses != 0 {
        var hits := Increment(ReadHits, l.readHits, ms(ReadHits));
        var misses := Increment(ReadMisses, l.readMisses, ms(ReadMisses));
        var msecs := Increment(ReadMsecs, l.readMsecs, ms(ReadMsecs));
        Put(ReadHitRatio, Ratio(hits, hits + misses), ms(ReadHitRatio));
        Put(ReadMsecsAvg, Ratio(msecs, hits + misses), ms(ReadMsecsAvg));
      }
    }

    method PushDeletes(l: Counters, ms: Stat -> nat)
      modifies this
      ensures Value() == MoveDeletes(old(Value()), l, ms)
    {
      if l.deleteHits != 0 || l.deleteMisses != 0 {
        var hits := Increment(DeleteHits, l.deleteHits, ms(DeleteHits));
        var misses := Increment(DeleteMisses, l.deleteMisses, ms(DeleteMisses));
        var msecs := Increment(DeleteMsecs, l.deleteMsecs, ms(DeleteMsecs));
        Put(DeleteHitRatio, Ratio(hits, hits + misses), ms(DeleteHitRatio));
        Put(DeleteMsecsAvg, Ratio(msecs, hits + misses), ms(DeleteMsecsAvg));
      }
    }

    method Update(ms: Stat -> nat)
      modifies this
      ensures Value() == UpdateRegionStats(old(Value()), ms)
    {
      var l := local;
      local := ZERO;
      PushWrites(l, ms);
      PushReads(l, ms);
      PushDeletes(l, ms);
    }

    method ResetKeys(keys: seq<Stat>, ms: Stat -> nat)
      modifies this
      ensures Value() == ResetFrom(old(Value()), keys, ms)
    {
      assert keys[0..] == keys;
      for i := 0 to |keys|
        invariant ResetFrom(Value(), keys[i..], ms) == ResetFrom(old(Value()), keys, ms)
      {
        assert keys[i..][1..] == keys[i + 1..];
        local := local.Cleared(keys[i]);
        var hit := hash.Has(keys[i]);
        hash := hash.Without(keys[i]);
        CountDeletes(1, if hit then 1 else 0, ms(keys[i]));
      }
    }

    method Reset(ms: Stat -> nat)
      modifies this
      ensures Value() == ResetFrom(old(Value()), STAT_KEYS, ms)
    {
      ResetKeys(STAT_KEYS, ms);
    }
  }

  // ---------- conservation ----------

  /** The writes a tick makes on its own account. */
  function OwnWrites(l: Counters): nat {
    (if l.writes != 0 then 3 else 0) + (if l.HasReads() then 5 else 0) + (if l.HasDeletes() then 5 else 0)
  }

  function OwnMsecs(l: Counters, ms: Stat -> nat): nat {
    (if l.writes != 0 then ms(Writes) + ms(WriteMsecs) + ms(WriteMsecsAvg) else 0) +
    (if l.HasReads() then ms(ReadHits) + ms(ReadMisses) + ms(ReadMsecs) + ms(ReadHitRatio) + ms(ReadMsecsAvg) else 0) +
    (if l.HasDeletes() then ms(DeleteHits) + ms(DeleteMisses) + ms(DeleteMsecs) + ms(DeleteHitRatio) + ms(DeleteMsecsAvg) else 0)
  }

  /** What a tick adds to each total, being counted itself. */
  function Own(l: Counters, ms: Stat -> nat, k: Stat): nat {
    match k
    case Writes => OwnWrites(l)
    case WriteMsecs => OwnMsecs(l, ms)
    case _ => 0
  }

  /** Time that a tick drops: recorded by calls that counted neither a hit nor a miss. */
  function Lost(l: Counters, k: Stat): nat {
    match k
    case WriteMsecs => if l.writes == 0 then l.writeMsecs else 0
    case ReadMsecs => if l.HasReads() then 0 else l.readMsecs
    case DeleteMsecs => if l.HasDeletes() then 0 else l.deleteMsecs
    case _ => 0
  }

  /** A tick moves every counter into the hash, adds its own writes and drops only idle time. */
  lemma TickConserves(m: Monitor, ms: Stat -> nat, k: Stat)
    ensures UpdateRegionStats(m, ms).Total(k) + Lost(m.local, k) == m.Total(k) + Own(m.local, ms, k)
  {
    var m0 := m.(local := ZERO);
    var m1 := MoveWrites(m0, m.local, ms);
    var m2 := MoveReads(m1, m.local, ms);
    MoveWritesTotal(m0, m.local, ms, k);
    MoveReadsTotal(m1, m.local, ms, k);
    MoveDeletesTotal(m2, m.local, ms, k);
  }

  lemma MoveWritesTotal(m: Monitor, l: Counters, ms: Stat -> nat, k: Stat)
    ensures MoveWrites(m, l, ms).Total(k) == m.Total(k) +
      if l.writes == 0 then 0
      else match k
        case Writes => l.writes + 3
        case WriteMsecs => l.writeMsecs + ms(Writes) + ms(WriteMsecs) + ms(WriteMsecsAvg)
        case _ => 0
  {
  }

  lemma MoveReadsTotal(m: Monitor, l: Counters, ms: Stat -> nat, k: Stat)
    ensures MoveReads(m, l, ms).Total(k) == m.Total(k) +
      if !l.HasReads() then 0
      else match k
        case ReadHits => l.readHits
        case ReadMisses => l.readMisses
        case ReadMsecs => l.readMsecs
        case Writes => 5
        case WriteMsecs => ms(ReadHits) + ms(ReadMisses) + ms(ReadMsecs) + ms(ReadHitRatio) + ms(ReadMsecsAvg)
        case _ => 0
  {
  }

  lemma MoveDeletesTotal(m: Monitor, l: Counters, ms: Stat -> nat, k: Stat)
    ensures MoveDeletes(m, l, ms).Total(k) == m.Total(k) +
      if !l.HasDeletes() then 0
      else match k
        case DeleteHits => l.deleteHits
        case DeleteMisses => l.deleteMisses
        case DeleteMsecs => l.deleteMsecs
        case Writes => 5
        case WriteMsecs => ms(DeleteHits) + ms(DeleteMisses) + ms(DeleteMsecs) + ms(DeleteHitRatio) + ms(DeleteMsecsAvg)
        case _ => 0
  {
  }

  datatype Event =
    | Read(hits: nat, misses: nat, readMs: nat)
    | Write(writeMs: nat)
    | Delete(deleted: nat, absent: nat, deleteMs: nat)
    | Tick(callMs: Stat -> nat)
    /** A reset over the list `keys`. */
    | Reset(keys: seq<Stat>, removeMs: Stat -> nat)
    /** The hash at the statistics key runs out, or the region is flushed. */
    | HashGone

  function Step(m: Monitor, e: Event): Monitor {
    match e
    case Read(hits, misses, ms) => CountRead(m, hits, misses, ms)
    case Write(ms) => CountWrite(m, ms)
    case Delete(deleted, absent, ms) => CountDelete(m, deleted + absent, deleted, ms)
    case Tick(ms) => UpdateRegionStats(m, ms)
    case Reset(keys, ms) => ResetFrom(m, keys, ms)
    case HashGone => m.(hash := NO_HASH)
  }

  function Run(m: Monitor, events: seq<Event>): Monitor
    decreases events
  {
    if events == [] then m else Run(Step(m, events[0]), events[1..])
  }

  /** What one event is worth in each counter, the monitor's own calls included. */
  function Counted(m: Monitor, e: Event, k: Stat): nat {
    match e
    case Read(hits, misses, ms) =>
      (match k case ReadHits => hits case ReadMisses => misses case ReadMsecs => ms case _ => 0)
    case Write(ms) =>
      (match k case Writes => 1 case WriteMsecs => ms case _ => 0)
    case Delete(deleted, absent, ms) =>
      (match k case DeleteHits => deleted case DeleteMisses => absent case DeleteMsecs => ms case _ => 0)
    case Tick(ms) => Own(m.local, ms, k)
    case Reset(keys, ms) => Leftover(m.hash, After(keys, DeleteMisses), After(keys, DeleteMsecs), ms, k)
    case HashGone => 0
  }

  function Before(keys: seq<Stat>, k: Stat): seq<Stat> {
    if keys == [] || keys[0] == k then [] else [keys[0]] + Before(keys[1..], k)
  }

  function After(keys: seq<Stat>, k: Stat): seq<Stat> {
    if keys == [] then [] else if keys[0] == k then keys[1..] else After(keys[1..], k)
  }

  /** A list of all keys, each once, in which the turn of the delete misses follows that of the delete hits. */
  ghost predicate Ordered(keys: seq<Stat>) {
    && NoDuplicates(keys) && (forall k: Stat :: k in keys)
    && After(keys, DeleteHits) == [DeleteMisses] + After(keys, DeleteMisses)
  }

  /**
   * What a reset leaves in memory: its own last removals, counted as deletes. `counts` are the keys whose
   * turn comes after that of the delete misses, `time` those after that of the delete time.
   */
  function Leftover(h: Hash, counts: seq<Stat>, time: seq<Stat>, ms: Stat -> nat, k: Stat): nat {
    match k
    case DeleteHits =>
      (if h.Has(DeleteHits) then 1 else 0) + (if h.Has(DeleteMisses) then 1 else 0) + Present(h, counts)
    case DeleteMisses => (if h.Has(DeleteMisses) then 0 else 1) + Missing(h, counts)
    case DeleteMsecs => ms(DeleteMsecs) + Durations(time, ms)
    case _ => 0
  }

  /** How many of `keys` are fields of the hash. */
  function Present(h: Hash, keys: seq<Stat>): nat {
    if keys == [] then 0 else (if h.Has(keys[0]) then 1 else 0) + Present(h, keys[1..])
  }

  function Missing(h: Hash, keys: seq<Stat>): nat {
    if keys == [] then 0 else (if h.Has(keys[0]) then 0 else 1) + Missing(h, keys[1..])
  }

  function Durations(keys: seq<Stat>, ms: Stat -> nat): nat {
    if keys == [] then 0 else ms(keys[0]) + Durations(keys[1..], ms)
  }

  /** What one event drops: idle time at a tick, everything so far at a reset, the stored part with the hash. */
  function DroppedBy(m: Monitor, e: Event, k: Stat): nat {
    match e
    case Tick(_) => Lost(m.local, k)
    case Reset(_, _) => m.Total(k)
    case HashGone => m.hash.At(k)
    case _ => 0
  }

  function Tally(m: Monitor, events: seq<Event>, k: Stat): nat
    decreases events
  {
    if events == [] then 0 else Counted(m, events[0], k) + Tally(Step(m, events[0]), events[1..], k)
  }

  function Dropped(m: Monitor, events: seq<Event>, k: Stat): nat
    decreases events
  {
    if events == [] then 0
    else DroppedBy(m, events[0], k) + Dropped(Step(m, events[0]), events[1..], k)
  }

  lemma StepConserves(m: Monitor, e: Event, k: Stat)
    requires e.Reset? ==> Ordered(e.keys)
    ensures Step(m, e).Total(k) + DroppedBy(m, e, k) == m.Total(k) + Counted(m, e, k)
  {
    if e.Tick? {
      TickConserves(m, e.callMs, k);
    } else if e.Reset? {
      ResetTotal(m, e.keys, e.removeMs, k);
    }
  }

  /**
   * Over any run, resets and the loss of the hash included, memory plus hash equal everything counted,
   * less what idle ticks, resets and the loss of the hash drop.
   */
  lemma {:induction false} RunConserves(m: Monitor, events: seq<Event>, k: Stat)
    requires forall i :: 0 <= i < |events| && events[i].Reset? ==> Ordered(events[i].keys)
    ensures Run(m, events).Total(k) + Dropped(m, events, k) == m.Total(k) + Tally(m, events, k)
    decreases events
  {
    if events != [] {
      StepConserves(m, events[0], k);
      RunConserves(Step(m, events[0]), events[1..], k);
    }
  }

  predicate IsCount(k: Stat) {
    k in {ReadHits, ReadMisses, DeleteHits, DeleteMisses, Writes}
  }

  /** Between resets counts are never dropped, and neither is write time: every recorded write counts one. */
  lemma {:induction false} NothingCountedIsDropped(m: Monitor, events: seq<Event>, k: Stat)
    requires IsCount(k) || k == WriteMsecs
    requires m.local.writes == 0 ==> m.local.writeMsecs == 0
    requires forall i :: 0 <= i < |events| ==> !events[i].Reset? && !events[i].HashGone?
    ensures Dropped(m, events, k) == 0
    decreases events
  {
    if events != [] {
      if events[0].Tick? {
        TickLeaves(m, events[0].callMs);
      }
      NothingCountedIsDropped(Step(m, events[0]), events[1..], k);
    }
  }

  // ---------- the monitor's own activity ----------

  /** After a tick the memory holds exactly the tick's own writes. */
  lemma TickLeaves(m: Monitor, ms: Stat -> nat)
    ensures UpdateRegionStats(m, ms).local == ZERO.(writes := OwnWrites(m.local), writeMsecs := OwnMsecs(m.local, ms))
  {
  }

  /** `n` ticks with nothing else going on; `ms(i)` gives the durations of the i-th. */
  function Idle(m: Monitor, ms: nat -> Stat -> nat, n: nat): Monitor {
    if n == 0 then m else UpdateRegionStats(Idle(m, ms, n - 1), ms(n - 1))
  }

  /**
   * Once there has been any activity the monitor never falls silent: from the second idle tick
   * on, each tick leaves exactly 3 writes, and the stored write count grows by 3 per tick.
   */
  lemma {:induction false} IdleTicksSettleAtThree(m: Monitor, ms: nat -> Stat -> nat, n: nat)
    requires m.local.Active() && n >= 2
    ensures Idle(m, ms, n).local.writes == 3
    ensures !Idle(m, ms, n).local.HasReads() && !Idle(m, ms, n).local.HasDeletes()
    ensures Idle(m, ms, n).hash.At(Writes) == m.Total(Writes) + OwnWrites(m.local) + 3 * (n - 2)
  {
    if n == 2 {
      TickLeaves(m, ms(0));
      TickConserves(m, ms(0), Writes);
      var one := UpdateRegionStats(m, ms(0));
      assert Idle(m, ms, 1) == UpdateRegionStats(Idle(m, ms, 0), ms(0)) == one;
      QuietTick(one, ms(1));
    } else {
      IdleTicksSettleAtThree(m, ms, n - 1);
      QuietTick(Idle(m, ms, n - 1), ms(n - 1));
    }
  }

  lemma QuietTick(m: Monitor, ms: Stat -> nat)
    requires m.local.writes > 0 && !m.local.HasReads() && !m.local.HasDeletes()
    ensures var m' := UpdateRegionStats(m, ms);
      && m'.local.writes == 3 && !m'.local.HasReads() && !m'.local.HasDeletes()
      && m'.hash.At(Writes) == m.Total(Writes)
  {
    TickLeaves(m, ms);
    TickConserves(m, ms, Writes);
  }

  /** Without any activity ticks do nothing, for ever. */
  lemma {:induction false} SilenceIsKept(m: Monitor, ms: nat -> Stat -> nat, n: nat)
    requires m.local == ZERO
    ensures Idle(m, ms, n) == m
  {
    if n > 0 {
      SilenceIsKept(m, ms, n - 1);
    }
  }

  // ---------- the stored ratios ----------

  /** A stored ratio is the stored hits over the stored attempts, and is stored once there are any. */
  ghost predicate RatioCurrent(h: Hash, ratio: Stat, hits: Stat, misses: Stat) {
    var attempts := h.At(hits) + h.At(misses);
    && (ratio in h.derived <==> attempts > 0)
    && (attempts > 0 ==> h.derived[ratio] == h.At(hits) as real / attempts as real)
  }

  ghost predicate RatiosCurrent(h: Hash) {
    RatioCurrent(h, ReadHitRatio, ReadHits, ReadMisses) && RatioCurrent(h, DeleteHitRatio, DeleteHits, DeleteMisses)
  }

  /** A stored average is the stored time over the stored number of calls, and is stored once there are any. */
  ghost predicate AverageCurrent(h: Hash, average: Stat, time: Stat, calls: nat) {
    && (average in h.derived <==> calls > 0)
    && (calls > 0 ==> h.derived[average] == h.At(time) as real / calls as real)
  }

  ghost predicate AveragesCurrent(h: Hash) {
    && AverageCurrent(h, WriteMsecsAvg, WriteMsecs, h.At(Writes))
    && AverageCurrent(h, ReadMsecsAvg, ReadMsecs, h.At(ReadHits) + h.At(ReadMisses))
    && AverageCurrent(h, DeleteMsecsAvg, DeleteMsecs, h.At(DeleteHits) + h.At(DeleteMisses))
  }

  lemma TickKeepsAverages(m: Monitor, ms: Stat -> nat)
    requires AveragesCurrent(m.hash)
    ensures AveragesCurrent(UpdateRegionStats(m, ms).hash)
  {
    var m1 := MoveWrites(m.(local := ZERO), m.local, ms);
    var m2 := MoveReads(m1, m.local, ms);
    MoveWritesKeepsAverages(m.(local := ZERO), m.local, ms);
    MoveReadsKeepsAverages(m1, m.local, ms);
    MoveDeletesKeepsAverages(m2, m.local, ms);
  }

  lemma MoveWritesKeepsAverages(m: Monitor, l: Counters, ms: Stat -> nat)
    requires AveragesCurrent(m.hash)
    ensures AveragesCurrent(MoveWrites(m, l, ms).hash)
  {
  }

  lemma MoveReadsOwn(m: Monitor, l: Counters, ms: Stat -> nat)
    requires AverageCurrent(m.hash, ReadMsecsAvg, ReadMsecs, m.hash.At(ReadHits) + m.hash.At(ReadMisses))
    ensures var h := MoveReads(m, l, ms).hash;
      AverageCurrent(h, ReadMsecsAvg, ReadMsecs, h.At(ReadHits) + h.At(ReadMisses))
  {
  }

  lemma MoveReadsOthers(m: Monitor, l: Counters, ms: Stat -> nat, k: Stat)
    requires k !in {ReadHits, ReadMisses, ReadMsecs, ReadHitRatio, ReadMsecsAvg}
    ensures var h := MoveReads(m, l, ms).hash;
      h.At(k) == m.hash.At(k) && (k in h.derived <==> k in m.hash.derived) && (k in h.derived ==> h.derived[k] == m.hash.derived[k])
  {
  }

  lemma MoveReadsKeepsAverages(m: Monitor, l: Counters, ms: Stat -> nat)
    requires AveragesCurrent(m.hash)
    ensures AveragesCurrent(MoveReads(m, l, ms).hash)
  {
    MoveReadsOwn(m, l, ms);
    MoveReadsOthers(m, l, ms, Writes);
    MoveReadsOthers(m, l, ms, WriteMsecs);
    MoveReadsOthers(m, l, ms, WriteMsecsAvg);
    MoveReadsOthers(m, l, ms, DeleteHits);
    MoveReadsOthers(m, l, ms, DeleteMisses);
    MoveReadsOthers(m, l, ms, DeleteMsecs);
    MoveReadsOthers(m, l, ms, DeleteMsecsAvg);
  }

  lemma MoveDeletesOwn(m: Monitor, l: Counters, ms: Stat -> nat)
    requires AverageCurrent(m.hash, DeleteMsecsAvg, DeleteMsecs, m.hash.At(DeleteHits) + m.hash.At(DeleteMisses))
    ensures var h := MoveDeletes(m, l, ms).hash;
      AverageCurrent(h, DeleteMsecsAvg, DeleteMsecs, h.At(DeleteHits) + h.At(DeleteMisses))
  {
  }

  lemma MoveDeletesOthers(m: Monitor, l: Counters, ms: Stat -> nat, k: Stat)
    requires k !in {DeleteHits, DeleteMisses, DeleteMsecs, DeleteHitRatio, DeleteMsecsAvg}
    ensures var h := MoveDeletes(m, l, ms).hash;
      h.At(k) == m.hash.At(k) && (k in h.derived <==> k in m.hash.derived) && (k in h.derived ==> h.derived[k] == m.hash.derived[k])
  {
  }

  lemma MoveDeletesKeepsAverages(m: Monitor, l: Counters, ms: Stat -> nat)
    requires AveragesCurrent(m.hash)
    ensures AveragesCurrent(MoveDeletes(m, l, ms).hash)
  {
    MoveDeletesOwn(m, l, ms);
    MoveDeletesOthers(m, l, ms, Writes);
    MoveDeletesOthers(m, l, ms, WriteMsecs);
    MoveDeletesOthers(m, l, ms, WriteMsecsAvg);
    MoveDeletesOthers(m, l, ms, ReadHits);
    MoveDeletesOthers(m, l, ms, ReadMisses);
    MoveDeletesOthers(m, l, ms, ReadMsecs);
    MoveDeletesOthers(m, l, ms, ReadMsecsAvg);
  }

  /** In every run, resets and the loss of the hash included, the three stored averages are current. */
  lemma {:induction false} AveragesStayCurrent(m: Monitor, events: seq<Event>)
    requires AveragesCurrent(m.hash)
    requires forall i :: 0 <= i < |events| && events[i].Reset? ==> Ordered(events[i].keys)
    ensures AveragesCurrent(Run(m, events).hash)
    decreases events
  {
    if events != [] {
      var e := events[0];
      if e.Tick? {
        TickKeepsAverages(m, e.callMs);
      } else if e.Reset? {
        ResetEmptiesHash(m, e.keys, e.removeMs);
      }
      AveragesStayCurrent(Step(m, e), events[1..]);
    }
  }

  lemma TickKeepsRatios(m: Monitor, ms: Stat -> nat)
    requires RatiosCurrent(m.hash)
    ensures RatiosCurrent(UpdateRegionStats(m, ms).hash)
  {
    var m1 := MoveWrites(m.(local := ZERO), m.local, ms);
    var m2 := MoveReads(m1, m.local, ms);
    MoveWritesKeepsRatios(m.(local := ZERO), m.local, ms);
    MoveReadsKeepsRatios(m1, m.local, ms);
    MoveDeletesKeepsRatios(m2, m.local, ms);
  }

  lemma MoveWritesKeepsRatios(m: Monitor, l: Counters, ms: Stat -> nat)
    requires RatiosCurrent(m.hash)
    ensures RatiosCurrent(MoveWrites(m, l, ms).hash)
  {
  }

  lemma MoveReadsKeepsRatios(m: Monitor, l: Counters, ms: Stat -> nat)
    requires RatiosCurrent(m.hash)
    ensures RatiosCurrent(MoveReads(m, l, ms).hash)
  {
  }

  lemma MoveDeletesKeepsRatios(m: Monitor, l: Counters, ms: Stat -> nat)
    requires RatiosCurrent(m.hash)
    ensures RatiosCurrent(MoveDeletes(m, l, ms).hash)
  {
  }

  lemma StepKeepsRatios(m: Monitor, e: Event)
    requires RatiosCurrent(m.hash) && (e.Reset? ==> Ordered(e.keys))
    ensures RatiosCurrent(Step(m, e).hash)
  {
    if e.Tick? {
      TickKeepsRatios(m, e.callMs);
    } else if e.Reset? {
      ResetEmptiesHash(m, e.keys, e.removeMs);
    }
  }

  ghost predicate RatiosBounded(h: Hash) {
    && (ReadHitRatio in h.derived ==> 0.0 <= h.derived[ReadHitRatio] <= 1.0)
    && (DeleteHitRatio in h.derived ==> 0.0 <= h.derived[DeleteHitRatio] <= 1.0)
  }

  lemma CurrentIsBounded(h: Hash)
    requires RatiosCurrent(h)
    ensures RatiosBounded(h)
  {
    FractionBounds(h.At(ReadHits), h.At(ReadMisses));
    FractionBounds(h.At(DeleteHits), h.At(DeleteMisses));
  }

  /**
   * In every run, resets and the loss of the hash included, the stored hit ratios equal the cumulative
   * hits over attempts, and lie in [0, 1].
   */
  lemma {:induction false} RatiosStayCurrent(m: Monitor, events: seq<Event>)
    requires RatiosCurrent(m.hash)
    requires forall i :: 0 <= i < |events| && events[i].Reset? ==> Ordered(events[i].keys)
    ensures RatiosCurrent(Run(m, events).hash) && RatiosBounded(Run(m, events).hash)
    decreases events
  {
    if events != [] {
      StepKeepsRatios(m, events[0]);
      RatiosStayCurrent(Step(m, events[0]), events[1..]);
    } else {
      CurrentIsBounded(m.hash);
    }
  }

  lemma FractionBounds(a: nat, b: nat)
    requires a + b > 0 || a == b == 0
    ensures a + b > 0 ==> 0.0 <= a as real / (a + b) as real <= 1.0
  {
    if a + b > 0 {
      var x, y := a as real, (a + b) as real;
      assert x / y * y == x;
      assert 0.0 <= x <= y;
    }
  }

  // ---------- reset ----------

  lemma {:induction false} PresentWithout(h: Hash, k: Stat, keys: seq<Stat>)
    requires k !in keys
    ensures Present(h.Without(k), keys) == Present(h, keys)
    ensures Missing(h.Without(k), keys) == Missing(h, keys)
  {
    if keys != [] {
      PresentWithout(h, k, keys[1..]);
    }
  }

  lemma {:induction false} PresentOrMissing(h: Hash, keys: seq<Stat>)
    ensures Present(h, keys) + Missing(h, keys) == |keys|
    ensures h == NO_HASH ==> Present(h, keys) == 0
  {
    if keys != [] {
      PresentOrMissing(h, keys[1..]);
    }
  }

  lemma {:induction false} ResetTail(m: Monitor, keys: seq<Stat>, ms: Stat -> nat)
    requires NoDuplicates(keys) && DeleteHits !in keys && DeleteMisses !in keys
    ensures var l := ResetFrom(m, keys, ms).local;
      && l.deleteHits == m.local.deleteHits + Present(m.hash, keys)
      && l.deleteMisses == m.local.deleteMisses + Missing(m.hash, keys)
    decreases keys
  {
    if keys != [] {
      PresentWithout(m.hash, keys[0], keys[1..]);
      ResetTail(ResetOne(m, keys[0], ms(keys[0])), keys[1..], ms);
    }
  }

  lemma {:induction false} ResetTime(m: Monitor, keys: seq<Stat>, ms: Stat -> nat)
    requires DeleteMsecs !in keys
    ensures ResetFrom(m, keys, ms).local.deleteMsecs == m.local.deleteMsecs + Durations(keys, ms)
    decreases keys
  {
    if keys != [] {
      ResetTime(ResetOne(m, keys[0], ms(keys[0])), keys[1..], ms);
    }
  }

  lemma {:induction false} ResetClears(m: Monitor, keys: seq<Stat>, ms: Stat -> nat, k: Stat)
    requires k !in {DeleteHits, DeleteMisses, DeleteMsecs}
    requires k in keys || m.local.At(k) == 0
    ensures ResetFrom(m, keys, ms).local.At(k) == 0
    decreases keys
  {
    if keys != [] {
      ResetClears(ResetOne(m, keys[0], ms(keys[0])), keys[1..], ms, k);
    }
  }

  lemma {:induction false} ResetConcat(m: Monitor, a: seq<Stat>, b: seq<Stat>, ms: Stat -> nat)
    ensures ResetFrom(m, a + b, ms) == ResetFrom(ResetFrom(m, a, ms), b, ms)
    decreases a
  {
    if a == [] {
      assert a + b == b;
    } else {
      assert (a + b)[1..] == a[1..] + b;
      ResetConcat(ResetOne(m, a[0], ms(a[0])), a[1..], b, ms);
    }
  }

  lemma ResetCons(m: Monitor, k: Stat, rest: seq<Stat>, ms: Stat -> nat)
    ensures ResetFrom(m, [k] + rest, ms) == ResetFrom(ResetOne(m, k, ms(k)), rest, ms)
  {
    assert ([k] + rest)[1..] == rest;
  }

  /** The delete counters' own turn: of all deletes before it, only its own removals survive. */
  lemma DeleteCountersTurn(m: Monitor, a: nat, b: nat)
    ensures var m' := ResetOne(ResetOne(m, DeleteHits, a), DeleteMisses, b);
      && m'.local.deleteHits == (if m.hash.Has(DeleteHits) then 1 else 0) + (if m.hash.Has(DeleteMisses) then 1 else 0)
      && m'.local.deleteMisses == (if m.hash.Has(DeleteMisses) then 0 else 1)
      && m'.hash == m.hash.Without(DeleteHits).Without(DeleteMisses)
  {
  }

  /** A reset removes the fields of its keys and no others. */
  lemma {:induction false} ResetKeeps(m: Monitor, keys: seq<Stat>, ms: Stat -> nat, k: Stat)
    ensures ResetFrom(m, keys, ms).hash.Has(k) == (m.hash.Has(k) && k !in keys)
    decreases keys
  {
    if keys != [] {
      ResetKeeps(ResetOne(m, keys[0], ms(keys[0])), keys[1..], ms, k);
    }
  }

  lemma {:induction false} PresentAfter(m: Monitor, first: seq<Stat>, keys: seq<Stat>, ms: Stat -> nat)
    requires forall k :: k in keys ==> k !in first
    ensures Present(ResetFrom(m, first, ms).hash, keys) == Present(m.hash, keys)
    ensures Missing(ResetFrom(m, first, ms).hash, keys) == Missing(m.hash, keys)
  {
    if keys != [] {
      ResetKeeps(m, first, ms, keys[0]);
      PresentAfter(m, first, keys[1..], ms);
    }
  }

  lemma ResetDeleteCounters(m: Monitor, first: seq<Stat>, last: seq<Stat>, ms: Stat -> nat)
    requires NoDuplicates(last) && DeleteHits !in first && DeleteMisses !in first
    requires DeleteHits !in last && DeleteMisses !in last && forall k :: k in last ==> k !in first
    ensures var l := ResetFrom(m, first + ([DeleteHits] + ([DeleteMisses] + last)), ms).local;
      && l.deleteHits == (if m.hash.Has(DeleteHits) then 1 else 0) + (if m.hash.Has(DeleteMisses) then 1 else 0) + Present(m.hash, last)
      && l.deleteMisses == (if m.hash.Has(DeleteMisses) then 0 else 1) + Missing(m.hash, last)
  {
    var m1 := ResetFrom(m, first, ms);
    ResetConcat(m, first, [DeleteHits] + ([DeleteMisses] + last), ms);
    ResetKeeps(m, first, ms, DeleteHits);
    ResetKeeps(m, first, ms, DeleteMisses);
    ResetCons(m1, DeleteHits, [DeleteMisses] + last, ms);
    ResetCons(ResetOne(m1, DeleteHits, ms(DeleteHits)), DeleteMisses, last, ms);
    DeleteCountersTurn(m1, ms(DeleteHits), ms(DeleteMisses));
    ResetTail(ResetOne(ResetOne(m1, DeleteHits, ms(DeleteHits)), DeleteMisses, ms(DeleteMisses)), last, ms);
    PresentWithout(m1.hash, DeleteHits, last);
    PresentWithout(m1.hash.Without(DeleteHits), DeleteMisses, last);
    PresentAfter(m, first, last, ms);
  }

  lemma ResetDeleteTime(m: Monitor, first: seq<Stat>, last: seq<Stat>, ms: Stat -> nat)
    requires DeleteMsecs !in last
    ensures ResetFrom(m, first + ([DeleteMsecs] + last), ms).local.deleteMsecs == ms(DeleteMsecs) + Durations(last, ms)
  {
    var m1 := ResetFrom(m, first, ms);
    ResetConcat(m, first, [DeleteMsecs] + last, ms);
    ResetCons(m1, DeleteMsecs, last, ms);
    ResetTime(ResetOne(m1, DeleteMsecs, ms(DeleteMsecs)), last, ms);
  }

  lemma {:induction false} SplitAt(keys: seq<Stat>, k: Stat)
    requires k in keys
    ensures keys == Before(keys, k) + ([k] + After(keys, k))
  {
    if keys[0] != k {
      SplitAt(keys[1..], k);
      assert keys == [keys[0]] + keys[1..];
    }
  }

  lemma PartsApart(keys: seq<Stat>, k: Stat)
    requires NoDuplicates(keys) && k in keys
    ensures k !in Before(keys, k) && k !in After(keys, k) && NoDuplicates(After(keys, k))
    ensures forall x :: x in After(keys, k) ==> x !in Before(keys, k)
  {
    SplitAt(keys, k);
    var a, b := Before(keys, k), After(keys, k);
    assert forall i :: 0 <= i < |a| ==> a[i] == keys[i];
    assert keys[|a|] == k;
    assert forall i :: 0 <= i < |b| ==> b[i] == keys[|a| + 1 + i];
  }

  /** A reset of all keys empties the hash. */
  lemma ResetEmptiesHash(m: Monitor, keys: seq<Stat>, ms: Stat -> nat)
    requires forall k: Stat :: k in keys
    ensures ResetFrom(m, keys, ms).hash == NO_HASH
  {
    var h := ResetFrom(m, keys, ms).hash;
    forall k: Stat
      ensures k !in h.counts && k !in h.derived
    {
      ResetKeeps(m, keys, ms, k);
      assert !h.Has(k);
    }
    assert h.counts == map[] && h.derived == map[];
  }

  lemma ResetCounts(m: Monitor, keys: seq<Stat>, ms: Stat -> nat)
    requires Ordered(keys)
    ensures var l, counts := ResetFrom(m, keys, ms).local, After(keys, DeleteMisses);
      && l.deleteHits == Leftover(m.hash, counts, [], ms, DeleteHits)
      && l.deleteMisses == Leftover(m.hash, counts, [], ms, DeleteMisses)
  {
    SplitAt(keys, DeleteHits);
    PartsApart(keys, DeleteHits);
    PartsApart(keys, DeleteMisses);
    var first, counts := Before(keys, DeleteHits), After(keys, DeleteMisses);
    assert DeleteMisses in After(keys, DeleteHits) && forall k :: k in counts ==> k in After(keys, DeleteHits);
    ResetDeleteCounters(m, first, counts, ms);
  }

  /** What a reset leaves, counter by counter: only its own last removals. */
  lemma ResetTotal(m: Monitor, keys: seq<Stat>, ms: Stat -> nat, k: Stat)
    requires Ordered(keys)
    ensures ResetFrom(m, keys, ms).Total(k) == ResetFrom(m, keys, ms).local.At(k) ==
      Leftover(m.hash, After(keys, DeleteMisses), After(keys, DeleteMsecs), ms, k)
  {
    ResetEmptiesHash(m, keys, ms);
    if k == DeleteHits || k == DeleteMisses {
      ResetCounts(m, keys, ms);
    } else if k == DeleteMsecs {
      SplitAt(keys, k);
      PartsApart(keys, k);
      ResetDeleteTime(m, Before(keys, k), After(keys, k), ms);
    } else {
      ResetClears(m, keys, ms, k);
    }
  }

  function Place(k: Stat): nat {
    match k
    case ReadHits => 0 case ReadMisses => 1 case ReadHitRatio => 2 case ReadMsecs => 3 case ReadMsecsAvg => 4
    case DeleteHits => 5 case DeleteMisses => 6 case DeleteHitRatio => 7 case DeleteMsecs => 8 case DeleteMsecsAvg => 9
    case Writes => 10 case WriteMsecs => 11 case WriteMsecsAvg => 12
  }

  lemma StatKeyAt(k: Stat)
    ensures Place(k) < |STAT_KEYS| && STAT_KEYS[Place(k)] == k
  {
  }

  lemma PlaceAt(i: nat)
    requires i < |STAT_KEYS|
    ensures Place(STAT_KEYS[i]) == i
  {
  }

  lemma {:induction false} AfterPlace(keys: seq<Stat>, i: nat)
    requires i < |keys| && NoDuplicates(keys)
    ensures After(keys, keys[i]) == keys[i + 1..]
  {
    if i > 0 {
      assert keys[0] != keys[i] && keys[1..][i - 1] == keys[i];
      AfterPlace(keys[1..], i - 1);
      assert keys[1..][i..] == keys[i + 1..];
    }
  }

  lemma StatKeysDistinct(keys: seq<Stat>)
    requires keys == STAT_KEYS
    ensures NoDuplicates(keys) && forall k: Stat :: k in keys
  {
    forall k: Stat
      ensures k in keys
    {
      StatKeyAt(k);
      assert keys[Place(k)] == k;
    }
    forall i, j | 0 <= i < j < |keys|
      ensures keys[i] != keys[j]
    {
      PlaceAt(i);
      PlaceAt(j);
    }
  }

  lemma OrderedAt(keys: seq<Stat>)
    requires NoDuplicates(keys) && (forall k: Stat :: k in keys) && |keys| == 13
    requires keys[5] == DeleteHits && keys[6] == DeleteMisses
    ensures Ordered(keys) && |After(keys, DeleteMisses)| == 6
  {
    AfterPlace(keys, 5);
    AfterPlace(keys, 6);
    assert keys[6..] == [keys[6]] + keys[7..];
  }

  /** The list in use is such a list, and six keys follow the delete misses in it. */
  lemma StatKeysOrdered(keys: seq<Stat>)
    requires keys == STAT_KEYS
    ensures Ordered(keys) && |After(keys, DeleteMisses)| == 6
  {
    StatKeysDistinct(keys);
    OrderedAt(keys);
  }

  /**
   * `Reset` does not leave the counters at zero: each removal of a hash field is counted as a
   * delete, and those after the delete counters' own turn stay. After flushing a region, whose
   * hash is already gone, exactly 7 delete misses are left behind and nothing else is counted.
   */
  lemma ResetLeavesPhantomDeletes(m: Monitor, keys: seq<Stat>, ms: Stat -> nat)
    requires Ordered(keys) && |After(keys, DeleteMisses)| == 6
    ensures var l := ResetFrom(m, keys, ms).local;
      && l.writes == 0 && l.writeMsecs == 0 && !l.HasReads() && l.readMsecs == 0
      && l.deleteHits + l.deleteMisses == 7 + (if m.hash.Has(DeleteHits) then 1 else 0)
      && (m.hash == NO_HASH ==> l.deleteHits == 0 && l.deleteMisses == 7)
  {
    ResetTotal(m, keys, ms, Writes);
    ResetTotal(m, keys, ms, WriteMsecs);
    ResetTotal(m, keys, ms, ReadHits);
    ResetTotal(m, keys, ms, ReadMisses);
    ResetTotal(m, keys, ms, ReadMsecs);
    ResetCounts(m, keys, ms);
    PresentOrMissing(m.hash, After(keys, DeleteMisses));
  }

  /** So does the reset in use, which goes through `STAT_KEYS`. */
  lemma ResetInUse(m: Monitor, keys: seq<Stat>, ms: Stat -> nat)
    requires keys == STAT_KEYS
    ensures var l := ResetFrom(m, keys, ms).local;
      && l.writes == 0 && l.writeMsecs == 0 && !l.HasReads() && l.readMsecs == 0
      && l.deleteHits + l.deleteMisses == 7 + (if m.hash.Has(DeleteHits) then 1 else 0)
      && (m.hash == NO_HASH ==> l.deleteHits == 0 && l.deleteMisses == 7)
  {
    StatKeysOrdered(keys);
    ResetLeavesPhantomDeletes(m, keys, ms);
  }
}
