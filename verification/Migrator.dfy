/**
 * The cache migrator: one dispatcher that starts workers up to a cap, and the workers, as a
 * machine whose steps are the atomic actions of the source. Any interleaving is a run.
 */
module Migrator {
  import opened CachePath

  /** Where a worker stands in `ThreadProc`. */
  datatype Phase =
    | Queued    // not started
    | Counted   // counted as queried
    | Absent    // its file did not exist
    | Fetched   // its row holds data
    | Wrote     // its file is written
    | Closing   // about to release its thread
    | Done

  datatype Worker = Worker(id: int, phase: Phase)

  /** The dispatcher: waiting for a free thread, past the test, or holding a thread it has counted. */
  datatype Dispatcher = Waiting | Cleared | Holding

  /** The whole machine; `before` are the files that were there at the start. */
  datatype Sys = Sys(
    cap: int, root: string, start: int, rows: map<int, string>,
    dispatcher: Dispatcher, workers: seq<Worker>, threads: int,
    queried: nat, written: nat, skipped: nat, present: nat,
    before: map<string, string>, files: map<string, string>, overwrites: nat)

  /** The i-th ID dispatched: a 32-bit counter that wraps. */
  function IdAt(start: int, i: nat): (id: int)
    ensures IsInt32(id)
  {
    (start + i + 0x8000_0000) % 0x1_0000_0000 - 0x8000_0000
  }

  datatype Action = Test | Count | Queue | Work(i: nat)

  predicate Enabled(s: Sys, a: Action) {
    match a
    case Test => s.dispatcher.Waiting? && s.threads < s.cap
    case Count => s.dispatcher.Cleared?
    case Queue => s.dispatcher.Holding?
    case Work(i) => i < |s.workers| && s.workers[i].phase != Done && IsInt32(s.workers[i].id)
  }

  function Next(s: Sys, a: Action): Sys
    requires Enabled(s, a)
  {
    match a
    case Test => s.(dispatcher := Cleared)
    case Count => s.(dispatcher := Holding, threads := s.threads + 1)
    case Queue => s.(dispatcher := Waiting, workers := s.workers + [Worker(IdAt(s.start, |s.workers|), Queued)])
    case Work(i) => WorkStep(s, i)
  }

  function Moved(s: Sys, i: nat, phase: Phase): Sys
    requires i < |s.workers|
  {
    s.(workers := s.workers[i := s.workers[i].(phase := phase)])
  }

  /** One action of worker `i`. */
  function WorkStep(s: Sys, i: nat): Sys
    requires i < |s.workers| && s.workers[i].phase != Done && IsInt32(s.workers[i].id)
  {
    WorkAt(s, i, FilePath(s.root, s.workers[i].id))
  }

  function WorkAt(s: Sys, i: nat, path: string): Sys
    requires i < |s.workers| && s.workers[i].phase != Done
  {
    var id := s.workers[i].id;
    match s.workers[i].phase
    case Queued => Moved(s, i, Counted).(queried := s.queried + 1)
    case Counted => if path in s.files then Moved(s, i, Closing).(present := s.present + 1) else Moved(s, i, Absent)
    case Absent => if id in s.rows then Moved(s, i, Fetched) else Moved(s, i, Closing).(skipped := s.skipped + 1)
    case Fetched =>
      Moved(s, i, Wrote).(files := s.files[path := if id in s.rows then s.rows[id] else ""],
                          overwrites := s.overwrites + (if path in s.files then 1 else 0))
    case Wrote => Moved(s, i, Closing).(written := s.written + 1)
    case Closing => Moved(s, i, Done).(threads := s.threads - 1)
  }

  ghost predicate Run(s: Sys, actions: seq<Action>)
    decreases actions
  {
    actions == [] || (Enabled(s, actions[0]) && Run(Next(s, actions[0]), actions[1..]))
  }

  ghost function After(s: Sys, actions: seq<Action>): Sys
    requires Run(s, actions)
    decreases actions
  {
    if actions == [] then s else After(Next(s, actions[0]), actions[1..])
  }

  // ---------- counting workers ----------

  predicate InFlight(p: Phase) { p != Done }

  /** Counted as queried but not yet as written, skipped or present. */
  predicate Undecided(p: Phase) { p in {Counted, Absent, Fetched, Wrote} }

  predicate Started(p: Phase) { p != Queued }

  function Tally(workers: seq<Worker>, p: Phase -> bool): nat {
    if workers == [] then 0
    else Tally(workers[..|workers| - 1], p) + (if p(workers[|workers| - 1].phase) then 1 else 0)
  }

  lemma {:induction false} TallyMoved(workers: seq<Worker>, i: nat, phase: Phase, p: Phase -> bool)
    requires i < |workers|
    ensures Tally(workers[i := workers[i].(phase := phase)], p) + (if p(workers[i].phase) then 1 else 0) ==
            Tally(workers, p) + (if p(phase) then 1 else 0)
  {
    var n := |workers| - 1;
    var workers' := workers[i := workers[i].(phase := phase)];
    if i == n {
      assert workers'[..n] == workers[..n];
    } else {
      assert workers'[..n] == workers[..n][i := workers[..n][i].(phase := phase)];
      TallyMoved(workers[..n], i, phase, p);
    }
  }

  lemma TallyQueued(workers: seq<Worker>, w: Worker, p: Phase -> bool)
    ensures Tally(workers + [w], p) == Tally(workers, p) + (if p(w.phase) then 1 else 0)
  {
    assert (workers + [w])[..|workers|] == workers;
  }

  lemma {:induction false} TallyAll(workers: seq<Worker>, p: Phase -> bool, yes: bool)
    requires forall i :: 0 <= i < |workers| ==> p(workers[i].phase) == yes
    ensures Tally(workers, p) == if yes then |workers| else 0
  {
    if workers != [] {
      TallyAll(workers[..|workers| - 1], p, yes);
    }
  }

  // ---------- the invariant ----------

  /** The thread counter equals the work in flight and never exceeds the cap. */
  ghost predicate ThreadsAccounted(s: Sys) {
    && s.threads == Tally(s.workers, InFlight) + (if s.dispatcher.Holding? then 1 else 0)
    && s.threads <= s.cap && (s.dispatcher.Cleared? ==> s.threads < s.cap)
  }

  /** IDs are dispatched consecutively. */
  ghost predicate IdsConsecutive(s: Sys) {
    forall i :: 0 <= i < |s.workers| ==> s.workers[i].id == IdAt(s.start, i)
  }

  ghost predicate QueriesAccounted(s: Sys) {
    && s.queried == Tally(s.workers, Started)
    && s.queried == s.written + s.skipped + s.present + Tally(s.workers, Undecided)
  }

  /** A worker about to write has no file yet, and one that is through has its file if it has a row. */
  ghost predicate FilesAccounted(s: Sys) {
    && s.overwrites == 0
    && forall i :: 0 <= i < |s.workers| && IsInt32(s.workers[i].id) ==> FileAccounted(s, s.workers[i])
  }

  ghost predicate FileAccounted(s: Sys, w: Worker)
    requires IsInt32(w.id)
  {
    var path := FilePath(s.root, w.id);
    match w.phase
    case Queued => true
    case Counted => true
    case Absent => path !in s.files
    case Fetched => path !in s.files && w.id in s.rows
    case Wrote => path in s.files
    case Closing => w.id in s.rows ==> path in s.files
    case Done => w.id in s.rows ==> path in s.files
  }

  /** Worker `i` has written its row to the file. */
  ghost predicate WrittenBy(s: Sys, i: nat, path: string) {
    && i < |s.workers| && IsInt32(s.workers[i].id) && path == FilePath(s.root, s.workers[i].id)
    && s.workers[i].id in s.rows && path in s.files && s.files[path] == s.rows[s.workers[i].id]
  }

  /** The files of the start are as they were, and every other file holds the row of its worker. */
  ghost predicate FilesTraced(s: Sys) {
    && (forall p :: p in s.before ==> p in s.files && s.files[p] == s.before[p])
    && (forall p :: p in s.files ==> p in s.before || exists i :: WrittenBy(s, i, p))
  }

  ghost predicate Inv(s: Sys) {
    ThreadsAccounted(s) && IdsConsecutive(s) && QueriesAccounted(s) && FilesAccounted(s) && FilesTraced(s) && FatesAccounted(s)
  }

  // ---------- what becomes of each ID ----------

  /** Its file was there from the start, or it has no row, or its row is to be written. */
  datatype Fate = WasThere | NoRow | ToWrite

  function FateOf(root: string, before: map<string, string>, rows: map<int, string>, id: int): Fate
    requires IsInt32(id)
  {
    if FilePath(root, id) in before then WasThere else if id in rows then ToWrite else NoRow
  }

  predicate Through(p: Phase) { p == Closing || p == Done }

  /** The fate of every ID. */
  function Fates(root: string, before: map<string, string>, rows: map<int, string>): int -> Fate {
    (id: int) => if IsInt32(id) then FateOf(root, before, rows, id) else NoRow
  }

  /** How many of the workers are through with an ID of that fate. */
  function EndedBy(fates: int -> Fate, workers: seq<Worker>, fate: Fate): nat {
    if workers == [] then 0
    else EndedBy(fates, workers[..|workers| - 1], fate) + (if Ended(fates, workers[|workers| - 1], fate) then 1 else 0)
  }

  predicate Ended(fates: int -> Fate, w: Worker, fate: Fate) {
    Through(w.phase) && fates(w.id) == fate
  }

  /** A worker that has not written finds its file only if it was there, and one that writes had a row and no file. */
  ghost predicate FateKnown(s: Sys, w: Worker)
    requires IsInt32(w.id)
  {
    var path := FilePath(s.root, w.id);
    match w.phase
    case Queued => path in s.files ==> path in s.before
    case Counted => path in s.files ==> path in s.before
    case Wrote => path !in s.before && w.id in s.rows
    case _ => true
  }

  /** Each counter is the number of IDs of its own fate. */
  ghost predicate FatesAccounted(s: Sys) {
    && (forall fate :: FateAccounted(s, fate))
    && (forall i :: 0 <= i < |s.workers| && IsInt32(s.workers[i].id) ==> FateKnown(s, s.workers[i]))
  }

  ghost predicate FateAccounted(s: Sys, fate: Fate) {
    CounterOf(s, fate) == EndedBy(Fates(s.root, s.before, s.rows), s.workers, fate)
  }

  lemma {:induction false} EndedByMoved(fates: int -> Fate, workers: seq<Worker>, i: nat, phase: Phase, fate: Fate)
    requires i < |workers|
    ensures var w := workers[i].(phase := phase);
      EndedBy(fates, workers[i := w], fate) + (if Ended(fates, workers[i], fate) then 1 else 0) ==
      EndedBy(fates, workers, fate) + (if Ended(fates, w, fate) then 1 else 0)
  {
    var n := |workers| - 1;
    var workers' := workers[i := workers[i].(phase := phase)];
    if i == n {
      assert workers'[..n] == workers[..n];
    } else {
      assert workers'[..n] == workers[..n][i := workers[..n][i].(phase := phase)];
      EndedByMoved(fates, workers[..n], i, phase, fate);
    }
  }

  /** The counter of the fate. */
  function CounterOf(s: Sys, fate: Fate): nat {
    match fate
    case WasThere => s.present
    case NoRow => s.skipped
    case ToWrite => s.written
  }

  /** An action that ends a worker raises the counter of its ID's fate, and no action raises another. */
  lemma WorkCountsFate(s: Sys, i: nat, path: string, fate: Fate)
    requires i < |s.workers| && s.workers[i].phase != Done && IsInt32(s.workers[i].id) && path == FilePath(s.root, s.workers[i].id)
    requires FileAccounted(s, s.workers[i]) && FateKnown(s, s.workers[i]) && forall p :: p in s.before ==> p in s.files
    ensures var ends := !Through(s.workers[i].phase) && Through(PhaseAfter(s, i, path));
      CounterOf(WorkAt(s, i, path), fate) ==
      CounterOf(s, fate) + (if ends && FateOf(s.root, s.before, s.rows, s.workers[i].id) == fate then 1 else 0)
  {
  }

  lemma WorkKeepsFate(s: Sys, i: nat, path: string, fate: Fate)
    requires i < |s.workers| && s.workers[i].phase != Done && IsInt32(s.workers[i].id) && path == FilePath(s.root, s.workers[i].id)
    requires FileAccounted(s, s.workers[i]) && FateKnown(s, s.workers[i]) && forall p :: p in s.before ==> p in s.files
    requires FateAccounted(s, fate)
    ensures FateAccounted(WorkAt(s, i, path), fate)
  {
    WorkCountsFate(s, i, path, fate);
    WorkCounts(s, i, path);
    WorkKeepsInputs(s, i, path);
    EndedByMoved(Fates(s.root, s.before, s.rows), s.workers, i, PhaseAfter(s, i, path), fate);
  }

  lemma WorkKeepsKnown(s: Sys, i: nat, j: nat)
    requires Enabled(s, Work(i)) && IdsConsecutive(s) && |s.workers| <= 0x1_0000_0000 && j < |s.workers|
    requires FileAccounted(s, s.workers[i]) && forall p :: p in s.before ==> p in s.files
    requires IsInt32(s.workers[j].id) && FateKnown(s, s.workers[i]) && FateKnown(s, s.workers[j])
    ensures var s' := WorkStep(s, i); j < |s'.workers| && IsInt32(s'.workers[j].id) && FateKnown(s', s'.workers[j])
  {
    var path := FilePath(s.root, s.workers[i].id);
    WorkKeepsRest(s, i, path);
    WorkCounts(s, i, path);
    if j != i {
      DistinctFiles(s, i, j);
    }
  }

  lemma WorkKeepsFates(s: Sys, i: nat)
    requires Enabled(s, Work(i)) && IdsConsecutive(s) && |s.workers| <= 0x1_0000_0000
    requires FilesAccounted(s) && FilesTraced(s) && FatesAccounted(s)
    ensures FatesAccounted(WorkStep(s, i))
  {
    var s', path := WorkStep(s, i), FilePath(s.root, s.workers[i].id);
    assert FileAccounted(s, s.workers[i]) && FateKnown(s, s.workers[i]);
    forall fate
      ensures FateAccounted(s', fate)
    {
      assert FateAccounted(s, fate);
      WorkKeepsFate(s, i, path, fate);
    }
    WorkKeepsIds(s, i, path);
    forall j | 0 <= j < |s'.workers| && IsInt32(s'.workers[j].id)
      ensures FateKnown(s', s'.workers[j])
    {
      assert s.workers[j].id == IdAt(s.start, j);
      assert FateKnown(s, s.workers[j]);
      WorkKeepsKnown(s, i, j);
    }
  }

  lemma QueueAddsNone(fates: int -> Fate, workers: seq<Worker>, w: Worker, fate: Fate)
    requires w.phase == Queued
    ensures EndedBy(fates, workers + [w], fate) == EndedBy(fates, workers, fate)
  {
    assert (workers + [w])[..|workers|] == workers;
  }

  lemma WriterHasId(s: Sys, j: nat, id: int, path: string)
    requires IsInt32(id) && path == FilePath(s.root, id) && WrittenBy(s, j, path)
    ensures s.workers[j].id == id
  {
    PathInjective(s.root, s.workers[j].id, id);
  }

  /** No worker has written the file of an ID that none of them has. */
  lemma NewIsUnwritten(s: Sys, id: int, path: string)
    requires FilesTraced(s) && IsInt32(id) && path == FilePath(s.root, id)
    requires forall j :: 0 <= j < |s.workers| ==> s.workers[j].id != id
    ensures path in s.files ==> path in s.before
  {
    if path in s.files && path !in s.before {
      var j :| WrittenBy(s, j, path);
      WriterHasId(s, j, id, path);
    }
  }

  lemma NextIsNew(s: Sys)
    requires IdsConsecutive(s) && |s.workers| < 0x1_0000_0000
    ensures forall j :: 0 <= j < |s.workers| ==> s.workers[j].id != IdAt(s.start, |s.workers|)
  {
    forall j | 0 <= j < |s.workers|
      ensures s.workers[j].id != IdAt(s.start, |s.workers|)
    {
      assert s.workers[j].id == IdAt(s.start, j);
      DistinctIds(s.start, j, |s.workers|);
    }
  }

  lemma NewWorkerKeepsFates(s: Sys, s': Sys, w: Worker)
    requires FatesAccounted(s) && s' == s.(dispatcher := s'.dispatcher, workers := s.workers + [w])
    requires w.phase == Queued && IsInt32(w.id) && (FilePath(s.root, w.id) in s.files ==> FilePath(s.root, w.id) in s.before)
    ensures FatesAccounted(s')
  {
    forall fate
      ensures FateAccounted(s', fate)
    {
      assert FateAccounted(s, fate);
      QueueAddsNone(Fates(s.root, s.before, s.rows), s.workers, w, fate);
    }
    forall j | 0 <= j < |s'.workers| && IsInt32(s'.workers[j].id)
      ensures FateKnown(s', s'.workers[j])
    {
      assert j < |s.workers| ==> s'.workers[j] == s.workers[j] && FateKnown(s, s.workers[j]);
    }
  }

  lemma QueueKeepsFates(s: Sys)
    requires Enabled(s, Queue) && IdsConsecutive(s) && FilesTraced(s) && FatesAccounted(s) && |s.workers| < 0x1_0000_0000
    ensures FatesAccounted(Next(s, Queue))
  {
    var w := Worker(IdAt(s.start, |s.workers|), Queued);
    NextIsNew(s);
    NewIsUnwritten(s, w.id, FilePath(s.root, w.id));
    NewWorkerKeepsFates(s, Next(s, Queue), w);
  }

  lemma DispatchKeepsFates(s: Sys, s': Sys)
    requires FatesAccounted(s) && s' == s.(dispatcher := s'.dispatcher, threads := s'.threads)
    ensures FatesAccounted(s')
  {
    forall fate
      ensures FateAccounted(s', fate)
    {
      assert FateAccounted(s, fate);
    }
    forall j | 0 <= j < |s'.workers| && IsInt32(s'.workers[j].id)
      ensures FateKnown(s', s'.workers[j])
    {
      assert FateKnown(s, s.workers[j]);
    }
  }

  /** The places of the workers whose ID has the fate. */
  ghost function PlacesOf(fates: int -> Fate, workers: seq<Worker>, fate: Fate): set<int> {
    set i | 0 <= i < |workers| && fates(workers[i].id) == fate
  }

  lemma PlacesOneMore(fates: int -> Fate, workers: seq<Worker>, w: Worker, fate: Fate)
    ensures var n, before := |workers|, PlacesOf(fates, workers, fate);
      n !in before && PlacesOf(fates, workers + [w], fate) == if fates(w.id) == fate then before + {n} else before
  {
    var n, before, after := |workers|, PlacesOf(fates, workers, fate), PlacesOf(fates, workers + [w], fate);
    forall i
      ensures i in after <==> i in before || (i == n && fates(w.id) == fate)
    {
      assert 0 <= i < n ==> (workers + [w])[i] == workers[i];
    }
  }

  lemma {:induction false} EndedByAll(fates: int -> Fate, workers: seq<Worker>, fate: Fate)
    requires forall i :: 0 <= i < |workers| ==> workers[i].phase == Done
    ensures EndedBy(fates, workers, fate) == |PlacesOf(fates, workers, fate)|
  {
    if workers == [] {
      assert PlacesOf(fates, [], fate) == {};
    } else {
      var n := |workers| - 1;
      EndedByAll(fates, workers[..n], fate);
      PlacesOneMore(fates, workers[..n], workers[n], fate);
      assert workers[..n] + [workers[n]] == workers;
    }
  }

  /** IDs count up by one and go round at the largest. */
  lemma IdsAscend(start: int, i: nat)
    ensures IsInt32(start) ==> IdAt(start, 0) == start
    ensures IdAt(start, i + 1) == if IdAt(start, i) == 0x7fff_ffff then -0x8000_0000 else IdAt(start, i) + 1
  {
  }

  predicate Initial(s: Sys) {
    && s.cap >= 1 && s.dispatcher.Waiting? && s.workers == [] && s.threads == 0
    && s.queried == 0 && s.written == 0 && s.skipped == 0 && s.present == 0 && s.overwrites == 0
    && s.files == s.before
  }

  /** Within one round of the 32-bit counter the IDs are distinct, hence so are their files. */
  lemma DistinctFiles(s: Sys, i: nat, j: nat)
    requires IdsConsecutive(s) && i < |s.workers| && j < |s.workers| && i != j && |s.workers| <= 0x1_0000_0000
    ensures IsInt32(s.workers[i].id) && IsInt32(s.workers[j].id)
    ensures FilePath(s.root, s.workers[i].id) != FilePath(s.root, s.workers[j].id)
  {
    DistinctIds(s.start, i, j);
    if FilePath(s.root, s.workers[i].id) == FilePath(s.root, s.workers[j].id) {
      PathInjective(s.root, s.workers[i].id, s.workers[j].id);
    }
  }

  lemma DistinctIds(start: int, i: nat, j: nat)
    requires i != j && i < 0x1_0000_0000 && j < 0x1_0000_0000
    ensures IdAt(start, i) != IdAt(start, j)
  {
  }

  function PhaseAfter(s: Sys, i: nat, path: string): Phase
    requires i < |s.workers| && s.workers[i].phase != Done
  {
    match s.workers[i].phase
    case Queued => Counted
    case Counted => if path in s.files then Closing else Absent
    case Absent => if s.workers[i].id in s.rows then Fetched else Closing
    case Fetched => Wrote
    case Wrote => Closing
    case Closing => Done
  }

  /** What a worker action does to the counters. */
  lemma WorkCounts(s: Sys, i: nat, path: string)
    requires i < |s.workers| && s.workers[i].phase != Done
    ensures var s', w := WorkAt(s, i, path), s.workers[i];
      && s'.workers == s.workers[i := w.(phase := PhaseAfter(s, i, path))]
      && s'.dispatcher == s.dispatcher && s'.cap == s.cap
      && s'.threads == s.threads - (if w.phase.Closing? then 1 else 0)
      && s'.queried == s.queried + (if w.phase.Queued? then 1 else 0)
      && s'.written + s'.skipped + s'.present ==
         s.written + s.skipped + s.present + (if !w.phase.Closing? && PhaseAfter(s, i, path).Closing? then 1 else 0)
  {
  }

  lemma WorkKeepsThreads(s: Sys, i: nat, path: string)
    requires i < |s.workers| && s.workers[i].phase != Done && ThreadsAccounted(s)
    ensures ThreadsAccounted(WorkAt(s, i, path))
  {
    WorkCounts(s, i, path);
    TallyMoved(s.workers, i, PhaseAfter(s, i, path), InFlight);
  }

  lemma WorkKeepsQueries(s: Sys, i: nat, path: string)
    requires i < |s.workers| && s.workers[i].phase != Done && QueriesAccounted(s)
    ensures QueriesAccounted(WorkAt(s, i, path))
  {
    WorkCounts(s, i, path);
    TallyMoved(s.workers, i, PhaseAfter(s, i, path), Started);
    TallyMoved(s.workers, i, PhaseAfter(s, i, path), Undecided);
  }

  lemma WorkKeepsFiles(s: Sys, i: nat)
    requires Enabled(s, Work(i)) && IdsConsecutive(s) && FilesAccounted(s) && |s.workers| <= 0x1_0000_0000
    ensures FilesAccounted(WorkStep(s, i))
  {
    var s' := WorkStep(s, i);
    assert FileAccounted(s, s.workers[i]);
    forall j | 0 <= j < |s'.workers| && IsInt32(s'.workers[j].id)
      ensures FileAccounted(s', s'.workers[j])
    {
      if j != i {
        assert s'.workers[j] == s.workers[j] && FileAccounted(s, s.workers[j]);
        DistinctFiles(s, i, j);
      }
    }
  }

  /** Files stay traced if none changes, or if a worker's row goes to a file that was not there. */
  lemma TraceKept(s: Sys, s': Sys, i: nat, path: string)
    requires FilesTraced(s) && i < |s.workers| && IsInt32(s.workers[i].id) && path == FilePath(s.root, s.workers[i].id)
    requires s'.before == s.before && s'.rows == s.rows && s'.root == s.root && |s'.workers| == |s.workers|
    requires forall j :: 0 <= j < |s.workers| ==> s'.workers[j].id == s.workers[j].id
    requires || s'.files == s.files
             || (path !in s.files && s.workers[i].id in s.rows && s'.files == s.files[path := s.rows[s.workers[i].id]])
    ensures FilesTraced(s')
  {
    forall p | p in s'.files && p !in s'.before
      ensures exists j :: WrittenBy(s', j, p)
    {
      if p in s.files {
        var j :| WrittenBy(s, j, p);
        assert WrittenBy(s', j, p);
      } else {
        assert WrittenBy(s', i, p);
      }
    }
  }

  lemma WorkKeepsTrace(s: Sys, i: nat)
    requires Enabled(s, Work(i)) && FileAccounted(s, s.workers[i]) && FilesTraced(s)
    ensures FilesTraced(WorkStep(s, i))
  {
    var path := FilePath(s.root, s.workers[i].id);
    WorkKeepsRest(s, i, path);
    TraceKept(s, WorkAt(s, i, path), i, path);
  }

  lemma WorkKeepsRest(s: Sys, i: nat, path: string)
    requires i < |s.workers| && s.workers[i].phase != Done
    requires s.workers[i].phase.Fetched? ==> path !in s.files && s.workers[i].id in s.rows
    ensures var s' := WorkAt(s, i, path);
      && s'.before == s.before && s'.rows == s.rows && s'.root == s.root && |s'.workers| == |s.workers|
      && (forall j :: 0 <= j < |s.workers| ==> s'.workers[j].id == s.workers[j].id)
      && s'.files == if s.workers[i].phase.Fetched? then s.files[path := s.rows[s.workers[i].id]] else s.files
  {
  }

  lemma QueueKeepsThreads(s: Sys)
    requires Enabled(s, Queue) && ThreadsAccounted(s)
    ensures ThreadsAccounted(Next(s, Queue))
  {
    TallyQueued(s.workers, Worker(IdAt(s.start, |s.workers|), Queued), InFlight);
  }

  lemma QueueKeepsQueries(s: Sys)
    requires Enabled(s, Queue) && QueriesAccounted(s)
    ensures QueriesAccounted(Next(s, Queue))
  {
    TallyQueued(s.workers, Worker(IdAt(s.start, |s.workers|), Queued), Started);
    TallyQueued(s.workers, Worker(IdAt(s.start, |s.workers|), Queued), Undecided);
  }

  lemma QueueKeepsFiles(s: Sys)
    requires Enabled(s, Queue) && FilesAccounted(s) && FilesTraced(s)
    ensures FilesAccounted(Next(s, Queue)) && FilesTraced(Next(s, Queue))
  {
    var s' := Next(s, Queue);
    forall j | 0 <= j < |s'.workers| && IsInt32(s'.workers[j].id)
      ensures FileAccounted(s', s'.workers[j])
    {
      assert j < |s.workers| ==> s'.workers[j] == s.workers[j] && FileAccounted(s, s.workers[j]);
    }
    forall p | p in s'.files && p !in s'.before
      ensures exists j :: WrittenBy(s', j, p)
    {
      var j :| WrittenBy(s, j, p);
      assert WrittenBy(s', j, p);
    }
  }

  lemma QueueKeepsInv(s: Sys)
    requires Enabled(s, Queue) && Inv(s) && |s.workers| < 0x1_0000_0000
    ensures Inv(Next(s, Queue))
  {
    QueueKeepsFates(s);
    QueueKeepsThreads(s);
    QueueKeepsQueries(s);
    QueueKeepsFiles(s);
  }

  lemma WorkKeepsInv(s: Sys, i: nat)
    requires Enabled(s, Work(i)) && Inv(s) && |s.workers| <= 0x1_0000_0000
    ensures Inv(WorkStep(s, i))
  {
    var path := FilePath(s.root, s.workers[i].id);
    WorkKeepsThreads(s, i, path);
    WorkKeepsQueries(s, i, path);
    WorkKeepsFiles(s, i);
    WorkKeepsTrace(s, i);
    WorkKeepsFates(s, i);
    WorkKeepsIds(s, i, path);
  }

  lemma WorkKeepsIds(s: Sys, i: nat, path: string)
    requires i < |s.workers| && s.workers[i].phase != Done && IdsConsecutive(s)
    ensures IdsConsecutive(WorkAt(s, i, path)) && |WorkAt(s, i, path).workers| == |s.workers|
  {
    assert forall j :: 0 <= j < |s.workers| ==> WorkAt(s, i, path).workers[j].id == s.workers[j].id;
  }

  lemma FilesFrame(s: Sys, s': Sys)
    requires FilesAccounted(s) && FilesTraced(s)
    requires s'.root == s.root && s'.rows == s.rows && s'.workers == s.workers && s'.before == s.before
    requires s'.files == s.files && s'.overwrites == s.overwrites
    ensures FilesAccounted(s') && FilesTraced(s')
  {
    forall j | 0 <= j < |s'.workers| && IsInt32(s'.workers[j].id)
      ensures FileAccounted(s', s'.workers[j])
    {
      assert FileAccounted(s, s.workers[j]);
    }
    forall p | p in s'.files && p !in s'.before
      ensures exists j :: WrittenBy(s', j, p)
    {
      var j :| WrittenBy(s, j, p);
      assert WrittenBy(s', j, p);
    }
  }

  lemma DispatchKeepsInv(s: Sys, a: Action)
    requires Enabled(s, a) && (a.Test? || a.Count?) && Inv(s)
    ensures Inv(Next(s, a))
  {
    FilesFrame(s, Next(s, a));
    DispatchKeepsFates(s, Next(s, a));
  }

  lemma StepKeepsInv(s: Sys, a: Action)
    requires Enabled(s, a) && Inv(s) && |Next(s, a).workers| <= 0x1_0000_0000
    ensures Inv(Next(s, a))
  {
    if a.Queue? {
      QueueKeepsInv(s);
    } else if a.Work? {
      WorkKeepsIds(s, a.i, FilePath(s.root, s.workers[a.i].id));
      WorkKeepsInv(s, a.i);
    } else {
      DispatchKeepsInv(s, a);
    }
  }

  lemma WorkersGrowOnce(s: Sys, a: Action)
    requires Enabled(s, a)
    ensures |s.workers| <= |Next(s, a).workers|
  {
    if a.Work? {
      WorkKeepsCount(s, a.i, FilePath(s.root, s.workers[a.i].id));
    }
  }

  lemma WorkKeepsCount(s: Sys, i: nat, path: string)
    requires i < |s.workers| && s.workers[i].phase != Done
    ensures |WorkAt(s, i, path).workers| == |s.workers|
  {
  }

  lemma {:induction false} WorkersGrow(s: Sys, actions: seq<Action>)
    requires Run(s, actions)
    ensures |s.workers| <= |After(s, actions).workers|
    decreases actions
  {
    if actions != [] {
      WorkersGrowOnce(s, actions[0]);
      WorkersGrow(Next(s, actions[0]), actions[1..]);
    }
  }

  /**
   * In every interleaving that stays within one round of the 32-bit counter, the thread counter
   * equals the work in flight and stays within the cap, IDs are dispatched consecutively, and no
   * existing file is ever overwritten.
   */
  lemma {:induction false} RunKeepsInv(s: Sys, actions: seq<Action>)
    requires Inv(s) && Run(s, actions) && |After(s, actions).workers| <= 0x1_0000_0000
    ensures Inv(After(s, actions))
    decreases actions
  {
    if actions != [] {
      WorkersGrow(Next(s, actions[0]), actions[1..]);
      StepKeepsInv(s, actions[0]);
      RunKeepsInv(Next(s, actions[0]), actions[1..]);
    }
  }

  lemma StepKeepsInputs(s: Sys, a: Action)
    requires Enabled(s, a)
    ensures Next(s, a).before == s.before && Next(s, a).rows == s.rows
  {
    if a.Work? {
      WorkKeepsInputs(s, a.i, FilePath(s.root, s.workers[a.i].id));
    }
  }

  lemma WorkKeepsInputs(s: Sys, i: nat, path: string)
    requires i < |s.workers| && s.workers[i].phase != Done
    ensures WorkAt(s, i, path).before == s.before && WorkAt(s, i, path).rows == s.rows
  {
  }

  lemma {:induction false} RunKeepsInputs(s: Sys, actions: seq<Action>)
    requires Run(s, actions)
    ensures After(s, actions).before == s.before && After(s, actions).rows == s.rows
    decreases actions
  {
    if actions != [] {
      StepKeepsInputs(s, actions[0]);
      RunKeepsInputs(Next(s, actions[0]), actions[1..]);
    }
  }

  lemma InitialInv(s: Sys)
    requires Initial(s)
    ensures Inv(s)
  {
  }

  lemma FatesAtEnd(e: Sys)
    requires FatesAccounted(e) && forall i :: 0 <= i < |e.workers| ==> e.workers[i].phase == Done
    ensures forall fate :: CounterOf(e, fate) == |PlacesOf(Fates(e.root, e.before, e.rows), e.workers, fate)|
  {
    forall fate
      ensures CounterOf(e, fate) == |PlacesOf(Fates(e.root, e.before, e.rows), e.workers, fate)|
    {
      assert FateAccounted(e, fate);
      EndedByAll(Fates(e.root, e.before, e.rows), e.workers, fate);
    }
  }

  /**
   * When all dispatched work is done: every ID was queried once, queried = written + skipped +
   * already present, each of them the number of IDs of its own kind, no thread is held by a worker, and every ID with a row has its file. The
   * files that were there are as they were, and every other one holds the row of its ID.
   */
  lemma AtQuiescence(s: Sys, actions: seq<Action>)
    requires Initial(s) && Run(s, actions) && |After(s, actions).workers| <= 0x1_0000_0000
    requires forall i :: 0 <= i < |After(s, actions).workers| ==> After(s, actions).workers[i].phase == Done
    ensures var e := After(s, actions);
      && e.queried == |e.workers| == e.written + e.skipped + e.present
      && e.threads == (if e.dispatcher.Holding? then 1 else 0) && e.overwrites == 0
      && forall i :: 0 <= i < |e.workers| ==>
           var id := IdAt(e.start, i); id in e.rows ==> FilePath(e.root, id) in e.files
    ensures FilesTraced(After(s, actions)) && After(s, actions).before == s.files && After(s, actions).rows == s.rows
    ensures var e := After(s, actions);
      IdsConsecutive(e) && forall fate :: CounterOf(e, fate) == |PlacesOf(Fates(e.root, e.before, e.rows), e.workers, fate)|
  {
    InitialInv(s);
    RunKeepsInv(s, actions);
    RunKeepsInputs(s, actions);
    var e := After(s, actions);
    TallyAll(e.workers, InFlight, false);
    TallyAll(e.workers, Started, true);
    TallyAll(e.workers, Undecided, false);
    FatesAtEnd(e);
    forall i | 0 <= i < |e.workers|
      ensures var id := IdAt(e.start, i); id in e.rows ==> FilePath(e.root, id) in e.files
    {
      assert e.workers[i].id == IdAt(e.start, i) && FileAccounted(e, e.workers[i]);
    }
  }

  // ---------- the workers come to an end ----------

  /** The actions a worker has before it at most. */
  function Ahead(p: Phase): nat {
    match p
    case Queued => 6
    case Counted => 5
    case Absent => 4
    case Fetched => 3
    case Wrote => 2
    case Closing => 1
    case Done => 0
  }

  function Pending(workers: seq<Worker>): (n: nat)
    ensures n <= 6 * |workers|
  {
    if workers == [] then 0
    else Pending(workers[..|workers| - 1]) + Ahead(workers[|workers| - 1].phase)
  }

  lemma {:induction false} PendingMoved(workers: seq<Worker>, i: nat, phase: Phase)
    requires i < |workers|
    ensures Pending(workers[i := workers[i].(phase := phase)]) + Ahead(workers[i].phase) == Pending(workers) + Ahead(phase)
  {
    var n := |workers| - 1;
    var workers' := workers[i := workers[i].(phase := phase)];
    if i == n {
      assert workers'[..n] == workers[..n];
    } else {
      assert workers'[..n] == workers[..n][i := workers[..n][i].(phase := phase)];
      PendingMoved(workers[..n], i, phase);
    }
  }

  lemma PhaseShrinks(s: Sys, i: nat, path: string)
    requires i < |s.workers| && s.workers[i].phase != Done
    ensures Ahead(PhaseAfter(s, i, path)) < Ahead(s.workers[i].phase)
  {
  }

  lemma WorkAtShrinks(s: Sys, i: nat, path: string)
    requires i < |s.workers| && s.workers[i].phase != Done
    ensures var s' := WorkAt(s, i, path); Pending(s'.workers) < Pending(s.workers) && |s'.workers| == |s.workers|
  {
    WorkCounts(s, i, path);
    PhaseShrinks(s, i, path);
    PendingMoved(s.workers, i, PhaseAfter(s, i, path));
  }

  lemma WorkShrinks(s: Sys, i: nat)
    requires Enabled(s, Work(i))
    ensures Pending(Next(s, Work(i)).workers) < Pending(s.workers) && |Next(s, Work(i)).workers| == |s.workers|
  {
    WorkAtShrinks(s, i, FilePath(s.root, s.workers[i].id));
  }

  ghost predicate OnlyWork(actions: seq<Action>) {
    forall k :: 0 <= k < |actions| ==> actions[k].Work?
  }

  predicate AllDone(workers: seq<Worker>) {
    forall i :: 0 <= i < |workers| ==> workers[i].phase == Done
  }

  /** In whatever order the workers take turns, they take at most six each. */
  lemma {:induction false} WorkIsBounded(s: Sys, actions: seq<Action>)
    requires Run(s, actions) && OnlyWork(actions)
    ensures |actions| + Pending(After(s, actions).workers) <= Pending(s.workers) <= 6 * |s.workers|
    ensures |After(s, actions).workers| == |s.workers|
    decreases actions
  {
    if actions != [] {
      assert actions[0].Work?;
      assert forall k :: 0 <= k < |actions[1..]| ==> actions[1..][k] == actions[k + 1];
      WorkShrinks(s, actions[0].i);
      WorkIsBounded(Next(s, actions[0]), actions[1..]);
    }
  }

  /** And as long as one is not done it can take its turn, so that the workers alone come to the end of their work. */
  lemma {:induction false} WorkersFinish(s: Sys) returns (actions: seq<Action>)
    requires IdsConsecutive(s)
    ensures Run(s, actions) && OnlyWork(actions) && |actions| <= 6 * |s.workers|
    ensures |After(s, actions).workers| == |s.workers| && AllDone(After(s, actions).workers)
    decreases Pending(s.workers)
  {
    if AllDone(s.workers) {
      actions := [];
    } else {
      var i :| 0 <= i < |s.workers| && s.workers[i].phase != Done;
      assert s.workers[i].id == IdAt(s.start, i);
      WorkShrinks(s, i);
      WorkKeepsIds(s, i, FilePath(s.root, s.workers[i].id));
      var rest := WorkersFinish(Next(s, Work(i)));
      actions := [Work(i)] + rest;
      assert actions[1..] == rest;
      WorkIsBounded(s, actions);
    }
  }

  /** The dispatcher's loop never blocks for good while workers proceed: some action is always enabled. */
  lemma NeverStuck(s: Sys)
    requires Inv(s) && s.cap >= 1
    ensures exists a :: Enabled(s, a)
  {
    if s.dispatcher.Cleared? {
      assert Enabled(s, Count);
    } else if s.dispatcher.Holding? {
      assert Enabled(s, Queue);
    } else if s.threads < s.cap {
      assert Enabled(s, Test);
    } else {
      if forall i :: 0 <= i < |s.workers| ==> s.workers[i].phase == Done {
        TallyAll(s.workers, InFlight, false);
      } else {
        var i :| 0 <= i < |s.workers| && s.workers[i].phase != Done;
        assert s.workers[i].id == IdAt(s.start, i);
        assert Enabled(s, Work(i));
      }
    }
  }
}
