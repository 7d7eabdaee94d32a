/**
 * `ProfileHelper.LimitQueryRate`: per client it stores the time of the last query, before it
 * sleeps or rejects. Times are milliseconds since `DateTime.MinValue`, on a clock that does
 * not run backwards; the cache that holds the times is taken to answer.
 */
module QueryLimiter {
  import opened Collections
  import Decimal

  class Clock {
    var now: real

    constructor (t: real)
      ensures now == t
    {
      now := t;
    }

    method Now() returns (t: real)
      modifies this
      ensures t == now >= old(now)
    {
      var later: real := *;
      if later > now {
        now := later;
      }
      t := now;
    }

    method Sleep(msecs: int)
      modifies this
      ensures now >= old(now) && now >= old(now) + msecs as real
    {
      var t := Now();
      if msecs > 0 {
        now := t + msecs as real;
      }
    }
  }

  /** C#'s `(int)` on a double: towards zero. */
  function Truncate(x: real): (n: int)
    ensures x >= 0.0 ==> n as real <= x < n as real + 1.0
    ensures x <= 0.0 ==> n as real - 1.0 < x <= n as real
  {
    if x >= 0.0 then x.Floor else -((-x).Floor)
  }

  datatype Query = Query(clientIP: Option<string>, robotID: int)

  datatype Settings = Settings(minMsecs: int, minRobotMsecs: int -> int, with503: bool)

  function KeyOf(q: Query): string
    requires q.clientIP.Some?
  {
    if q.robotID != 0 then Decimal.Text(q.robotID) else q.clientIP.value
  }

  function GapOf(s: Settings, q: Query): int {
    if q.robotID != 0 then s.minRobotMsecs(q.robotID) else s.minMsecs
  }

  /**
   * Who is limited together: a robot with itself, from whatever address, a client with those at its address,
   * and the two with each other only if the address reads like the robot's number.
   */
  lemma KeysShared(q: Query, q': Query)
    requires q.clientIP.Some? && q'.clientIP.Some?
    ensures KeyOf(q) == KeyOf(q') <==>
      if q.robotID != 0 && q'.robotID != 0 then q.robotID == q'.robotID
      else if q.robotID == 0 && q'.robotID == 0 then q.clientIP == q'.clientIP
      else if q.robotID != 0 then q'.clientIP == Some(Decimal.Text(q.robotID))
      else q.clientIP == Some(Decimal.Text(q'.robotID))
  {
    if q.robotID != 0 && q'.robotID != 0 && KeyOf(q) == KeyOf(q') {
      Decimal.TextInjective(q.robotID, q'.robotID);
    }
  }

  /** One limited call: when it started, what it stored, when it ended, and whether it passed. */
  datatype Call = Call(key: string, gap: int, start: real, stored: real, end: real, passed: bool)

  /** What a call does when the time stored before it is `last`. */
  ghost predicate Obeys(call: Call, last: real, with503: bool) {
    var since := call.start - last;
    && call.start <= call.stored <= call.end
    && (if since >= call.gap as real then call.passed
        else if with503 then !call.passed
        else call.passed && call.end >= call.stored + (call.gap - Truncate(since)) as real)
  }

  class Limiter {
    var lastQueries: map<string, real>
    const settings: Settings
    const clock: Clock

    constructor (settings: Settings, clock: Clock)
      ensures lastQueries == map[] && this.settings == settings && this.clock == clock
    {
      lastQueries := map[];
      this.settings := settings;
      this.clock := clock;
    }

    /** `call` records the times of a limited call; without a client address nothing is limited. */
    method LimitQueryRate(q: Query) returns (passed: bool, ghost call: Call)
      modifies this`lastQueries, clock
      ensures clock.now >= old(clock.now)
      ensures q.clientIP.None? ==> passed && lastQueries == old(lastQueries)
      ensures q.clientIP.Some? ==>
        var key := KeyOf(q);
        && call.key == key && call.gap == GapOf(settings, q) && call.passed == passed
        && old(clock.now) <= call.start && call.end == clock.now
        && (if q.robotID == 0 then call.key == q.clientIP.value && call.gap == settings.minMsecs
            else call.key == Decimal.Text(q.robotID) && call.gap == settings.minRobotMsecs(q.robotID))
        && lastQueries == old(lastQueries)[key := call.stored]
        && Obeys(call, LastOf(old(lastQueries), key), settings.with503)
    {
      passed := true;
      call := Call("", 0, clock.now, clock.now, clock.now, true);
      if q.clientIP.Some? {
        var key, gap := q.clientIP.value, settings.minMsecs;
        if q.robotID != 0 {
          key := Decimal.Text(q.robotID);
          gap := settings.minRobotMsecs(q.robotID);
        }
        var last := if key in lastQueries then lastQueries[key] else 0.0;
        var start := clock.Now();
        var since := start - last;
        var stored := clock.Now();
        lastQueries := lastQueries[key := stored];
        if since < gap as real {
          if settings.with503 {
            passed := false;
          } else {
            clock.Sleep(gap - Truncate(since));
          }
        }
        call := Call(key, gap, start, stored, clock.now, passed);
      }
    }

    /**
     * Queries served one after the other make a run: `calls` are those of the queries with a client
     * address, which are the ones at the positions `of`.
     */
    method Serve(queries: seq<Query>) returns (passed: seq<bool>, ghost calls: seq<Call>, ghost of: seq<nat>)
      modifies this`lastQueries, clock
      ensures Run(calls, old(lastQueries), settings.with503)
      ensures Records(settings, queries, passed, calls, of)
      ensures InStep(lastQueries, calls, old(lastQueries))
    {
      passed, calls, of := [], [], [];
      for i := 0 to |queries|
        invariant Run(calls, old(lastQueries), settings.with503)
        invariant Records(settings, queries[..i], passed, calls, of)
        invariant InStep(lastQueries, calls, old(lastQueries))
        invariant forall j :: 0 <= j < |calls| ==> calls[j].end <= clock.now
      {
        assert queries[..i + 1] == queries[..i] + [queries[i]];
        ghost var before := lastQueries;
        var ok;
        ghost var call;
        ok, call := LimitQueryRate(queries[i]);
        RecordsOneMore(settings, queries[..i], passed, calls, of, queries[i], ok, call);
        if queries[i].clientIP.Some? {
          assert LastOf(before, call.key) == Stored(calls, |calls|, call.key, old(lastQueries));
          RunOneMore(calls, old(lastQueries), settings.with503, call);
          InStepOneMore(before, lastQueries, calls, call, old(lastQueries));
          calls, of := calls + [call], of + [i];
        }
        passed := passed + [ok];
      }
      assert queries[..|queries|] == queries;
    }
  }

  // ---------- runs ----------

  function LastOf(lastQueries: map<string, real>, key: string): real {
    if key in lastQueries then lastQueries[key] else 0.0
  }

  /** The calls are exactly those of the limited queries, in order; the other queries pass. */
  ghost predicate Records(settings: Settings, queries: seq<Query>, passed: seq<bool>, calls: seq<Call>, of: seq<nat>) {
    && |passed| == |queries| && |of| == |calls|
    && (forall a, b :: 0 <= a < b < |of| ==> of[a] < of[b])
    && (forall a :: 0 <= a < |of| ==> of[a] < |queries| && IsCallOf(settings, calls[a], queries[of[a]], passed[of[a]]))
    && (forall i: nat :: i < |queries| ==> if queries[i].clientIP.Some? then i in of else passed[i])
  }

  ghost predicate IsCallOf(settings: Settings, call: Call, q: Query, passed: bool) {
    q.clientIP.Some? && call.key == KeyOf(q) && call.gap == GapOf(settings, q) && call.passed == passed
  }

  lemma RecordsOneMore(settings: Settings, queries: seq<Query>, passed: seq<bool>, calls: seq<Call>, of: seq<nat>,
                       q: Query, ok: bool, call: Call)
    requires Records(settings, queries, passed, calls, of)
    requires if q.clientIP.Some? then IsCallOf(settings, call, q, ok) else ok
    ensures if q.clientIP.Some? then Records(settings, queries + [q], passed + [ok], calls + [call], of + [|queries|])
      else Records(settings, queries + [q], passed + [ok], calls, of)
  {
    var of' := if q.clientIP.Some? then of + [|queries|] else of;
    forall i: nat | i < |queries + [q]| && (queries + [q])[i].clientIP.Some?
      ensures i in of'
    {
      if i == |queries| {
        assert of'[|of|] == i;
      } else {
        assert queries[i].clientIP.Some? && i in of;
      }
    }
  }

  lemma {:induction false} StoredOfPrefix(calls: seq<Call>, call: Call, n: nat, key: string, first: map<string, real>)
    requires n <= |calls|
    ensures Stored(calls + [call], n, key, first) == Stored(calls, n, key, first)
  {
    if n > 0 {
      StoredOfPrefix(calls, call, n - 1, key, first);
    }
  }

  /** The cache holds for every key what the last call on it stored. */
  ghost predicate InStep(lastQueries: map<string, real>, calls: seq<Call>, first: map<string, real>) {
    forall key :: LastOf(lastQueries, key) == Stored(calls, |calls|, key, first)
  }

  lemma InStepOneMore(before: map<string, real>, after: map<string, real>, calls: seq<Call>, call: Call, first: map<string, real>)
    requires InStep(before, calls, first) && after == before[call.key := call.stored]
    ensures InStep(after, calls + [call], first)
  {
    forall key
      ensures LastOf(after, key) == Stored(calls + [call], |calls + [call]|, key, first)
    {
      StoredOfPrefix(calls, call, |calls|, key, first);
      assert LastOf(before, key) == Stored(calls, |calls|, key, first);
      assert |calls + [call]| == |calls| + 1 && (calls + [call])[|calls|] == call;
    }
  }

  lemma TimelyOneMore(calls: seq<Call>, call: Call)
    requires Timely(calls) && call.start <= call.stored <= call.end
    requires forall i :: 0 <= i < |calls| ==> calls[i].end <= call.start
    ensures Timely(calls + [call])
  {
  }

  lemma ObeysOneMore(calls: seq<Call>, i: nat, first: map<string, real>, with503: bool, call: Call)
    requires i < |calls| && ObeysAt(calls, i, first, with503)
    ensures ObeysAt(calls + [call], i, first, with503)
  {
    StoredOfPrefix(calls, call, i, calls[i].key, first);
  }

  lemma LastObeys(calls: seq<Call>, first: map<string, real>, with503: bool, call: Call)
    requires Obeys(call, Stored(calls, |calls|, call.key, first), with503)
    ensures ObeysAt(calls + [call], |calls|, first, with503)
  {
    StoredOfPrefix(calls, call, |calls|, call.key, first);
  }

  lemma RunOneMore(calls: seq<Call>, first: map<string, real>, with503: bool, call: Call)
    requires Run(calls, first, with503) && Obeys(call, Stored(calls, |calls|, call.key, first), with503)
    requires forall i :: 0 <= i < |calls| ==> calls[i].end <= call.start
    ensures Run(calls + [call], first, with503)
  {
    TimelyOneMore(calls, call);
    LastObeys(calls, first, with503, call);
    forall i | 0 <= i < |calls|
      ensures ObeysAt(calls + [call], i, first, with503)
    {
      ObeysOneMore(calls, i, first, with503, call);
    }
  }

  /** The time stored for `key` by the first `n` calls, or `first` if none of them was on it. */
  ghost function Stored(calls: seq<Call>, n: nat, key: string, first: map<string, real>): real
    requires n <= |calls|
  {
    if n == 0 then LastOf(first, key)
    else if calls[n - 1].key == key then calls[n - 1].stored
    else Stored(calls, n - 1, key, first)
  }

  /** Calls in the order of their cache accesses; calls on one key do not overlap. */
  ghost predicate Run(calls: seq<Call>, first: map<string, real>, with503: bool) {
    && Timely(calls)
    && (forall i :: 0 <= i < |calls| ==> ObeysAt(calls, i, first, with503))
  }

  ghost predicate ObeysAt(calls: seq<Call>, i: nat, first: map<string, real>, with503: bool)
    requires i < |calls|
  {
    Obeys(calls[i], Stored(calls, i, calls[i].key, first), with503)
  }

  ghost predicate Timely(calls: seq<Call>) {
    && (forall i :: 0 <= i < |calls| ==> calls[i].start <= calls[i].stored <= calls[i].end)
    && (forall i, j :: 0 <= i < j < |calls| && calls[i].key == calls[j].key ==>
          calls[i].end <= calls[j].start)
  }

  /** What is stored is never earlier than any call already made on the key. */
  lemma {:induction false} StoredIsLatest(calls: seq<Call>, n: nat, i: nat, first: map<string, real>)
    requires Timely(calls) && i < n <= |calls|
    ensures Stored(calls, n, calls[i].key, first) >= calls[i].stored
  {
    if i < n - 1 && calls[n - 1].key != calls[i].key {
      StoredIsLatest(calls, n - 1, i, first);
    }
  }

  /** And never later than the start of a later call. */
  lemma {:induction false} StoredBeforeStart(calls: seq<Call>, n: nat, i: nat, k: nat, first: map<string, real>)
    requires Timely(calls) && i < n <= k < |calls| && calls[i].key == calls[k].key
    ensures Stored(calls, n, calls[k].key, first) <= calls[k].start
  {
    if calls[n - 1].key != calls[k].key {
      StoredBeforeStart(calls, n - 1, i, k, first);
    }
  }

  /** Sleeping: a call returns no earlier than the gap after the time stored before it. */
  lemma EndsAfterGap(call: Call, last: real)
    requires Obeys(call, last, false) && call.start >= last
    ensures call.end >= last + call.gap as real
  {
    var since := call.start - last;
    assert Truncate(since) as real <= since;
  }

  /** Sleep mode: with a call of the same key in between, returns are at least the gap apart. */
  lemma TwoApart(calls: seq<Call>, i: nat, j: nat, k: nat, first: map<string, real>)
    requires Run(calls, first, false) && i < j < k < |calls|
    requires calls[i].key == calls[j].key == calls[k].key
    ensures calls[k].end >= calls[i].end + calls[k].gap as real
  {
    assert ObeysAt(calls, k, first, false);
    StoredIsLatest(calls, k, j, first);
    StoredBeforeStart(calls, k, j, k, first);
    EndsAfterGap(calls[k], Stored(calls, k, calls[k].key, first));
  }

  /** Indices, in order, of calls on one key. */
  ghost predicate OnOneKey(calls: seq<Call>, at: seq<nat>) {
    && (forall a :: 0 <= a < |at| ==> at[a] < |calls|)
    && (forall a, b :: 0 <= a < b < |at| ==> at[a] < at[b] && calls[at[a]].key == calls[at[b]].key)
  }

  /** The time of `k` gaps. */
  function Gaps(k: nat, gap: int): real {
    if k == 0 then 0.0 else Gaps(k - 1, gap) + gap as real
  }

  lemma {:induction false} SpanOfEnds(ends: seq<real>, gap: int, n: nat)
    requires 0 < n <= |ends| && (|ends| > 1 ==> ends[0] <= ends[1])
    requires forall a :: 0 <= a < |ends| - 2 ==> ends[a + 2] >= ends[a] + gap as real
    ensures ends[n - 1] >= ends[0] + Gaps((n - 1) / 2, gap)
  {
    if n >= 3 {
      SpanOfEnds(ends, gap, n - 2);
      assert ends[n - 3 + 2] >= ends[n - 3] + gap as real;
      assert (n - 1) / 2 == (n - 3) / 2 + 1;
    }
  }

  /** n calls on one key, each with at least the given gap, span at least floor((n - 1) / 2) gaps. */
  lemma SpanOfRun(calls: seq<Call>, at: seq<nat>, gap: int, first: map<string, real>)
    requires Run(calls, first, false) && OnOneKey(calls, at) && at != []
    requires forall a :: 0 <= a < |at| ==> calls[at[a]].gap >= gap
    ensures calls[at[|at| - 1]].end >= calls[at[0]].end + Gaps((|at| - 1) / 2, gap)
  {
    var ends := Ends(calls, at);
    forall a | 0 <= a < |ends| - 2
      ensures ends[a + 2] >= ends[a] + gap as real
    {
      EndsApart(calls, at, a, gap, first);
    }
    if |at| > 1 {
      EndsOrdered(calls, at);
    }
    SpanOfEnds(ends, gap, |at|);
  }

  ghost function Ends(calls: seq<Call>, at: seq<nat>): (r: seq<real>)
    requires OnOneKey(calls, at)
    ensures |r| == |at| && forall i :: 0 <= i < |r| ==> r[i] == calls[at[i]].end
  {
    seq(|at|, i requires 0 <= i < |at| => calls[at[i]].end)
  }

  lemma EndsApart(calls: seq<Call>, at: seq<nat>, a: nat, gap: int, first: map<string, real>)
    requires Run(calls, first, false) && OnOneKey(calls, at) && a + 2 < |at| && calls[at[a + 2]].gap >= gap
    ensures calls[at[a + 2]].end >= calls[at[a]].end + gap as real
  {
    var i, j, k := at[a], at[a + 1], at[a + 2];
    assert i < j < k && calls[i].key == calls[j].key == calls[k].key;
    TwoApart(calls, i, j, k, first);
  }

  lemma EndsOrdered(calls: seq<Call>, at: seq<nat>)
    requires Timely(calls) && OnOneKey(calls, at) && |at| > 1
    ensures calls[at[0]].end <= calls[at[1]].end
  {
    var i, j := at[0], at[1];
    assert i < j && calls[i].key == calls[j].key;
  }

  // ---------- the bound is attained, so adjacent calls may be closer ----------

  /** The i-th call of a client that comes back as soon as it may, from time `t` on: it sleeps every other time. */
  function Eager(key: string, gap: nat, t: real, i: nat): Call {
    var start := t + Gaps((i + 1) / 2, gap);
    Call(key, gap, start, start, t + Gaps(i / 2 + 1, gap), true)
  }

  function EagerRun(key: string, gap: nat, t: real, n: nat): (r: seq<Call>)
    ensures |r| == n && forall i :: 0 <= i < n ==> r[i] == Eager(key, gap, t, i)
  {
    seq(n, i requires 0 <= i < n => Eager(key, gap, t, i))
  }

  lemma {:induction false} GapsMonotone(a: nat, b: nat, gap: nat)
    requires a <= b
    ensures Gaps(a, gap) <= Gaps(b, gap)
    decreases b
  {
    if a < b {
      GapsMonotone(a, b - 1, gap);
    }
  }

  lemma EagerObeys(key: string, gap: nat, t: real, i: nat)
    requires gap > 0
    ensures Obeys(Eager(key, gap, t, i), if i == 0 then t else Eager(key, gap, t, i - 1).stored, false)
  {
    var call := Eager(key, gap, t, i);
    assert Truncate(0.0) == 0;
    if i % 2 == 0 {
      assert (i + 1) / 2 == i / 2;
      assert Gaps(i / 2 + 1, gap) == Gaps(i / 2, gap) + gap as real;
    } else {
      assert (i + 1) / 2 == i / 2 + 1;
      assert Gaps(i / 2 + 1, gap) == Gaps(i / 2, gap) + gap as real;
    }
  }

  lemma EagerTimely(key: string, gap: nat, t: real, n: nat)
    ensures Timely(EagerRun(key, gap, t, n))
  {
    var r := EagerRun(key, gap, t, n);
    forall i, j | 0 <= i <= j < n
      ensures i < j ==> r[i].end <= r[j].start
      ensures r[i].stored <= r[i].end
    {
      GapsMonotone((i + 1) / 2, i / 2 + 1, gap);
      if i < j {
        GapsMonotone(i / 2 + 1, (j + 1) / 2, gap);
      }
    }
  }

  /** For every n and every time of the query before it, a run of n calls that spans exactly floor((n - 1) / 2) gaps. */
  lemma SpanIsTight(key: string, gap: nat, t: real, n: nat)
    requires gap > 0 && n > 0
    ensures Run(EagerRun(key, gap, t, n), map[key := t], false)
    ensures var r := EagerRun(key, gap, t, n); r[n - 1].end == r[0].end + Gaps((n - 1) / 2, gap)
  {
    var r := EagerRun(key, gap, t, n);
    EagerTimely(key, gap, t, n);
    forall i | 0 <= i < n
      ensures ObeysAt(r, i, map[key := t], false)
    {
      EagerObeys(key, gap, t, i);
      assert i > 0 ==> Stored(r, i, r[i].key, map[key := t]) == r[i - 1].stored;
    }
    assert Gaps(1, gap) == Gaps(0, gap) + gap as real;
    assert (n - 1) / 2 + 1 > 0 && Gaps((n - 1) / 2 + 1, gap) == Gaps((n - 1) / 2, gap) + gap as real;
  }

  // ---------- rejecting with 503 ----------

  /** A request is admitted exactly when it comes at least the gap after the last stored time. */
  lemma AdmittedExactlyWhenQuiet(calls: seq<Call>, k: nat, first: map<string, real>)
    requires Run(calls, first, true) && k < |calls|
    ensures calls[k].passed <==> calls[k].start >= Stored(calls, k, calls[k].key, first) + calls[k].gap as real
  {
    assert ObeysAt(calls, k, first, true);
  }

  /** So it comes at least the gap after every earlier request of its key, admitted or rejected. */
  lemma AdmittedAfterAll(calls: seq<Call>, i: nat, k: nat, first: map<string, real>)
    requires Run(calls, first, true) && i < k < |calls| && calls[i].key == calls[k].key && calls[k].passed
    ensures calls[k].start >= calls[i].stored + calls[k].gap as real
    ensures calls[k].start >= calls[i].start + calls[k].gap as real
  {
    AdmittedExactlyWhenQuiet(calls, k, first);
    StoredIsLatest(calls, k, i, first);
  }

  /** A client that never pauses for the gap gets only its first request through. */
  lemma ImpatientClientStarves(calls: seq<Call>, at: seq<nat>, first: map<string, real>)
    requires Run(calls, first, true) && OnOneKey(calls, at)
    requires forall a :: 0 < a < |at| ==> calls[at[a]].start < calls[at[a - 1]].start + calls[at[a]].gap as real
    ensures forall a :: 0 < a < |at| ==> !calls[at[a]].passed
  {
    forall a | 0 < a < |at|
      ensures !calls[at[a]].passed
    {
      if calls[at[a]].passed {
        AdmittedAfterAll(calls, at[a - 1], at[a], first);
      }
    }
  }
}
