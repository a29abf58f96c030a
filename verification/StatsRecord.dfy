/** stats_record of stats.c: lock-free recording by any number of threads, as a machine
    whose steps are the atomic accesses to the shared record. */
module StatsRecord {
  const UINT64_MAX: nat := 0xFFFF_FFFF_FFFF_FFFF

  /** struct stats, without its limit, which is |data|. */
  datatype Stats = Stats(data: seq<nat>, count: nat, min: nat, max: nat)

  /** Where a thread is in stats_record(n), named by the access it makes next, and its
      local copies of `min` and `max`. */
  datatype Thread =
    | Idle
    | AddData(n: nat)
    | AddCount(n: nat)
    | ReadMin(n: nat)
    | ReadMax(n: nat, lmin: nat)
    | CasMin(n: nat, lmin: nat, lmax: nat)
    | CasMax(n: nat, lmax: nat)

  /** A call of thread t with n that returned 1 or, if not `ok`, 0. */
  datatype Return = Return(t: nat, n: nat, ok: bool)

  /** `called`: the values of all accepted calls so far; `returned`: the calls that have
      returned, in order. */
  datatype State = State(stats: Stats, threads: seq<Thread>, called: multiset<nat>, returned: seq<Return>)

  /** A thread calls stats_record, or makes its next access. */
  datatype Event = Call(t: nat, n: nat) | Access(t: nat)

  /** stats_alloc and a number of threads. */
  function Start(limit: nat, threads: nat): State {
    State(Stats(seq(limit, i => 0), 0, UINT64_MAX, 0), seq(threads, i => Idle), multiset{}, [])
  }

  function Step(s: State, e: Event): State {
    if e.t >= |s.threads| then s
    else if e.Call? then
      if !s.threads[e.t].Idle? then s // busy
      else if e.n >= |s.stats.data| then s.(returned := s.returned + [Return(e.t, e.n, false)])
      else s.(threads := s.threads[e.t := AddData(e.n)], called := s.called + multiset{e.n})
    else
      var was := s.threads[e.t];
      var (stats, th) := Access1(s.stats, was);
      s.(stats := stats, threads := s.threads[e.t := th],
         returned := if th.Idle? && !was.Idle? then s.returned + [Return(e.t, was.n, true)] else s.returned)
  }

  /** One access.  A compare-and-swap returns the old value also when it succeeds, so
      its loop runs once more. */
  function Access1(m: Stats, th: Thread): (Stats, Thread) {
    match th
    case Idle => (m, th)
    case AddData(n) => (if n < |m.data| then m.(data := m.data[n := m.data[n] + 1]) else m, AddCount(n))
    case AddCount(n) => (m.(count := m.count + 1), ReadMin(n))
    case ReadMin(n) => (m, ReadMax(n, m.min))
    case ReadMax(n, lmin) => (m, CasMin(n, lmin, m.max))
    case CasMin(n, lmin, lmax) =>
      if n >= lmin then (m, CasMax(n, lmax))
      else (if m.min == lmin then m.(min := n) else m, CasMin(n, m.min, lmax))
    case CasMax(n, lmax) =>
      if n <= lmax then (m, Idle)
      else (if m.max == lmax then m.(max := n) else m, CasMax(n, m.max))
  }

  function Exec(s: State, es: seq<Event>): State {
    if es == [] then s else Step(Exec(s, es[..|es| - 1]), es[|es| - 1])
  }

  // ----- Calls that have not yet made some access

  predicate BeforeData(th: Thread, v: nat) { th.AddData? && th.n == v }
  predicate BeforeCount(th: Thread) { th.AddData? || th.AddCount? }

  /** Calls with v that `data` does not show yet. */
  function Pending(threads: seq<Thread>, v: nat): nat {
    if threads == [] then 0 else
      Pending(threads[..|threads| - 1], v) + if BeforeData(threads[|threads| - 1], v) then 1 else 0
  }

  /** Calls that `count` does not show yet. */
  function Uncounted(threads: seq<Thread>): nat {
    if threads == [] then 0 else
      Uncounted(threads[..|threads| - 1]) + if BeforeCount(threads[|threads| - 1]) then 1 else 0
  }

  lemma {:induction false} ThreadChanges(threads: seq<Thread>, t: nat, th: Thread, v: nat)
    requires t < |threads|
    ensures Pending(threads[t := th], v) ==
            Pending(threads, v) + (if BeforeData(th, v) then 1 else 0) - (if BeforeData(threads[t], v) then 1 else 0)
    ensures Uncounted(threads[t := th]) ==
            Uncounted(threads) + (if BeforeCount(th) then 1 else 0) - (if BeforeCount(threads[t]) then 1 else 0)
  {
    hide BeforeData, BeforeCount;
    var k := |threads| - 1;
    var more := threads[t := th];
    if t < k {
      ThreadChanges(threads[..k], t, th, v);
      assert more[..k] == threads[..k][t := th] && more[k] == threads[k];
    } else {
      assert more[..k] == threads[..k] && more[k] == th;
    }
  }

  lemma {:induction false} AllIdle(threads: seq<Thread>, v: nat)
    requires forall t :: 0 <= t < |threads| ==> threads[t].Idle?
    ensures Pending(threads, v) == 0 && Uncounted(threads) == 0
  {
    if threads != [] {
      AllIdle(threads[..|threads| - 1], v);
    }
  }

  // ----- The invariant of every run

  /** The call may still have to lower `min` (raise `max`). */
  predicate MinOpen(th: Thread, n: nat) {
    !th.Idle? && th.n == n && !th.CasMax? && (th.CasMin? ==> th.n < th.lmin)
  }
  predicate MaxOpen(th: Thread, n: nat) {
    !th.Idle? && th.n == n && (th.CasMax? ==> th.n > th.lmax)
  }

  ghost predicate Histogram(s: State) {
    (forall v: nat :: s.called[v] == Pending(s.threads, v) + if v < |s.stats.data| then s.stats.data[v] else 0) &&
    s.stats.count + Uncounted(s.threads) == |s.called|
  }

  ghost predicate Extremes(s: State) {
    (forall v :: v in s.called ==>
      v < |s.stats.data| && (s.stats.min <= v || exists t :: 0 <= t < |s.threads| && MinOpen(s.threads[t], v))) &&
    (forall v :: v in s.called ==> s.stats.max >= v || exists t :: 0 <= t < |s.threads| && MaxOpen(s.threads[t], v)) &&
    (s.stats.min == UINT64_MAX || s.stats.min in s.called) &&
    (s.stats.max == 0 || s.stats.max in s.called)
  }

  /** A local copy is stale in one direction only. */
  predicate CopiesOk(m: Stats, th: Thread, called: multiset<nat>) {
    (!th.Idle? ==> th.n in called && th.n < |m.data|) &&
    (th.ReadMax? || th.CasMin? ==> m.min <= th.lmin) && (th.CasMin? || th.CasMax? ==> th.lmax <= m.max) &&
    (th.CasMax? ==> m.min <= th.n)
  }

  ghost predicate Inv(s: State) {
    |s.stats.data| <= UINT64_MAX && Histogram(s) && Extremes(s) &&
    forall t :: 0 <= t < |s.threads| ==> CopiesOk(s.stats, s.threads[t], s.called)
  }

  /** `min` only falls and `max` only rises. */
  lemma StepMonotone(s: State, e: Event)
    requires Inv(s)
    ensures Step(s, e).stats.min <= s.stats.min && Step(s, e).stats.max >= s.stats.max
  {
    hide Histogram, Extremes;
  }

  lemma StepCopies(s: State, e: Event)
    requires Inv(s)
    ensures var u := Step(s, e);
      |u.stats.data| == |s.stats.data| && forall t :: 0 <= t < |u.threads| ==> CopiesOk(u.stats, u.threads[t], u.called)
  {
    hide Histogram, Extremes;
    StepMonotone(s, e);
    var u := Step(s, e);
    forall t | 0 <= t < |u.threads| ensures CopiesOk(u.stats, u.threads[t], u.called) {
      assert CopiesOk(s.stats, s.threads[t], s.called);
    }
  }

  predicate Shown(s: State, v: nat) {
    s.called[v] == Pending(s.threads, v) + if v < |s.stats.data| then s.stats.data[v] else 0
  }

  lemma StepShown(s: State, e: Event, v: nat)
    requires e.t < |s.threads| && CopiesOk(s.stats, s.threads[e.t], s.called) && Shown(s, v)
    ensures Shown(Step(s, e), v)
  {
    hide Pending, Uncounted;
    ThreadChanges(s.threads, e.t, Step(s, e).threads[e.t], v);
  }

  lemma StepCounted(s: State, e: Event)
    requires e.t < |s.threads| && s.stats.count + Uncounted(s.threads) == |s.called|
    ensures var u := Step(s, e); u.stats.count + Uncounted(u.threads) == |u.called|
  {
    hide Pending, Uncounted;
    ThreadChanges(s.threads, e.t, Step(s, e).threads[e.t], 0);
  }

  lemma StepHistogram(s: State, e: Event)
    requires Inv(s)
    ensures Histogram(Step(s, e))
  {
    hide Extremes, Pending, Uncounted, Step, CopiesOk;
    if e.t < |s.threads| {
      var u := Step(s, e);
      forall v: nat ensures u.called[v] == Pending(u.threads, v) + if v < |u.stats.data| then u.stats.data[v] else 0 {
        StepShown(s, e, v);
      }
      StepCounted(s, e);
    } else {
      NoThread(s, e);
    }
  }

  lemma StepExtremes(s: State, e: Event)
    requires Inv(s)
    ensures Extremes(Step(s, e))
  {
    var u := Step(s, e);
    hide Histogram, Step, Inv, MinOpen, MaxOpen;
    if e.t < |s.threads| {
      StepAttained(s, e);
      forall v | v in u.called
        ensures u.stats.min <= v || exists t :: 0 <= t < |u.threads| && MinOpen(u.threads[t], v)
        ensures u.stats.max >= v || exists t :: 0 <= t < |u.threads| && MaxOpen(u.threads[t], v)
      {
        StillOpen(s, e, v);
      }
    } else {
      NoThread(s, e);
    }
  }

  lemma NoThread(s: State, e: Event)
    requires Inv(s) && e.t >= |s.threads|
    ensures Step(s, e) == s && Extremes(s)
  {
    hide Histogram, Extremes;
  }

  /** Accepted values are in range, and the extremes are values accepted. */
  lemma StepAttained(s: State, e: Event)
    requires Inv(s) && e.t < |s.threads|
    ensures var u := Step(s, e);
      (forall v :: v in u.called ==> v < |u.stats.data|) &&
      (u.stats.min == UINT64_MAX || u.stats.min in u.called) && (u.stats.max == 0 || u.stats.max in u.called)
  {
    hide Histogram, Extremes, CopiesOk, Access1;
    Attained(s, e.t);
    AccessExtremes(s.stats, s.threads[e.t]);
  }

  lemma Attained(s: State, t: nat)
    requires Inv(s) && t < |s.threads|
    ensures forall v :: v in s.called ==> v < |s.stats.data|
    ensures s.stats.min == UINT64_MAX || s.stats.min in s.called
    ensures s.stats.max == 0 || s.stats.max in s.called
    ensures !s.threads[t].Idle? ==> s.threads[t].n in s.called
  {
    hide Histogram, MinOpen, MaxOpen;
    assert CopiesOk(s.stats, s.threads[t], s.called);
  }

  lemma AccessExtremes(m: Stats, th: Thread)
    ensures var (u, _) := Access1(m, th);
      |u.data| == |m.data| && (u.min == m.min || (!th.Idle? && u.min == th.n)) &&
      (u.max == m.max || (!th.Idle? && u.max == th.n))
  {
  }

  lemma StillOpen(s: State, e: Event, v: nat)
    requires Inv(s) && e.t < |s.threads| && v in Step(s, e).called
    ensures var u := Step(s, e);
      (u.stats.min <= v || exists t :: 0 <= t < |u.threads| && MinOpen(u.threads[t], v)) &&
      (u.stats.max >= v || exists t :: 0 <= t < |u.threads| && MaxOpen(u.threads[t], v))
  {
    hide Histogram;
    var u := Step(s, e);
    StepMonotone(s, e);
    assert CopiesOk(s.stats, s.threads[e.t], s.called);
    if v !in s.called {
      assert MinOpen(u.threads[e.t], v) && MaxOpen(u.threads[e.t], v);
    } else {
      if s.stats.min > v {
        var t :| 0 <= t < |s.threads| && MinOpen(s.threads[t], v);
        assert u.stats.min <= v || MinOpen(u.threads[t], v);
      }
      if s.stats.max < v {
        var t :| 0 <= t < |s.threads| && MaxOpen(s.threads[t], v);
        assert u.stats.max >= v || MaxOpen(u.threads[t], v);
      }
    }
  }

  lemma StepKeeps(s: State, e: Event)
    requires Inv(s)
    ensures Inv(Step(s, e))
  {
    hide Histogram, Extremes, CopiesOk, Step;
    StepCopies(s, e);
    StepHistogram(s, e);
    StepExtremes(s, e);
  }

  lemma StartOk(limit: nat, threads: nat)
    requires limit <= UINT64_MAX
    ensures Inv(Start(limit, threads))
  {
    var s := Start(limit, threads);
    forall v: nat ensures Pending(s.threads, v) == 0 && Uncounted(s.threads) == 0 {
      AllIdle(s.threads, v);
    }
    AllIdle(s.threads, 0);
  }

  lemma {:induction false} ExecKeeps(s: State, es: seq<Event>)
    requires Inv(s)
    ensures Inv(Exec(s, es)) && Exec(s, es).stats.min <= s.stats.min && Exec(s, es).stats.max >= s.stats.max
  {
    hide Inv, Step;
    if es != [] {
      var r := Exec(s, es[..|es| - 1]);
      ExecKeeps(s, es[..|es| - 1]);
      StepKeeps(r, es[|es| - 1]);
      StepMonotone(r, es[|es| - 1]);
    }
  }

  predicate Quiet(s: State) { forall t :: 0 <= t < |s.threads| ==> s.threads[t].Idle? }

  lemma RecordedExact(limit: nat, threads: nat, es: seq<Event>)
    requires limit <= UINT64_MAX && Quiet(Exec(Start(limit, threads), es))
    ensures var s := Exec(Start(limit, threads), es);
      (forall v: nat :: s.called[v] == if v < |s.stats.data| then s.stats.data[v] else 0) &&
      s.stats.count == |s.called| &&
      (s.called != multiset{} ==> s.stats.min in s.called && s.stats.max in s.called) &&
      forall v :: v in s.called ==> s.stats.min <= v <= s.stats.max
  {
    hide Exec, Start;
    StartOk(limit, threads);
    ExecKeeps(Start(limit, threads), es);
    var s := Exec(Start(limit, threads), es);
    forall v: nat ensures Pending(s.threads, v) == 0 && Uncounted(s.threads) == 0 {
      AllIdle(s.threads, v);
    }
    AllIdle(s.threads, 0);
    if s.called != multiset{} {
      var v :| v in s.called;
      assert s.stats.min <= v < UINT64_MAX && v <= s.stats.max;
    }
  }

  // ----- Calls and their returns, told from the events

  /** A thread calls when it is not in a call, and accesses when it is. */
  predicate Possible(s: State, e: Event) { e.t < |s.threads| && (e.Call? <==> s.threads[e.t].Idle?) }

  predicate AllPossible(s: State, es: seq<Event>) {
    es == [] || (AllPossible(s, es[..|es| - 1]) && Possible(Exec(s, es[..|es| - 1]), es[|es| - 1]))
  }

  /** The values below the limit with which stats_record was called. */
  function Accepted(es: seq<Event>, limit: nat): multiset<nat> {
    if es == [] then multiset{} else
      var e := es[|es| - 1];
      Accepted(es[..|es| - 1], limit) + if e.Call? && e.n < limit then multiset{e.n} else multiset{}
  }

  /** The values with which one thread called it, in order. */
  function CallsBy(es: seq<Event>, t: nat): seq<nat> {
    if es == [] then [] else
      var e := es[|es| - 1];
      CallsBy(es[..|es| - 1], t) + if e.Call? && e.t == t then [e.n] else []
  }

  function ReturnsTo(rs: seq<Return>, t: nat): seq<nat> {
    if rs == [] then [] else
      ReturnsTo(rs[..|rs| - 1], t) + if rs[|rs| - 1].t == t then [rs[|rs| - 1].n] else []
  }

  function UnderWay(th: Thread): seq<nat> { if th.Idle? then [] else [th.n] }

  lemma ReturnsSnoc(rs: seq<Return>, x: Return, t: nat)
    ensures ReturnsTo(rs + [x], t) == ReturnsTo(rs, t) + if x.t == t then [x.n] else []
  {
    assert (rs + [x])[..|rs|] == rs;
  }

  /** Running and returned calls are below the limit exactly if they were not refused. */
  predicate Bounded(s: State, limit: nat) {
    |s.stats.data| == limit && (forall r :: r in s.returned ==> (r.ok <==> r.n < limit)) &&
    forall t :: 0 <= t < |s.threads| && !s.threads[t].Idle? ==> s.threads[t].n < limit
  }

  lemma AccessKeeps(m: Stats, th: Thread)
    ensures var (u, h) := Access1(m, th); |u.data| == |m.data| && (h.Idle? || (!th.Idle? && h.n == th.n))
  {
  }

  lemma StepBounded(s: State, e: Event, limit: nat)
    requires Bounded(s, limit) && Possible(s, e)
    ensures Bounded(Step(s, e), limit)
  {
    hide Access1;
    AccessKeeps(s.stats, s.threads[e.t]);
  }

  lemma StepCalls(s: State, e: Event, t: nat)
    requires Possible(s, e) && t < |s.threads|
    ensures var u := Step(s, e);
      |u.threads| == |s.threads| &&
      ReturnsTo(u.returned, t) + UnderWay(u.threads[t]) ==
      ReturnsTo(s.returned, t) + UnderWay(s.threads[t]) + if e.Call? && e.t == t then [e.n] else []
  {
    hide Access1, ReturnsTo;
    AccessKeeps(s.stats, s.threads[e.t]);
    if e.Call? {
      ReturnsSnoc(s.returned, Return(e.t, e.n, false), t);
    } else {
      ReturnsSnoc(s.returned, Return(e.t, s.threads[e.t].n, true), t);
    }
  }

  /** Over every run each call of a thread has returned or is under way, in order, and
      stats_record returns 0 exactly for a value not below the limit. */
  lemma {:induction false} CallsReturn(limit: nat, threads: nat, es: seq<Event>)
    requires AllPossible(Start(limit, threads), es)
    ensures var s := Exec(Start(limit, threads), es);
      Bounded(s, limit) && |s.threads| == threads && s.called == Accepted(es, limit) &&
      forall t :: 0 <= t < threads ==> CallsBy(es, t) == ReturnsTo(s.returned, t) + UnderWay(s.threads[t])
  {
    hide Step, Bounded;
    if es == [] {
      StartBounded(limit, threads);
    } else {
      var init, e := es[..|es| - 1], es[|es| - 1];
      CallsReturn(limit, threads, init);
      var s := Exec(Start(limit, threads), init);
      StepBounded(s, e, limit);
      StepCalled(s, e, limit);
      StepCalls(s, e, e.t);
      forall t | 0 <= t < threads
        ensures CallsBy(es, t) == ReturnsTo(Step(s, e).returned, t) + UnderWay(Step(s, e).threads[t])
      {
        StepCalls(s, e, t);
      }
    }
  }

  lemma StartBounded(limit: nat, threads: nat)
    ensures var s := Start(limit, threads);
      Bounded(s, limit) && forall t :: 0 <= t < threads ==> ReturnsTo(s.returned, t) + UnderWay(s.threads[t]) == []
  {
  }

  lemma StepCalled(s: State, e: Event, limit: nat)
    requires Possible(s, e) && Bounded(s, limit)
    ensures Step(s, e).called == s.called + if e.Call? && e.n < limit then multiset{e.n} else multiset{}
  {
    hide Access1;
  }

  /** For any number of threads and every interleaving: once all calls have returned,
      `data` counts each value below the limit that stats_record was called with, `count`
      is their number, and `min` and `max` are their true extremes. */
  lemma RecordingExact(limit: nat, threads: nat, es: seq<Event>)
    requires limit <= UINT64_MAX && AllPossible(Start(limit, threads), es) && Quiet(Exec(Start(limit, threads), es))
    ensures var m, c := Exec(Start(limit, threads), es).stats, Accepted(es, limit);
      |m.data| == limit && (forall v :: 0 <= v < limit ==> m.data[v] == c[v]) && m.count == |c| &&
      (c != multiset{} ==> m.min in c && m.max in c) && forall v :: v in c ==> m.min <= v <= m.max
  {
    hide Exec, Start, AllPossible, Accepted;
    RecordedExact(limit, threads, es);
    CallsReturn(limit, threads, es);
  }

  // ----- The CAS loops end under interference

  /** How many accesses a thread can still make inside its loop. */
  function Left(m: Stats, th: Thread): nat {
    match th
    case CasMin(n, lmin, _) => if n >= lmin then 1 else if m.min <= n then 2 else 3 + lmin - n
    case CasMax(n, lmax) => if n <= lmax then 1 else if m.max >= n then 2 else 3 + n - lmax
    case _ => 0
  }

  predicate SameLoop(a: Thread, b: Thread) { (a.CasMin? && b.CasMin?) || (a.CasMax? && b.CasMax?) }

  /** Its own access brings a thread nearer to the end of its loop, and the accesses of
      others never move it back. */
  lemma LoopProgress(s: State, e: Event, t: nat)
    requires Inv(s) && t < |s.threads| && (s.threads[t].CasMin? || s.threads[t].CasMax?)
    ensures var u := Step(s, e);
      if e == Access(t) then SameLoop(s.threads[t], u.threads[t]) ==> Left(u.stats, u.threads[t]) < Left(s.stats, s.threads[t])
      else u.threads[t] == s.threads[t] && Left(u.stats, u.threads[t]) <= Left(s.stats, s.threads[t])
  {
    hide Histogram, Extremes;
    StepMonotone(s, e);
    assert CopiesOk(s.stats, s.threads[t], s.called);
  }

  function Own(es: seq<Event>, t: nat): nat {
    if es == [] then 0 else Own(es[..|es| - 1], t) + if es[|es| - 1] == Access(t) then 1 else 0
  }

  /** A thread that stays in one CAS loop makes only boundedly many accesses, whatever the
      others do meanwhile. */
  lemma {:induction false} LoopBounded(s: State, es: seq<Event>, t: nat)
    requires Inv(s) && t < |s.threads|
    requires forall i :: 0 <= i <= |es| ==>
      |Exec(s, es[..i]).threads| > t && SameLoop(s.threads[t], Exec(s, es[..i]).threads[t])
    ensures Own(es, t) + Left(Exec(s, es).stats, Exec(s, es).threads[t]) <= Left(s.stats, s.threads[t])
  {
    hide Inv, Step, Left, SameLoop;
    if es == [] {
      assert es[..0] == es;
    } else {
      var k := |es| - 1;
      var init, r := es[..k], Exec(s, es[..k]);
      forall i | 0 <= i <= k ensures init[..i] == es[..i] {}
      LoopBounded(s, init, t);
      ExecKeeps(s, init);
      assert es[..|es|] == es;
      InLoop(s.threads[t], r.threads[t], Exec(s, es).threads[t]);
      LoopProgress(r, es[k], t);
    }
  }

  lemma InLoop(a: Thread, b: Thread, c: Thread)
    requires SameLoop(a, b) && SameLoop(a, c)
    ensures SameLoop(b, c) && (b.CasMin? || b.CasMax?)
  {
  }
}
