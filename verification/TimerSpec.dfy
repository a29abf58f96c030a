/** What a timer wheel promises: a map from timer ids to deadlines, and a timer's life over any
    interleaving of its operations. */
module TimerSpec {
  type Id = nat

  const CAPACITY: nat := 60
  const UINT32: nat := 0x1_0000_0000

  // ----- The map the wheel stands for

  /** `deadline`: the RunTimerTask call, counted from 0, that destroys the task. */
  datatype Entry = Entry(deadline: nat, timeout: nat, canceled: bool)

  /** Calls of RunTimerTask so far, live timers, callbacks run so far. */
  datatype Timers = Timers(now: nat, live: map<Id, Entry>, fired: multiset<Id>)

  datatype Op = Add(id: Id, timeout: nat) | Refresh(id: Id) | Cancel(id: Id) | Tick

  /** `(_tick + timeout) % _capacity`, in unsigned 32-bit arithmetic. */
  function Position(tick: nat, timeout: nat): (p: nat)
    ensures p < CAPACITY
  {
    (tick + timeout) % UINT32 % CAPACITY
  }

  /** How many calls of RunTimerTask come before the one that clears a position. */
  function Distance(tick: nat, p: nat): (d: nat)
    requires tick < CAPACITY && p < CAPACITY
    ensures d < CAPACITY
  {
    if p >= tick then p - tick else p + CAPACITY - tick
  }

  function Delay(now: nat, timeout: nat): (d: nat)
    ensures d < CAPACITY
  {
    Distance(now % CAPACITY, Position(now % CAPACITY, timeout))
  }

  /** The wheel keeps a timeout exactly when it is shorter than a turn. */
  lemma DelayExact(now: nat, timeout: nat)
    requires timeout < UINT32
    ensures Delay(now, timeout) == timeout <==> timeout < CAPACITY
  {
    var tick := now % CAPACITY;
    if timeout < CAPACITY {
      assert (tick + timeout) % UINT32 == tick + timeout;
    }
  }

  predicate Due(t: Timers, id: Id) { id in t.live && t.live[id].deadline == t.now }

  function Max(a: nat, b: nat): nat { if a >= b then a else b }

  ghost function Step(t: Timers, op: Op): Timers {
    match op
    case Add(id, timeout) => t.(live := t.live[id := Entry(t.now + Delay(t.now, timeout), timeout, false)])
    case Refresh(id) =>
      if id !in t.live then t else
      var e := t.live[id];
      t.(live := t.live[id := e.(deadline := Max(e.deadline, t.now + Delay(t.now, e.timeout)))])
    case Cancel(id) => if id !in t.live then t else t.(live := t.live[id := t.live[id].(canceled := true)])
    case Tick =>
      Timers(t.now + 1, map id | id in t.live && !Due(t, id) :: t.live[id],
             t.fired + multiset(set id | id in t.live && Due(t, id) && !t.live[id].canceled))
  }

  /** A live id is not added again. */
  predicate Allowed(t: Timers, op: Op) { op.Add? ==> op.id !in t.live && op.timeout < UINT32 }

  predicate TimersOk(t: Timers) {
    forall id :: id in t.live ==> t.now <= t.live[id].deadline < t.now + CAPACITY
  }

  lemma StepOk(t: Timers, op: Op)
    requires TimersOk(t)
    ensures TimersOk(Step(t, op))
  {
  }

  // ----- A timer's life over any interleaving

  ghost function Exec(t: Timers, ops: seq<Op>): Timers
    decreases |ops|
  {
    if ops == [] then t else Exec(Step(t, ops[0]), ops[1..])
  }

  ghost predicate AllAllowed(t: Timers, ops: seq<Op>)
    decreases |ops|
  {
    ops == [] || (Allowed(t, ops[0]) && AllAllowed(Step(t, ops[0]), ops[1..]))
  }

  function Ticks(ops: seq<Op>): nat {
    if ops == [] then 0 else (if ops[0].Tick? then 1 else 0) + Ticks(ops[1..])
  }

  /** Cancel(id) comes before the n-th tick. */
  predicate CanceledBefore(ops: seq<Op>, id: Id, n: nat) {
    ops != [] &&
    if ops[0].Tick? then n > 1 && CanceledBefore(ops[1..], id, n - 1)
    else ops[0] == Cancel(id) || CanceledBefore(ops[1..], id, n)
  }

  /** With nothing to rearm it, a live timer lives through exactly `deadline - now` ticks,
      whatever else happens; the next one destroys it, and runs its callback exactly
      once, unless it was canceled before. */
  lemma {:induction false} Life(t: Timers, ops: seq<Op>, id: Id)
    requires TimersOk(t) && AllAllowed(t, ops) && id in t.live
    requires forall op :: op in ops ==> op != Refresh(id) && !(op.Add? && op.id == id)
    ensures var e, r := t.live[id], Exec(t, ops);
      var left := e.deadline - t.now;
      (id in r.live <==> Ticks(ops) <= left) &&
      r.fired[id] ==
      t.fired[id] + if Ticks(ops) > left && !e.canceled && !CanceledBefore(ops, id, left + 1) then 1 else 0
    decreases |ops|
  {
    hide Delay, Step, TimersOk;
    InTurn(t, id);
    if ops != [] {
      var u := Step(t, ops[0]);
      StepOk(t, ops[0]);
      assert forall op :: op in ops[1..] ==> op in ops;
      assert ops[0] in ops;
      StepEntry(t, ops[0], id);
      if Due(t, id) && ops[0].Tick? {
        Gone(u, ops[1..], id);
      } else {
        Life(u, ops[1..], id);
      }
    }
  }

  lemma InTurn(t: Timers, id: Id)
    requires TimersOk(t) && id in t.live
    ensures t.now <= t.live[id].deadline
  {
  }

  /** What one operation that does not rearm a timer does to it. */
  lemma StepEntry(t: Timers, op: Op, id: Id)
    requires id in t.live && op != Refresh(id) && !(op.Add? && op.id == id)
    ensures var e, u := t.live[id], Step(t, op);
      u.now == t.now + (if op.Tick? then 1 else 0) &&
      if Due(t, id) && op.Tick? then id !in u.live && u.fired[id] == t.fired[id] + if e.canceled then 0 else 1
      else
        id in u.live && u.live[id].deadline == e.deadline &&
        u.live[id].canceled == (e.canceled || op == Cancel(id)) && u.fired[id] == t.fired[id]
  {
    hide Delay;
  }

  /** A destroyed timer's callback does not run again. */
  lemma {:induction false} Gone(t: Timers, ops: seq<Op>, id: Id)
    requires id !in t.live && forall op :: op in ops ==> !(op.Add? && op.id == id)
    ensures id !in Exec(t, ops).live && Exec(t, ops).fired[id] == t.fired[id]
    decreases |ops|
  {
    hide Delay;
    if ops != [] {
      assert ops[0] in ops;
      assert forall op :: op in ops[1..] ==> op in ops;
      Gone(Step(t, ops[0]), ops[1..], id);
    }
  }

  /** Deadlines of timers shorter than a turn never lie behind what a refresh would set. */
  predicate Tight(t: Timers) {
    forall id :: id in t.live && t.live[id].timeout < CAPACITY ==> t.live[id].deadline <= t.now + t.live[id].timeout
  }

  lemma {:induction false} ExecOk(t: Timers, ops: seq<Op>)
    requires TimersOk(t) && Tight(t) && AllAllowed(t, ops)
    ensures TimersOk(Exec(t, ops)) && Tight(Exec(t, ops))
    decreases |ops|
  {
    hide Delay;
    if ops != [] {
      StepOk(t, ops[0]);
      forall n: nat, timeout: nat | timeout < CAPACITY ensures Delay(n, timeout) == timeout {
        DelayExact(n, timeout);
      }
      ExecOk(Step(t, ops[0]), ops[1..]);
    }
  }

  /** A timer of less than a turn is destroyed in exactly the (timeout+1)-th tick after it
      was last added or refreshed, and its callback then runs once unless it was canceled. */
  lemma LifeAfterArming(t: Timers, arm: Op, ops: seq<Op>, id: Id)
    requires TimersOk(t) && Tight(t) && AllAllowed(t, [arm] + ops)
    requires (arm.Add? && arm.id == id) || (arm == Refresh(id) && id in t.live)
    requires forall op :: op in ops ==> op != Refresh(id) && !(op.Add? && op.id == id)
    ensures var timeout := if arm.Add? then arm.timeout else t.live[id].timeout;
      var canceled := arm.Refresh? && t.live[id].canceled;
      var r := Exec(t, [arm] + ops);
      timeout < CAPACITY ==>
        (id in r.live <==> Ticks(ops) <= timeout) &&
        r.fired[id] == t.fired[id] + if Ticks(ops) > timeout && !canceled &&
        !CanceledBefore(ops, id, timeout + 1) then 1 else 0
  {
    hide Step, Exec, AllAllowed, TimersOk, Tight, CanceledBefore, Ticks;
    StepOk(t, arm);
    ExecFirst(t, arm, ops);
    Armed(t, arm, id);
    Life(Step(t, arm), ops, id);
  }

  lemma ExecFirst(t: Timers, op: Op, ops: seq<Op>)
    ensures Exec(t, [op] + ops) == Exec(Step(t, op), ops)
    ensures AllAllowed(t, [op] + ops) ==> Allowed(t, op) && AllAllowed(Step(t, op), ops)
  {
    hide Step, Allowed;
    assert ([op] + ops)[1..] == ops;
  }

  lemma Armed(t: Timers, arm: Op, id: Id)
    requires TimersOk(t) && Tight(t) && Allowed(t, arm)
    requires (arm.Add? && arm.id == id) || (arm == Refresh(id) && id in t.live)
    ensures var u, timeout := Step(t, arm), if arm.Add? then arm.timeout else t.live[id].timeout;
      u.now == t.now && u.fired == t.fired && id in u.live &&
      u.live[id].canceled == (arm.Refresh? && t.live[id].canceled) &&
      (timeout < CAPACITY ==> u.live[id].deadline == t.now + timeout)
  {
    hide Delay;
    var timeout := if arm.Add? then arm.timeout else t.live[id].timeout;
    if timeout < CAPACITY {
      DelayExact(t.now, timeout);
    }
  }

  // ----- The timeout of a timer is the one it was added with

  lemma {:induction false} ExecJoin(t: Timers, a: seq<Op>, b: seq<Op>)
    ensures Exec(t, a + b) == Exec(Exec(t, a), b)
    ensures AllAllowed(t, a + b) ==> AllAllowed(t, a) && AllAllowed(Exec(t, a), b)
    decreases |a|
  {
    hide Step, Allowed;
    if a == [] {
      assert a + b == b;
    } else {
      assert (a + b)[0] == a[0] && (a + b)[1..] == a[1..] + b;
      ExecJoin(Step(t, a[0]), a[1..], b);
    }
  }

  /** A timer that is still there keeps its timeout, is canceled exactly if it was or has
      been, and has not run its callback. */
  lemma {:induction false} StaysArmed(t: Timers, ops: seq<Op>, id: Id)
    requires id in t.live && id in Exec(t, ops).live
    requires forall op :: op in ops ==> !(op.Add? && op.id == id)
    ensures var e, r := t.live[id], Exec(t, ops);
      r.live[id].timeout == e.timeout && r.live[id].canceled == (e.canceled || Cancel(id) in ops) &&
      r.fired[id] == t.fired[id]
    decreases |ops|
  {
    hide Step;
    if ops != [] {
      assert ops[0] in ops && forall op :: op in ops[1..] ==> op in ops;
      var u := Step(t, ops[0]);
      if id !in u.live {
        Gone(u, ops[1..], id);
      }
      KeepsTimeout(t, ops[0], id);
      StaysArmed(u, ops[1..], id);
      assert forall op :: op in ops <==> op == ops[0] || op in ops[1..];
    }
  }

  lemma KeepsTimeout(t: Timers, op: Op, id: Id)
    requires id in t.live && id in Step(t, op).live && !(op.Add? && op.id == id)
    ensures var e, u := t.live[id], Step(t, op);
      u.live[id].timeout == e.timeout && u.live[id].canceled == (e.canceled || op == Cancel(id)) &&
      u.fired[id] == t.fired[id]
  {
    hide Delay;
  }

  /** Whatever happens between the Add of a timer of less than a turn and a Refresh that
      still finds it, the timer is destroyed in exactly the (timeout+1)-th tick after that
      Refresh, and its callback then runs once unless it was canceled. */
  lemma LifeAfterRefresh(t: Timers, id: Id, timeout: nat, before: seq<Op>, after: seq<Op>)
    requires TimersOk(t) && Tight(t) && timeout < CAPACITY
    requires AllAllowed(t, [Add(id, timeout)] + before + [Refresh(id)] + after)
    requires forall op :: op in before + after ==> !(op.Add? && op.id == id)
    requires Refresh(id) !in after && id in Exec(t, [Add(id, timeout)] + before).live
    ensures var r := Exec(t, [Add(id, timeout)] + before + [Refresh(id)] + after);
      (id in r.live <==> Ticks(after) <= timeout) &&
      r.fired[id] ==
      t.fired[id] + if Ticks(after) > timeout && Cancel(id) !in before && !CanceledBefore(after, id, timeout + 1) then 1
                    else 0
  {
    hide Step, Exec, AllAllowed, TimersOk, Tight, CanceledBefore, Ticks;
    var add, ops := Add(id, timeout), [Add(id, timeout)] + before;
    var s := Exec(t, ops);
    assert ops + [Refresh(id)] + after == ops + ([Refresh(id)] + after);
    ExecJoin(t, ops, [Refresh(id)] + after);
    ExecJoin(t, [add], before);
    ExecFirst(t, add, before);
    Stored(t, id, timeout);
    assert forall op :: op in before || op in after ==> op in before + after;
    StaysArmed(Step(t, add), before, id);
    ExecOk(t, ops);
    LifeAfterArming(s, Refresh(id), after, id);
  }

  lemma Stored(t: Timers, id: Id, timeout: nat)
    ensures var u := Step(t, Add(id, timeout));
      u.fired == t.fired && id in u.live && u.live[id].timeout == timeout && !u.live[id].canceled
  {
    hide Delay;
  }
}
