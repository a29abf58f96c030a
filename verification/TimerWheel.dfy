/** TimerWheel.hpp: deadlines are held as shared references in the slots of a wheel, and
    a timer goes off in the destructor of its task. */
module TimerWheelModel {
  import opened TimerSpec

  /** A shared TimerTask: `uses` is its strong reference count. */
  type Handle = nat
  datatype Task = Task(id: Id, timeout: nat, canceled: bool, uses: nat)

  /** All references in some slots. */
  function Bag(slots: seq<seq<Handle>>): multiset<Handle> {
    if slots == [] then multiset{} else Bag(slots[..|slots| - 1]) + multiset(slots[|slots| - 1])
  }

  lemma {:induction false} BagUpdate(slots: seq<seq<Handle>>, p: nat, slot: seq<Handle>)
    requires p < |slots|
    ensures Bag(slots[p := slot]) + multiset(slots[p]) == Bag(slots) + multiset(slot)
  {
    var n := |slots| - 1;
    var more := slots[p := slot];
    assert Bag(more) == Bag(more[..n]) + multiset(more[n]);
    if p < n {
      BagUpdate(slots[..n], p, slot);
      assert more[..n] == slots[..n][p := slot] && more[n] == slots[n] && slots[..n][p] == slots[p];
      Exchange(Bag(more[..n]), multiset(slots[p]), Bag(slots[..n]), multiset(slot), multiset(slots[n]));
    } else {
      assert more[..n] == slots[..n] && more[n] == slot;
    }
  }

  lemma Exchange<T>(a: multiset<T>, b: multiset<T>, c: multiset<T>, d: multiset<T>, e: multiset<T>)
    requires a + b == c + d
    ensures a + e + b == c + e + d
  {
    assert a + e + b == a + b + e && c + e + d == c + d + e;
  }

  lemma BagPush(slots: seq<seq<Handle>>, p: nat, h: Handle)
    requires p < |slots|
    ensures Bag(slots[p := slots[p] + [h]]) == Bag(slots) + multiset{h}
  {
    hide Bag;
    BagUpdate(slots, p, slots[p] + [h]);
    var a, b, c := Bag(slots[p := slots[p] + [h]]), Bag(slots), multiset(slots[p]);
    assert a + c == b + (c + multiset{h});
    forall x ensures a[x] == (b + multiset{h})[x] {
      assert (a + c)[x] == (b + (c + multiset{h}))[x];
    }
  }

  lemma {:induction false} BagHas(slots: seq<seq<Handle>>, h: Handle)
    ensures h in Bag(slots) <==> exists p :: 0 <= p < |slots| && h in slots[p]
  {
    if slots != [] {
      var n := |slots| - 1;
      BagHas(slots[..n], h);
      if h in Bag(slots[..n]) {
        var p :| 0 <= p < n && h in slots[..n][p];
        assert h in slots[p];
      }
      if exists p :: 0 <= p < |slots| && h in slots[p] {
        var p :| 0 <= p < |slots| && h in slots[p];
        if p < n {
          assert h in slots[..n][p];
        }
      }
    }
  }

  lemma {:induction false} NoReferences(slots: seq<seq<Handle>>)
    requires forall i :: 0 <= i < |slots| ==> slots[i] == []
    ensures Bag(slots) == multiset{}
  {
    if slots != [] {
      NoReferences(slots[..|slots| - 1]);
    }
  }

  // ----- The wheel as a value

  /** The tasks alive, which of them a timer id names, and the next free handle. */
  datatype Heap = Heap(tasks: map<Handle, Task>, timers: map<Id, Handle>, next: Handle)

  /** The tasks alive are those referred to, and `timers` knows each of them. */
  ghost predicate Linked(m: Heap, refs: multiset<Handle>) {
    (forall h :: h in m.tasks <==> h in refs) &&
    (forall h :: h in m.tasks ==> h < m.next && m.tasks[h].uses == refs[h]) &&
    (forall h :: h in m.tasks ==> m.tasks[h].id in m.timers && m.timers[m.tasks[h].id] == h) &&
    (forall id :: id in m.timers ==> m.timers[id] in m.tasks && m.tasks[m.timers[id]].id == id)
  }

  /** No reference outlives its task's deadline. */
  ghost predicate InTime(slots: seq<seq<Handle>>, now: nat, due: map<Handle, nat>)
    requires |slots| == CAPACITY
  {
    forall p, h :: 0 <= p < CAPACITY && h in slots[p] ==> h in due && now + Distance(now % CAPACITY, p) <= due[h]
  }

  /** Some reference lasts until the deadline. */
  ghost predicate Lasting(tasks: map<Handle, Task>, slots: seq<seq<Handle>>, now: nat, due: map<Handle, nat>)
    requires |slots| == CAPACITY
  {
    forall h :: h in tasks ==> h in due && now <= due[h] < now + CAPACITY && h in slots[due[h] % CAPACITY]
  }

  /** A task's deadline is the latest of the times at which its references go. */
  ghost predicate Timed(tasks: map<Handle, Task>, slots: seq<seq<Handle>>, now: nat, due: map<Handle, nat>) {
    |slots| == CAPACITY && InTime(slots, now, due) && Lasting(tasks, slots, now, due)
  }

  ghost function LiveOf(m: Heap, due: map<Handle, nat>): map<Id, Entry>
    requires forall id :: id in m.timers ==> m.timers[id] in m.tasks && m.timers[id] in due
  {
    map id | id in m.timers :: Entry(due[m.timers[id]], m.tasks[m.timers[id]].timeout, m.tasks[m.timers[id]].canceled)
  }

  lemma PositionDue(now: nat, p: nat)
    requires p < CAPACITY
    ensures (now + Distance(now % CAPACITY, p)) % CAPACITY == p
  {
  }

  lemma TimedSize(tasks: map<Handle, Task>, slots: seq<seq<Handle>>, now: nat, due: map<Handle, nat>)
    requires Timed(tasks, slots, now, due)
    ensures |slots| == CAPACITY && forall h :: h in tasks ==> h in due
  {
    hide InTime;
  }

  /** The next handle is in no slot. */
  lemma NewHandle(m: Heap, refs: multiset<Handle>, slots: seq<seq<Handle>>)
    requires Linked(m, refs) && refs == Bag(slots)
    ensures m.next !in m.tasks && forall q :: 0 <= q < |slots| ==> m.next !in slots[q]
  {
    BagHas(slots, m.next);
  }

  /** One more reference to a task, in slot p. */
  lemma PushedTimed(tasks: map<Handle, Task>, slots: seq<seq<Handle>>, now: nat, due: map<Handle, nat>, p: nat,
                    h: Handle,
                    tasks': map<Handle, Task>)
    requires Timed(tasks, slots, now, due) && p < CAPACITY
    requires tasks'.Keys == tasks.Keys + {h}
    requires h !in tasks ==> forall q :: 0 <= q < CAPACITY ==> h !in slots[q]
    ensures var d := now + Distance(now % CAPACITY, p);
      Timed(tasks', slots[p := slots[p] + [h]], now, due[h := if h in tasks then Max(due[h], d) else d])
  {
    TimedSize(tasks, slots, now, due);
    hide InTime, Lasting;
    PushedInTime(tasks, slots, now, due, p, h);
    PushedLasting(tasks, slots, now, due, p, h, tasks');
  }

  lemma PushedInTime(tasks: map<Handle, Task>, slots: seq<seq<Handle>>, now: nat, due: map<Handle, nat>, p: nat,
                     h: Handle)
    requires |slots| == CAPACITY && InTime(slots, now, due) && p < CAPACITY && (h in tasks ==> h in due)
    requires h !in tasks ==> forall q :: 0 <= q < CAPACITY ==> h !in slots[q]
    ensures var d := now + Distance(now % CAPACITY, p);
      InTime(slots[p := slots[p] + [h]], now, due[h := if h in tasks then Max(due[h], d) else d])
  {
    hide Distance;
    var d := now + Distance(now % CAPACITY, p);
    var slots', due' := slots[p := slots[p] + [h]], due[h := if h in tasks then Max(due[h], d) else d];
    forall q, g | 0 <= q < CAPACITY && g in slots'[q]
      ensures g in due' && now + Distance(now % CAPACITY, q) <= due'[g]
    {
      if !(q == p && g == h) {
        assert g in slots[q];
      }
    }
  }

  lemma PushedLasting(tasks: map<Handle, Task>, slots: seq<seq<Handle>>, now: nat, due: map<Handle, nat>, p: nat,
                      h: Handle,
                      tasks': map<Handle, Task>)
    requires |slots| == CAPACITY && Lasting(tasks, slots, now, due) && p < CAPACITY && tasks'.Keys == tasks.Keys + {h}
    ensures var d := now + Distance(now % CAPACITY, p);
      Lasting(tasks', slots[p := slots[p] + [h]], now, due[h := if h in tasks then Max(due[h], d) else d])
  {
    hide Distance;
    PositionDue(now, p);
    var d := now + Distance(now % CAPACITY, p);
    var slots', due' := slots[p := slots[p] + [h]], due[h := if h in tasks then Max(due[h], d) else d];
    forall g | g in tasks' ensures g in due' && now <= due'[g] < now + CAPACITY && g in slots'[due'[g] % CAPACITY] {
      if g in tasks {
        assert g in slots[due[g] % CAPACITY];
      }
    }
  }

  lemma PushedLinked(m: Heap, refs: multiset<Handle>, h: Handle, id: Id, timeout: nat)
    requires Linked(m, refs)
    ensures h in m.tasks ==> Linked(m.(tasks := m.tasks[h := m.tasks[h].(uses := m.tasks[h].uses + 1)]), refs + multiset{h})
    ensures h == m.next && id !in m.timers ==>
      Linked(Heap(m.tasks[h := Task(id, timeout, false, 1)], m.timers[id := h], h + 1), refs + multiset{h})
  {
  }

  lemma Named(m: Heap, refs: multiset<Handle>, slots: seq<seq<Handle>>, now: nat, due: map<Handle, nat>)
    requires Linked(m, refs) && Timed(m.tasks, slots, now, due)
    ensures |slots| == CAPACITY && forall id :: id in m.timers ==> m.timers[id] in m.tasks && m.timers[id] in due
  {
    hide InTime;
  }

  lemma LiveTimers(m: Heap, due: map<Handle, nat>)
    requires forall id :: id in m.timers ==> m.timers[id] in m.tasks && m.timers[id] in due
    ensures LiveOf(m, due).Keys == m.timers.Keys
  {
  }

  lemma LiveAt(m: Heap, due: map<Handle, nat>, id: Id)
    requires forall id :: id in m.timers ==> m.timers[id] in m.tasks && m.timers[id] in due
    requires id in m.timers
    ensures id in LiveOf(m, due)
    ensures var h := m.timers[id]; LiveOf(m, due)[id] == Entry(due[h], m.tasks[h].timeout, m.tasks[h].canceled)
  {
  }

  /** TimerAddInLoop, as a change of values. */
  lemma Added(m: Heap, slots: seq<seq<Handle>>, now: nat, due: map<Handle, nat>, id: Id, timeout: nat)
    requires Linked(m, Bag(slots)) && Timed(m.tasks, slots, now, due) && id !in m.timers
    ensures |slots| == CAPACITY && forall i :: i in m.timers ==> m.timers[i] in m.tasks && m.timers[i] in due
    ensures var h, p, d := m.next, Position(now % CAPACITY, timeout), now + Delay(now, timeout);
      var m' := Heap(m.tasks[h := Task(id, timeout, false, 1)], m.timers[id := h], h + 1);
      var slots', due' := slots[p := slots[p] + [h]], due[h := d];
      Linked(m', Bag(slots')) && Timed(m'.tasks, slots', now, due') &&
      (forall i :: i in m'.timers ==> m'.timers[i] in m'.tasks && m'.timers[i] in due') &&
      LiveOf(m', due') == LiveOf(m, due)[id := Entry(d, timeout, false)]
  {
    hide Bag, Linked, Timed, Position, Distance;
    var h, p := m.next, Position(now % CAPACITY, timeout);
    Named(m, Bag(slots), slots, now, due);
    NewHandle(m, Bag(slots), slots);
    PushedLinked(m, Bag(slots), h, id, timeout);
    BagPush(slots, p, h);
    PushedTimed(m.tasks, slots, now, due, p, h, m.tasks[h := Task(id, timeout, false, 1)]);
  }

  /** TimerRefreshInLoop on a live timer, as a change of values. */
  lemma Refreshed(m: Heap, slots: seq<seq<Handle>>, now: nat, due: map<Handle, nat>, id: Id)
    requires Linked(m, Bag(slots)) && Timed(m.tasks, slots, now, due) && id in m.timers
    ensures |slots| == CAPACITY && forall i :: i in m.timers ==> m.timers[i] in m.tasks && m.timers[i] in due
    ensures var h := m.timers[id];
      var task := m.tasks[h];
      var p, d := Position(now % CAPACITY, task.timeout), Max(due[h], now + Delay(now, task.timeout));
      var m' := m.(tasks := m.tasks[h := task.(uses := task.uses + 1)]);
      var slots', due' := slots[p := slots[p] + [h]], due[h := d];
      Linked(m', Bag(slots')) && Timed(m'.tasks, slots', now, due') &&
      (forall i :: i in m'.timers ==> m'.timers[i] in m'.tasks && m'.timers[i] in due') &&
      LiveOf(m', due') == LiveOf(m, due)[id := Entry(d, task.timeout, task.canceled)]
  {
    hide Bag, Linked, Timed, Position, Distance, Max;
    Named(m, Bag(slots), slots, now, due);
    Unique(m, Bag(slots), id);
    var h := m.timers[id];
    var task := m.tasks[h];
    var p := Position(now % CAPACITY, task.timeout);
    PushedLinked(m, Bag(slots), h, id, task.timeout);
    BagPush(slots, p, h);
    PushedTimed(m.tasks, slots, now, due, p, h, m.tasks[h := task.(uses := task.uses + 1)]);
  }

  /** Different timers have different tasks. */
  lemma Unique(m: Heap, refs: multiset<Handle>, id: Id)
    requires Linked(m, refs) && id in m.timers
    ensures m.timers[id] in m.tasks && m.tasks[m.timers[id]].id == id
    ensures forall i :: i in m.timers && i != id ==> m.timers[i] != m.timers[id]
  {
  }

  /** TimerCancelInLoop on a live timer, as a change of values. */
  lemma Cancelled(m: Heap, slots: seq<seq<Handle>>, now: nat, due: map<Handle, nat>, id: Id)
    requires Linked(m, Bag(slots)) && Timed(m.tasks, slots, now, due) && id in m.timers
    ensures forall i :: i in m.timers ==> m.timers[i] in m.tasks && m.timers[i] in due
    ensures var h := m.timers[id];
      var m' := m.(tasks := m.tasks[h := m.tasks[h].(canceled := true)]);
      Linked(m', Bag(slots)) && Timed(m'.tasks, slots, now, due) &&
      LiveOf(m', due) == LiveOf(m, due)[id := Entry(due[h], m.tasks[h].timeout, true)]
  {
    hide Bag, Linked, Timed;
    Unique(m, Bag(slots), id);
    Named(m, Bag(slots), slots, now, due);
    var h := m.timers[id];
    CancelLinked(m, Bag(slots), h);
    SameTimed(m.tasks, slots, now, due, m.tasks[h := m.tasks[h].(canceled := true)]);
  }

  lemma CancelLinked(m: Heap, refs: multiset<Handle>, h: Handle)
    requires Linked(m, refs) && h in m.tasks
    ensures Linked(m.(tasks := m.tasks[h := m.tasks[h].(canceled := true)]), refs)
  {
  }

  lemma SameTimed(tasks: map<Handle, Task>, slots: seq<seq<Handle>>, now: nat, due: map<Handle, nat>,
                  tasks': map<Handle, Task>)
    requires Timed(tasks, slots, now, due) && tasks'.Keys == tasks.Keys
    ensures Timed(tasks', slots, now, due)
  {
    hide InTime;
    assert forall h :: h in tasks' ==> h in tasks;
  }

  // ----- Clearing a slot

  /** One reference less. */
  function Dropped(m: Heap, h: Handle): Heap
    requires h in m.tasks && m.tasks[h].uses > 0
  {
    var task := m.tasks[h];
    if task.uses > 1 then m.(tasks := m.tasks[h := task.(uses := task.uses - 1)])
    else Heap(m.tasks - {h}, m.timers - {task.id}, m.next)
  }

  function Callbacks(m: Heap, h: Handle): seq<Id>
    requires h in m.tasks
  {
    if m.tasks[h].uses > 1 || m.tasks[h].canceled then [] else [m.tasks[h].id]
  }

  lemma DropLinked(m: Heap, refs: multiset<Handle>, h: Handle)
    requires Linked(m, refs) && h in refs
    ensures h in m.tasks && m.tasks[h].uses > 0 && Linked(Dropped(m, h), refs - multiset{h})
  {
  }

  /** Some of m's tasks are still there. */
  ghost predicate Remains(m: Heap, m': Heap) {
    (forall h :: h in m'.tasks ==>
      h in m.tasks && m'.tasks[h].id == m.tasks[h].id && m'.tasks[h].timeout == m.tasks[h].timeout &&
      m'.tasks[h].canceled == m.tasks[h].canceled) &&
    (forall id :: id in m'.timers ==> id in m.timers && m'.timers[id] == m.timers[id])
  }

  /** The callbacks of exactly the destroyed, uncanceled tasks have run, once each. */
  ghost predicate Fires(m: Heap, m': Heap, before: seq<Id>, after: seq<Id>) {
    forall id ::
      multiset(after)[id] ==
      multiset(before)[id] + (if Destroyed(m, m', id) && !m.tasks[m.timers[id]].canceled then 1 else 0)
  }

  ghost predicate Destroyed(m: Heap, m': Heap, id: Id) {
    id in m.timers && m.timers[id] in m.tasks && m.timers[id] !in m'.tasks
  }

  lemma FiresNone(m: Heap, fired: seq<Id>)
    ensures Remains(m, m) && Fires(m, m, fired, fired)
  {
  }

  lemma DropFires(m: Heap, m': Heap, all: multiset<Handle>, refs: multiset<Handle>, h: Handle, before: seq<Id>,
                  after: seq<Id>)
    requires Linked(m, all) && Linked(m', refs) && Remains(m, m') && h in m'.tasks && m'.tasks[h].uses > 0
    requires Fires(m, m', before, after)
    ensures Remains(m, Dropped(m', h)) && Fires(m, Dropped(m', h), before, after + Callbacks(m', h))
  {
    hide Linked, Destroyed, Fires;
    var id := m'.tasks[h].id;
    forall i ensures Destroyed(m, Dropped(m', h), i) == (Destroyed(m, m', i) || (m'.tasks[h].uses == 1 && i == id)) {
      DropDestroys(m, m', all, refs, h, i);
    }
    DropDestroys(m, m', all, refs, h, id);
    OneMore(m, m', Dropped(m', h), h, before, after);
  }

  lemma OneMore(m: Heap, m': Heap, m'': Heap, h: Handle, before: seq<Id>, after: seq<Id>)
    requires h in m.tasks && h in m'.tasks && m'.tasks[h].uses > 0 && m.tasks[h].canceled == m'.tasks[h].canceled
    requires var id := m'.tasks[h].id; id in m.timers && m.timers[id] == h && !Destroyed(m, m', id)
    requires forall i :: Destroyed(m, m'', i) == (Destroyed(m, m', i) || (m'.tasks[h].uses == 1 && i == m'.tasks[h].id))
    requires Fires(m, m', before, after)
    ensures Fires(m, m'', before, after + Callbacks(m', h))
  {
    hide Destroyed;
  }

  lemma DropDestroys(m: Heap, m': Heap, all: multiset<Handle>, refs: multiset<Handle>, h: Handle, i: Id)
    requires Linked(m, all) && Linked(m', refs) && Remains(m, m') && h in m'.tasks && m'.tasks[h].uses > 0
    ensures Destroyed(m, Dropped(m', h), i) == (Destroyed(m, m', i) || (m'.tasks[h].uses == 1 && i == m'.tasks[h].id))
    ensures var id := m'.tasks[h].id;
      id in m.timers && m.timers[id] == h && h in m.tasks && !Destroyed(m, m', id) &&
      m.tasks[h].canceled == m'.tasks[h].canceled
  {
  }

  function RefsFrom(rest: multiset<Handle>, slot: seq<Handle>, i: nat): multiset<Handle>
    requires i <= |slot|
  {
    rest + multiset(slot[i..])
  }

  lemma NextRef(rest: multiset<Handle>, slot: seq<Handle>, i: nat)
    requires i < |slot|
    ensures slot[i] in RefsFrom(rest, slot, i) &&
      RefsFrom(rest, slot, i) - multiset{slot[i]} == RefsFrom(rest, slot, i + 1)
  {
    assert slot[i..] == [slot[i]] + slot[i + 1..];
  }

  lemma NoRefs(rest: multiset<Handle>, slot: seq<Handle>)
    ensures RefsFrom(rest, slot, |slot|) == rest
  {
  }

  lemma SlotRefs(slots: seq<seq<Handle>>, p: nat)
    requires p < |slots|
    ensures RefsFrom(Bag(slots[p := []]), slots[p], 0) == Bag(slots)
  {
    hide Bag;
    BagUpdate(slots, p, []);
    assert slots[p][0..] == slots[p];
  }

  lemma DistanceShift(now: nat, p: nat)
    requires p < CAPACITY && p != now % CAPACITY
    ensures now + 1 + Distance((now + 1) % CAPACITY, p) == now + Distance(now % CAPACITY, p)
  {
  }

  /** With its slot cleared, exactly the tasks that were due are gone. */
  lemma Ticked(m: Heap, slots: seq<seq<Handle>>, now: nat, due: map<Handle, nat>, m': Heap, before: seq<Id>,
               after: seq<Id>)
    requires Linked(m, Bag(slots)) && Timed(m.tasks, slots, now, due)
    requires Linked(m', Bag(slots[now % CAPACITY := []])) && Remains(m, m') && Fires(m, m', before, after)
    ensures Timed(m'.tasks, slots[now % CAPACITY := []], now + 1, due)
    ensures forall i :: i in m.timers ==> m.timers[i] in m.tasks && m.timers[i] in due
    ensures forall i :: i in m'.timers ==> m'.timers[i] in m'.tasks && m'.timers[i] in due
    ensures var t := Step(Timers(now, LiveOf(m, due), multiset(before)), Tick);
      t == Timers(now + 1, LiveOf(m', due), multiset(after))
  {
    hide Bag, Linked, LiveOf, Fires;
    var slots' := slots[now % CAPACITY := []];
    Named(m, Bag(slots), slots, now, due);
    forall h | h in m.tasks ensures h in m'.tasks <==> due[h] != now {
      Outlives(m, slots, now, due, m', h);
    }
    TickTimed(m, slots, now, due, m');
    Named(m', Bag(slots'), slots', now + 1, due);
    TickModel(m, Bag(slots), now, due, m', Bag(slots'), before, after);
  }

  lemma Outlives(m: Heap, slots: seq<seq<Handle>>, now: nat, due: map<Handle, nat>, m': Heap, h: Handle)
    requires Timed(m.tasks, slots, now, due) && Linked(m', Bag(slots[now % CAPACITY := []])) && h in m.tasks
    ensures h in due && (h in m'.tasks <==> due[h] != now)
  {
    hide Bag;
    var slots' := slots[now % CAPACITY := []];
    BagHas(slots', h);
    if due[h] != now {
      assert h in slots'[due[h] % CAPACITY];
    } else {
      forall p | 0 <= p < CAPACITY ensures h !in slots'[p] {
        if h in slots[p] {
          assert now + Distance(now % CAPACITY, p) <= due[h];
        }
      }
    }
  }

  lemma TickTimed(m: Heap, slots: seq<seq<Handle>>, now: nat, due: map<Handle, nat>, m': Heap)
    requires Timed(m.tasks, slots, now, due) && Remains(m, m')
    requires forall h :: h in m.tasks ==> h in due && (h in m'.tasks <==> due[h] != now)
    ensures Timed(m'.tasks, slots[now % CAPACITY := []], now + 1, due)
  {
    hide InTime, Lasting;
    TickInTime(slots, now, due);
    TickLasting(m, slots, now, due, m');
  }

  lemma TickInTime(slots: seq<seq<Handle>>, now: nat, due: map<Handle, nat>)
    requires |slots| == CAPACITY && InTime(slots, now, due)
    ensures InTime(slots[now % CAPACITY := []], now + 1, due)
  {
    hide Distance;
    var slots' := slots[now % CAPACITY := []];
    forall p, h | 0 <= p < CAPACITY && h in slots'[p]
      ensures h in due && now + 1 + Distance((now + 1) % CAPACITY, p) <= due[h]
    {
      assert h in slots[p];
      DistanceShift(now, p);
    }
  }

  lemma TickLasting(m: Heap, slots: seq<seq<Handle>>, now: nat, due: map<Handle, nat>, m': Heap)
    requires |slots| == CAPACITY && Lasting(m.tasks, slots, now, due) && Remains(m, m')
    requires forall h :: h in m.tasks ==> h in due && (h in m'.tasks <==> due[h] != now)
    ensures Lasting(m'.tasks, slots[now % CAPACITY := []], now + 1, due)
  {
    var slots' := slots[now % CAPACITY := []];
    forall h | h in m'.tasks
      ensures h in due && now + 1 <= due[h] < now + 1 + CAPACITY && h in slots'[due[h] % CAPACITY]
    {
      assert h in slots[due[h] % CAPACITY];
      OtherSlot(now, due[h]);
    }
  }

  lemma OtherSlot(now: nat, d: nat)
    requires now < d < now + CAPACITY
    ensures d % CAPACITY != now % CAPACITY
  {
  }

  lemma TickModel(m: Heap, all: multiset<Handle>, now: nat, due: map<Handle, nat>, m': Heap, refs: multiset<Handle>,
                  before: seq<Id>, after: seq<Id>)
    requires Linked(m, all) && Linked(m', refs) && Remains(m, m') && Fires(m, m', before, after)
    requires forall h :: h in m.tasks ==> h in due && (h in m'.tasks <==> due[h] != now)
    ensures forall i :: i in m.timers ==> m.timers[i] in m.tasks && m.timers[i] in due
    ensures forall i :: i in m'.timers ==> m'.timers[i] in m'.tasks && m'.timers[i] in due
    ensures Step(Timers(now, LiveOf(m, due), multiset(before)), Tick) == Timers(now + 1, LiveOf(m', due), multiset(after))
  {
    hide LiveOf, Fires;
    SurvivorsNamed(m, all, due, m', refs);
    TickLive(m, now, due, m');
    TickFired(m, now, due, m', before, after);
  }

  /** A name survives exactly with its task. */
  lemma SurvivorsNamed(m: Heap, all: multiset<Handle>, due: map<Handle, nat>, m': Heap, refs: multiset<Handle>)
    requires Linked(m, all) && Linked(m', refs) && Remains(m, m') && forall h :: h in m.tasks ==> h in due
    ensures forall i :: i in m.timers ==> m.timers[i] in m.tasks && m.timers[i] in due
    ensures forall i :: i in m'.timers ==> m'.timers[i] in m'.tasks && m'.timers[i] in due
    ensures forall i :: i in m'.timers <==> i in m.timers && m.timers[i] in m'.tasks
  {
    forall i | i in m.timers && m.timers[i] in m'.tasks ensures i in m'.timers {
      assert m'.tasks[m.timers[i]].id == i;
    }
  }

  lemma TickLive(m: Heap, now: nat, due: map<Handle, nat>, m': Heap)
    requires Remains(m, m')
    requires forall i :: i in m.timers ==> m.timers[i] in m.tasks && m.timers[i] in due
    requires forall i :: i in m'.timers ==> m'.timers[i] in m'.tasks && m'.timers[i] in due
    requires forall i :: i in m'.timers <==> i in m.timers && m.timers[i] in m'.tasks
    requires forall h :: h in m.tasks ==> h in due && (h in m'.tasks <==> due[h] != now)
    ensures LiveOf(m', due) == map id | id in LiveOf(m, due) && LiveOf(m, due)[id].deadline != now :: LiveOf(m, due)[id]
  {
  }

  lemma TickFired(m: Heap, now: nat, due: map<Handle, nat>, m': Heap, before: seq<Id>, after: seq<Id>)
    requires Fires(m, m', before, after)
    requires forall i :: i in m.timers ==> m.timers[i] in m.tasks && m.timers[i] in due
    requires forall h :: h in m.tasks ==> h in due && (h in m'.tasks <==> due[h] != now)
    ensures Step(Timers(now, LiveOf(m, due), multiset(before)), Tick).fired == multiset(after)
  {
    var t := Timers(now, LiveOf(m, due), multiset(before));
    var set' := set id | id in t.live && Due(t, id) && !t.live[id].canceled;
    assert forall id :: Destroyed(m, m', id) == Due(t, id);
    assert forall id :: (t.fired + multiset(set'))[id] == multiset(after)[id];
  }

  class TimerWheel {
    var tick: nat
    var wheel: seq<seq<Handle>>
    /** The TimerTask objects and, in `timers`, the weak references to them. */
    var heap: Heap
    /** Ids whose callback has run. */
    var fired: seq<Id>
    ghost var now: nat
    ghost var due: map<Handle, nat>

    ghost predicate Valid()
      reads this
    {
      tick == now % CAPACITY && Linked(heap, Bag(wheel)) && Timed(heap.tasks, wheel, now, due)
    }

    /** The map the wheel stands for. */
    ghost function Model(): Timers
      reads this
      requires Valid()
    {
      Named(heap, Bag(wheel), wheel, now, due);
      Timers(now, LiveOf(heap, due), multiset(fired))
    }

    constructor ()
      ensures Valid() && Model() == Timers(0, map[], multiset{})
    {
      tick, heap, fired, now, due := 0, Heap(map[], map[], 0), [], 0, map[];
      wheel := seq(CAPACITY, i => []);
      new;
      NoReferences(wheel);
    }

    /** HasTimer, and IsExistTimer */
    method HasTimer(id: Id) returns (b: bool)
      requires Valid()
      ensures b <==> id in Model().live
    {
      b := id in heap.timers;
    }

    method TimerAddInLoop(id: Id, timeout: nat)
      requires Valid() && Allowed(Model(), Add(id, timeout))
      modifies this
      ensures Valid() && Model() == Step(old(Model()), Add(id, timeout))
    {
      hide Bag, Linked, Timed, LiveOf, Position, Distance;
      Named(heap, Bag(wheel), wheel, now, due);
      LiveTimers(heap, due);
      Added(heap, wheel, now, due, id, timeout);
      var pt := heap.next;
      var pos := Position(tick, timeout);
      heap := Heap(heap.tasks[pt := Task(id, timeout, false, 1)], heap.timers[id := pt], pt + 1);
      wheel := wheel[pos := wheel[pos] + [pt]];
      due := due[pt := now + Delay(now, timeout)];
    }

    method TimerRefreshInLoop(id: Id)
      requires Valid()
      modifies this
      ensures Valid() && Model() == Step(old(Model()), Refresh(id))
    {
      hide Bag, Linked, Timed, LiveOf, Position, Distance, Max;
      Named(heap, Bag(wheel), wheel, now, due);
      LiveTimers(heap, due);
      if id !in heap.timers {
        return;
      }
      Refreshed(heap, wheel, now, due, id);
      LiveAt(heap, due, id);
      var pt := heap.timers[id];
      var task := heap.tasks[pt]; // lock() never finds the weak reference expired: see Linked
      var pos := Position(tick, task.timeout);
      heap := heap.(tasks := heap.tasks[pt := task.(uses := task.uses + 1)]);
      wheel := wheel[pos := wheel[pos] + [pt]];
      due := due[pt := Max(due[pt], now + Delay(now, task.timeout))];
    }

    method TimerCancelInLoop(id: Id)
      requires Valid()
      modifies this`heap
      ensures Valid() && Model() == Step(old(Model()), Cancel(id))
    {
      hide Bag, Linked, Timed, LiveOf;
      Named(heap, Bag(wheel), wheel, now, due);
      LiveTimers(heap, due);
      if id !in heap.timers {
        return;
      }
      Cancelled(heap, wheel, now, due, id);
      LiveAt(heap, due, id);
      var pt := heap.timers[id];
      heap := heap.(tasks := heap.tasks[pt := heap.tasks[pt].(canceled := true)]);
    }

    /** The destructor of a reference, and of the task if it was the last one: the
        callback, unless canceled, then the release of the timer's name.  The callback that
        the source installs, Connection::Release, does look at the wheel and cancel the
        timer, which changes nothing here: the task's last reference is gone by then, so
        no task can be locked through the wheel's weak reference. */
    method Drop(h: Handle)
      requires h in heap.tasks && heap.tasks[h].uses > 0
      modifies this`heap, this`fired
      ensures heap == Dropped(old(heap), h)
      ensures fired == old(fired) + Callbacks(old(heap), h)
    {
      var task := heap.tasks[h];
      if task.uses > 1 {
        heap := heap.(tasks := heap.tasks[h := task.(uses := task.uses - 1)]);
        return;
      }
      if !task.canceled {
        fired := fired + [task.id];
      }
      heap := Heap(heap.tasks - {h}, heap.timers - {task.id}, heap.next);
    }

    /** vector::clear, which destroys the references in order. */
    method Clear(slot: seq<Handle>, ghost rest: multiset<Handle>)
      requires Linked(heap, RefsFrom(rest, slot, 0))
      modifies this`heap, this`fired
      ensures Linked(heap, rest) && Remains(old(heap), heap) && Fires(old(heap), heap, old(fired), fired)
    {
      hide Linked, Fires, RefsFrom, Dropped, Callbacks;
      ghost var m := heap;
      FiresNone(m, fired);
      for i := 0 to |slot|
        invariant Linked(heap, RefsFrom(rest, slot, i)) && Remains(m, heap) && Fires(m, heap, old(fired), fired)
      {
        NextRef(rest, slot, i);
        DropLinked(heap, RefsFrom(rest, slot, i), slot[i]);
        DropFires(m, heap, RefsFrom(rest, slot, 0), RefsFrom(rest, slot, i), slot[i], old(fired), fired);
        Drop(slot[i]);
      }
      NoRefs(rest, slot);
    }

    method RunTimerTask()
      requires Valid()
      modifies this
      ensures Valid() && Model() == Step(old(Model()), Tick)
    {
      hide Bag, Linked, Timed, LiveOf, Fires, RefsFrom, Step;
      ghost var m, slots := heap, wheel;
      Named(m, Bag(slots), slots, now, due);
      SlotRefs(slots, tick);
      var slot := wheel[tick];
      wheel := wheel[tick := []];
      Clear(slot, Bag(wheel));
      Ticked(m, slots, now, due, heap, old(fired), fired);
      tick := (tick + 1) % CAPACITY;
      now := now + 1;
    }

    /** A timerfd expired some times since it was last read. */
    method OnTime(times: int)
      requires Valid()
      modifies this
      ensures Valid() && Model() == Exec(old(Model()), TickTimes(if times < 0 then 0 else times))
    {
      hide Step, Exec, TickTimes, Linked, Timed, Bag, LiveOf;
      ghost var n := if times < 0 then 0 else times;
      var i := 0;
      while i < times
        invariant 0 <= i <= n && Valid()
        invariant Exec(Model(), TickTimes(n - i)) == Exec(old(Model()), TickTimes(n))
      {
        OneTick(Model(), n - i);
        RunTimerTask();
        i := i + 1;
      }
      NoTicks(Model());
    }
  }

  lemma OneTick(t: Timers, n: nat)
    requires n > 0
    ensures Exec(t, TickTimes(n)) == Exec(Step(t, Tick), TickTimes(n - 1))
  {
    hide Step;
    assert TickTimes(n)[1..] == TickTimes(n - 1);
  }

  lemma NoTicks(t: Timers)
    ensures Exec(t, TickTimes(0)) == t
  {
  }

  function TickTimes(n: nat): seq<Op> { if n == 0 then [] else [Tick] + TickTimes(n - 1) }
}
