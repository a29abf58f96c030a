/** The time events of ae.c: a linked list with tombstones, walked by processTimeEvents
    while the callbacks it runs push new nodes and tombstone old ones. */
module AeTimers {
  const AE_DELETED_EVENT_ID: int := -1
  const AE_NOMORE: int := -1

  datatype Time = Time(sec: int, ms: int)

  predicate Passed(now: Time, when: Time) {
    now.sec > when.sec || (now.sec == when.sec && now.ms >= when.ms)
  }

  /** C's truncating division by 1000. */
  function Quotient(n: int): int { if n >= 0 then n / 1000 else -((-n) / 1000) }

  /** aeAddMillisecondsToNow */
  function Later(now: Time, milliseconds: int): Time {
    var sec := now.sec + Quotient(milliseconds);
    var ms := now.ms + (milliseconds - 1000 * Quotient(milliseconds));
    if ms >= 1000 then Time(sec + 1, ms - 1000) else Time(sec, ms)
  }

  function Millis(t: Time): int { t.sec * 1000 + t.ms }

  /** The sum in milliseconds, with the carry of a normal time. */
  lemma LaterExact(now: Time, milliseconds: int)
    ensures Millis(Later(now, milliseconds)) == Millis(now) + milliseconds
    ensures 0 <= now.ms < 1000 && milliseconds >= 0 ==> 0 <= Later(now, milliseconds).ms < 1000
  {
    if milliseconds >= 0 {
      assert milliseconds == 1000 * (milliseconds / 1000) + milliseconds % 1000;
    }
  }

  /** On normal times a timer is due exactly if its time is not after now. */
  lemma PassedExact(now: Time, when: Time)
    requires 0 <= now.ms < 1000 && 0 <= when.ms < 1000
    ensures Passed(now, when) <==> Millis(when) <= Millis(now)
  {
    if now.sec > when.sec {
      assert now.sec * 1000 >= when.sec * 1000 + 1000;
    } else if now.sec < when.sec {
      assert now.sec * 1000 + 1000 <= when.sec * 1000;
    }
  }

  class TimeEvent {
    var id: int
    var when: Time
    var next: TimeEvent?

    constructor (id: int, when: Time, next: TimeEvent?)
      ensures this.id == id && this.when == when && this.next == next
    {
      this.id, this.when, this.next := id, when, next;
    }
  }

  /** What a callback does to the list, and returns. */
  datatype Act = Create(milliseconds: int) | Delete(id: int)
  datatype Script = Script(acts: seq<Act>, retval: int)

  datatype LogEntry = Fired(node: TimeEvent, id: int) | Finalized(node: TimeEvent)

  /** The walk reached a node: the id it had then, whether its callback was run, and how
      often the clock was read and callbacks of this pass were run before. */
  datatype Visit = Visit(node: TimeEvent, id: int, due: bool, read: nat, number: nat)

  function Creates(acts: seq<Act>): nat {
    if acts == [] then 0 else Creates(acts[..|acts| - 1]) + if acts[|acts| - 1].Create? then 1 else 0
  }

  /** The callback run at a visit leaves a tombstone on the timer of this id. */
  ghost predicate Ends(v: Visit, procs: nat -> Script, id: int) {
    v.due && (Delete(id) in procs(v.number).acts || (id == v.id && procs(v.number).retval == AE_NOMORE))
  }

  ghost predicate Ended(visits: seq<Visit>, procs: nat -> Script, id: int) {
    exists k :: 0 <= k < |visits| && Ends(visits[k], procs, id)
  }

  /** The id that a timer has after some visits. */
  ghost function IdAfter(visits: seq<Visit>, procs: nat -> Script, id: int): int {
    if Ended(visits, procs, id) then AE_DELETED_EVENT_ID else id
  }

  /** The time at which a visited timer is due next. */
  function WhenAfter(v: Visit, procs: nat -> Script, clock: nat -> Time, when: Time): Time {
    var script := procs(v.number);
    if v.due && script.retval != AE_NOMORE then Later(clock(v.read + 1 + Creates(script.acts)), script.retval) else when
  }

  ghost function Created(visits: seq<Visit>, procs: nat -> Script): nat {
    if visits == [] then 0 else
      var v := visits[|visits| - 1];
      Created(visits[..|visits| - 1], procs) + if v.due then Creates(procs(v.number).acts) else 0
  }

  /** How often a visit reads the clock. */
  function Reads(v: Visit, procs: nat -> Script): nat {
    if v.id == AE_DELETED_EVENT_ID then 0 else if !v.due then 1
    else
      var script := procs(v.number);
      1 + Creates(script.acts) + if script.retval != AE_NOMORE then 1 else 0
  }

  ghost function Readings(visits: seq<Visit>, procs: nat -> Script): nat {
    if visits == [] then 0 else Readings(visits[..|visits| - 1], procs) + Reads(visits[|visits| - 1], procs)
  }

  /** A pass: the nodes, ids and times it starts with, the clock readings taken and ids
      handed out before, what its callbacks do, and the clock. */
  datatype Pass = Pass(nodes: seq<TimeEvent>, ids: seq<int>, whens: seq<Time>, read: nat, nextId: nat,
                       procs: nat -> Script, clock: nat -> Time)

  /** The k-th visit is to the k-th node, with the id that the callbacks run so far left it,
      and runs its callback exactly if that is live and its time has passed. */
  ghost predicate Faithful(p: Pass, visits: seq<Visit>, v: Visit)
    requires |visits| < |p.nodes| == |p.ids| == |p.whens|
  {
    var k := |visits|;
    v.node == p.nodes[k] && v.id == IdAfter(visits, p.procs, p.ids[k]) &&
    v.read == p.read + Readings(visits, p.procs) && v.number == Firings(visits) &&
    v.due == (v.id != AE_DELETED_EVENT_ID && Passed(p.clock(v.read), p.whens[k]))
  }

  ghost predicate AllFaithful(p: Pass, visits: seq<Visit>) {
    |visits| <= |p.nodes| == |p.ids| == |p.whens| &&
    forall k :: 0 <= k < |visits| ==> Faithful(p, visits[..k], visits[k])
  }

  /** The nodes that are still in the list have the ids and times that the visits gave them. */
  ghost predicate AsLeft(p: Pass, visits: seq<Visit>)
    requires |visits| <= |p.nodes| == |p.ids| == |p.whens|
    reads p.nodes
  {
    forall k: nat :: InList(p, visits, k) ==>
      p.nodes[k].id == IdAfter(visits, p.procs, p.ids[k]) && p.nodes[k].when == Due(p, visits, k)
  }

  ghost predicate InList(p: Pass, visits: seq<Visit>, k: nat) {
    k < |p.nodes| && (k < |visits| ==> visits[k].id != AE_DELETED_EVENT_ID)
  }

  ghost function Due(p: Pass, visits: seq<Visit>, k: nat): Time
    requires k < |p.whens|
  {
    if k < |visits| then WhenAfter(visits[k], p.procs, p.clock, p.whens[k]) else p.whens[k]
  }

  /** The timers made in the pass, the latest first; callbacks may have deleted some. */
  ghost predicate Numbered(made: seq<TimeEvent>, nextId: nat)
    reads made
  {
    forall j :: 0 <= j < |made| ==> made[j].id == AE_DELETED_EVENT_ID || made[j].id == nextId - 1 - j
  }

  ghost function Kept(visits: seq<Visit>): seq<TimeEvent> {
    if visits == [] then [] else
      var v := visits[|visits| - 1];
      Kept(visits[..|visits| - 1]) + if v.id == AE_DELETED_EVENT_ID then [] else [v.node]
  }

  ghost function Entries(visits: seq<Visit>): seq<LogEntry> {
    if visits == [] then [] else
      var v := visits[|visits| - 1];
      Entries(visits[..|visits| - 1]) + EntryOf(v)
  }

  ghost function NodeAt(nodes: seq<TimeEvent>, i: nat): TimeEvent? { if i < |nodes| then nodes[i] else null }

  ghost predicate Linked(nodes: seq<TimeEvent>)
    reads nodes
  {
    forall i :: 0 <= i < |nodes| ==> nodes[i].next == NodeAt(nodes, i + 1)
  }

  ghost predicate Distinct(nodes: seq<TimeEvent>) {
    forall i, j :: 0 <= i < j < |nodes| ==> nodes[i] != nodes[j]
  }

  /** Live ids are handed out once. */
  ghost predicate Ids(nodes: seq<TimeEvent>, nextId: int)
    reads nodes
  {
    (forall n :: n in nodes ==> n.id == AE_DELETED_EVENT_ID || 0 <= n.id < nextId) &&
    forall m, n :: m in nodes && n in nodes && m != n && m.id == n.id ==> m.id == AE_DELETED_EVENT_ID
  }

  ghost predicate Chain(head: TimeEvent?, nodes: seq<TimeEvent>, nextId: int)
    reads nodes
  {
    head == NodeAt(nodes, 0) && Linked(nodes) && Distinct(nodes) && Ids(nodes, nextId)
  }

  lemma Pushed(te: TimeEvent, nodes: seq<TimeEvent>, nextId: nat)
    requires Linked(nodes) && Distinct(nodes) && Ids(nodes, nextId) && te !in nodes && te.next == NodeAt(nodes, 0) &&
      te.id == nextId
    ensures Chain(te, [te] + nodes, nextId + 1)
  {
    var more := [te] + nodes;
    assert Linked(more) by {
      hide Distinct, Ids;
      forall i | 0 <= i < |more| ensures more[i].next == NodeAt(more, i + 1) {
        if i > 0 {
          assert more[i] == nodes[i - 1] && NodeAt(nodes, i) == NodeAt(more, i + 1);
        }
      }
    }
    assert Distinct(more) by { hide Linked, Ids; }
    assert Ids(more, nextId + 1) by { hide Linked, Distinct; }
  }

  class AeEventLoop {
    var timeEventHead: TimeEvent?
    var timeEventNextId: nat
    var lastTime: int
    /** The readings of the clock, and how many were taken. */
    const clock: nat -> Time
    var readings: nat
    /** The callbacks and finalizers run so far. */
    var log: seq<LogEntry>
    /** The list. */
    ghost var nodes: seq<TimeEvent>

    ghost predicate Valid()
      reads this, nodes
    {
      Chain(timeEventHead, nodes, timeEventNextId)
    }

    ghost function NodeSet(): set<TimeEvent>
      reads this
    {
      set n | n in nodes
    }

    constructor (clock: nat -> Time)
      ensures Valid() && nodes == [] && log == []
    {
      this.clock := clock;
      timeEventHead, timeEventNextId, lastTime, readings, log, nodes := null, 0, 0, 0, [], [];
    }

    method Note(entry: LogEntry)
      modifies this`log
      ensures log == old(log) + [entry] && (old(Valid()) ==> Valid())
    {
      hide Chain;
      log := log + [entry];
    }

    /** aeGetTime */
    method GetTime() returns (now: Time)
      modifies this`readings
      ensures now == clock(old(readings)) && readings == old(readings) + 1
      ensures old(Valid()) ==> Valid()
    {
      hide Chain;
      now := clock(readings);
      readings := readings + 1;
    }

    /** aeCreateTimeEvent: the new timer becomes the head. */
    method CreateTimeEvent(milliseconds: int) returns (id: int)
      requires Valid()
      modifies this`timeEventHead, this`timeEventNextId, this`nodes, this`readings
      ensures Valid() && id == old(timeEventNextId) && timeEventNextId == id + 1
      ensures |nodes| == |old(nodes)| + 1 && nodes[1..] == old(nodes) && fresh(nodes[0])
      ensures nodes[0].id == id && nodes[0].when == Later(clock(old(readings)), milliseconds) &&
        readings == old(readings) + 1
    {
      hide Linked, Distinct, Ids;
      id := timeEventNextId;
      timeEventNextId := timeEventNextId + 1;
      var now := GetTime();
      var te := new TimeEvent(id, Later(now, milliseconds), timeEventHead);
      Pushed(te, nodes, id);
      timeEventHead := te;
      nodes := [te] + nodes;
    }

    /** aeDeleteTimeEvent: it only leaves a tombstone. */
    method DeleteTimeEvent(id: int) returns (ok: bool)
      requires Valid()
      modifies nodes
      ensures Valid() && forall n :: n in nodes ==> n.when == old(n.when) && n.next == old(n.next)
      ensures ok <==> exists n :: n in nodes && old(n.id) == id
      ensures forall n :: n in nodes ==> n.id == if old(n.id) == id then AE_DELETED_EVENT_ID else old(n.id)
    {
      var te := timeEventHead;
      ghost var i := 0;
      while te != null
        invariant i <= |nodes| && te == (if i < |nodes| then nodes[i] else null)
        invariant forall j :: 0 <= j < i ==> nodes[j].id != id
        decreases |nodes| - i
      {
        if te.id == id {
          te.id := AE_DELETED_EVENT_ID;
          assert forall n :: n in nodes ==> n.next == old(n.next);
          return true;
        }
        te := te.next;
        i := i + 1;
      }
      ok := false;
    }

    /** One thing that a callback does. */
    method RunAct(act: Act) returns (ghost made: seq<TimeEvent>)
      requires Valid()
      modifies this`timeEventHead, this`timeEventNextId, this`nodes, this`readings, nodes
      ensures Valid() && nodes == made + old(nodes) && fresh(made)
      ensures forall n :: n in old(nodes) ==>
        n.when == old(n.when) && n.next == old(n.next) &&
        n.id == if act == Delete(old(n.id)) then AE_DELETED_EVENT_ID else old(n.id)
      ensures |made| == (if act.Create? then 1 else 0) && Numbered(made, timeEventNextId)
      ensures timeEventNextId == old(timeEventNextId) + |made| && readings == old(readings) + |made|
    {
      hide Linked, Distinct, Ids, Later;
      match act {
        case Create(milliseconds) =>
          var id := CreateTimeEvent(milliseconds);
          made := [nodes[0]];
          assert nodes == [nodes[0]] + nodes[1..];
        case Delete(id) =>
          var ok := DeleteTimeEvent(id);
          made := [];
      }
    }

    /** A callback: it creates and deletes timers as it likes. */
    method RunProc(script: Script) returns (ghost made: seq<TimeEvent>)
      requires Valid()
      modifies this`timeEventHead, this`timeEventNextId, this`nodes, this`readings, nodes
      ensures Valid() && nodes == made + old(nodes) && fresh(made)
      ensures forall n :: n in old(nodes) ==>
        n.when == old(n.when) && n.next == old(n.next) &&
        n.id == if Delete(old(n.id)) in script.acts then AE_DELETED_EVENT_ID else old(n.id)
      ensures |made| == Creates(script.acts) && Numbered(made, timeEventNextId)
      ensures timeEventNextId == old(timeEventNextId) + |made| && readings == old(readings) + |made|
    {
      hide Linked, Distinct, Ids, Creates, Chain;
      made := [];
      NoActs(script.acts);
      for i := 0 to |script.acts|
        invariant Valid() && nodes == made + old(nodes) && fresh(made)
        invariant |made| == Creates(script.acts[..i]) && Numbered(made, timeEventNextId)
        invariant timeEventNextId == old(timeEventNextId) + |made| && readings == old(readings) + |made|
        invariant forall n :: n in old(nodes) ==>
          n.when == old(n.when) && n.next == old(n.next) &&
          n.id == if Delete(old(n.id)) in script.acts[..i] then AE_DELETED_EVENT_ID else old(n.id)
      {
        NextAct(script.acts, i);
        ghost var more := RunAct(script.acts[i]);
        assert more + (made + old(nodes)) == more + made + old(nodes);
        made := more + made;
      }
      assert script.acts[..|script.acts|] == script.acts;
    }

    /** Takes a node out from behind `prev`, or from the front. */
    method Unlink(prev: TimeEvent?, te: TimeEvent, ghost before: seq<TimeEvent>, ghost after: seq<TimeEvent>)
      requires Valid() && nodes == before + [te] + after
      requires prev == (if before == [] then null else before[|before| - 1])
      modifies this`timeEventHead, this`nodes, if prev == null then {} else {prev}
      ensures Valid() && nodes == before + after
      ensures forall n :: n in old(nodes) ==> n.id == old(n.id) && n.when == old(n.when)
      ensures NodeSet() <= old(NodeSet())
    {
      hide Linked, Distinct;
      UnlinkFacts(before, te, after);
      UnlinkDistinct(before, te, after);
      FewerIds(before, te, after, timeEventNextId);
      if prev == null {
        timeEventHead := te.next;
      } else {
        prev.next := te.next;
      }
      nodes := before + after;
      Relinked(before, after);
    }

    /** The system clock went back: every timer is made due. */
    method ForceAll()
      requires Valid()
      modifies nodes
      ensures Valid() && IdsOf(nodes) == old(IdsOf(nodes)) && Whens(nodes, false) == old(Whens(nodes, true))
    {
      hide IdsOf, Whens;
      var te := timeEventHead;
      ghost var i := 0;
      while te != null
        invariant i <= |nodes| && te == NodeAt(nodes, i)
        invariant forall n :: n in nodes ==> n.id == old(n.id) && n.next == old(n.next)
        invariant forall j :: 0 <= j < |nodes| ==>
          nodes[j].when == if j < i then old(nodes[j].when).(sec := 0) else old(nodes[j].when)
        decreases |nodes| - i
      {
        te.when := te.when.(sec := 0);
        te := te.next;
        i := i + 1;
      }
    }

    method Tombstone(te: TimeEvent)
      requires Valid()
      modifies te`id
      ensures Valid() && te.id == AE_DELETED_EVENT_ID
    {
      hide Distinct;
      te.id := AE_DELETED_EVENT_ID;
    }

    method SetAgain(te: TimeEvent, milliseconds: int)
      requires Valid()
      modifies te`when, this`readings
      ensures Valid() && te.when == Later(clock(old(readings)), milliseconds) && readings == old(readings) + 1
    {
      hide Distinct, Linked, Ids, Later, Chain;
      var now := GetTime();
      SetWhen(te, Later(now, milliseconds));
    }

    method SetWhen(te: TimeEvent, when: Time)
      requires Valid()
      modifies te`when
      ensures Valid() && te.when == when
    {
      hide Distinct;
      te.when := when;
    }

    /** Runs the callback of a due timer. */
    method Fire(te: TimeEvent, script: Script) returns (ghost made: seq<TimeEvent>)
      requires Valid() && te in nodes
      modifies this`timeEventHead, this`timeEventNextId, this`nodes, this`readings, this`log, nodes
      ensures Valid() && nodes == made + old(nodes) && fresh(made)
      ensures |made| == Creates(script.acts) && Numbered(made, timeEventNextId)
      ensures timeEventNextId == old(timeEventNextId) + |made|
      ensures log == old(log) + [Fired(te, old(te.id))]
      ensures readings == old(readings) + |made| + if script.retval != AE_NOMORE then 1 else 0
      ensures forall n :: n in old(nodes) ==>
        n.next == old(n.next) &&
        n.id == (if Delete(old(n.id)) in script.acts || (n == te && script.retval == AE_NOMORE) then AE_DELETED_EVENT_ID
                 else old(n.id)) &&
        n.when == (if n == te && script.retval != AE_NOMORE then Later(clock(old(readings) + |made|), script.retval)
                   else old(n.when))
    {
      hide Distinct, Linked, Ids, Chain, Creates, Later;
      log := log + [Fired(te, te.id)];
      made := RunProc(script);
      if script.retval != AE_NOMORE {
        SetAgain(te, script.retval);
      } else {
        Tombstone(te);
      }
    }

    /** processTimeEvents, at time(NULL) == now; `procs` is what the k-th callback of the
        pass does.  Finalizers are taken not to touch the list.

        The pass reaches exactly the nodes that were in the list, in order.  It finds a
        tombstone exactly where there was one or a callback run so far left one, and
        unlinks and finalizes those nodes; it fires, once each, the live ones that are
        due; and it leaves the others, with the ids and times that the callbacks gave
        them, in order behind the timers made meanwhile, none of which it reaches. */
    method ProcessTimeEvents(now: int, procs: nat -> Script)
      returns (processed: nat, ghost visits: seq<Visit>, ghost made: seq<TimeEvent>)
      requires Valid()
      modifies this`timeEventHead, this`timeEventNextId, this`nodes, this`readings, this`log, this`lastTime, NodeSet()
      ensures Valid() && lastTime == now
      ensures |visits| == |old(nodes)| && fresh(made) && nodes == made + Kept(visits)
      ensures
        var p := Pass(old(nodes), old(IdsOf(nodes)), old(Whens(nodes, now < lastTime)), old(readings),
                      old(timeEventNextId), procs, clock);
        AllFaithful(p, visits) && AsLeft(p, visits)
      ensures |made| == Created(visits, procs) && Numbered(made, timeEventNextId)
      ensures timeEventNextId == old(timeEventNextId) + |made| && readings == old(readings) + Readings(visits, procs)
      ensures log == old(log) + Entries(visits) && processed == Firings(visits)
    {
      hide Distinct, Linked, Ids, Chain, AllFaithful, AsLeft, Kept, Entries, Created, Readings, Firings, Numbered,
        IdsOf, Whens;
      if now < lastTime {
        ForceAll();
      }
      lastTime := now;
      processed, visits, made := Walk(procs);
    }

    /** The walk has made some visits: behind the timers made meanwhile and the visited nodes
        that were kept, the rest of the list is as it was, except for tombstones. */
    ghost predicate Walking(p: Pass, visits: seq<Visit>, made: seq<TimeEvent>, prev: TimeEvent?)
      reads this, nodes, p.nodes, made
    {
      Valid() && AllFaithful(p, visits) && AsLeft(p, visits) &&
      nodes == made + Kept(visits) + p.nodes[|visits|..] &&
      prev == LastOf(Kept(visits)) && (Kept(visits) == [] ==> made == []) &&
      |made| == Created(visits, p.procs) && Numbered(made, timeEventNextId) &&
      timeEventNextId == p.nextId + |made| && readings == p.read + Readings(visits, p.procs) &&
      p.clock == clock && Below(p.ids, p.nextId)
    }

    /** Its walk over the list. */
    method Walk(procs: nat -> Script) returns (processed: nat, ghost visits: seq<Visit>, ghost made: seq<TimeEvent>)
      requires Valid()
      modifies this`timeEventHead, this`timeEventNextId, this`nodes, this`readings, this`log, NodeSet()
      ensures Valid() && |visits| == |old(nodes)| && fresh(made) && nodes == made + Kept(visits)
      ensures
        var p := Pass(old(nodes), old(IdsOf(nodes)), old(Whens(nodes, false)), old(readings), old(timeEventNextId),
                      procs, clock);
        AllFaithful(p, visits) && AsLeft(p, visits)
      ensures |made| == Created(visits, procs) && Numbered(made, timeEventNextId)
      ensures timeEventNextId == old(timeEventNextId) + |made| && readings == old(readings) + Readings(visits, procs)
      ensures log == old(log) + Entries(visits) && processed == Firings(visits)
    {
      hide Walking, Kept, Entries, EntryOf, Firings, IdsOf, Whens, AllFaithful, AsLeft, Numbered, Created, Readings,
        Linked, Distinct, Ids, Chain;
      processed, visits, made := 0, [], [];
      ghost var p := Pass(nodes, IdsOf(nodes), Whens(nodes, false), readings, timeEventNextId, procs, clock);
      WalkStarts(this, p);
      var prev: TimeEvent? := null;
      var te := timeEventHead;
      while te != null
        invariant |visits| <= |p.nodes| && te == NodeAt(p.nodes, |visits|) && Walking(p, visits, made, prev)
        invariant fresh(made) && fresh(NodeSet() - old(NodeSet()))
        invariant log == old(log) + Entries(visits) && processed == Firings(visits)
        decreases |p.nodes| - |visits|
      {
        AtNode(p.nodes, |visits|);
        ghost var visit, more;
        var fired;
        te, prev, fired, visit, more := VisitOne(te, prev, procs(processed), p, visits, made);
        VisitAdded(visits, visit, procs);
        processed := processed + if fired then 1 else 0;
        visits, made := visits + [visit], more + made;
      }
      WalkEnds(this, p, visits, made, prev);
    }

    /** One turn of its loop. */
    method VisitOne(te: TimeEvent, prev: TimeEvent?, script: Script, ghost p: Pass, ghost visits: seq<Visit>,
                    ghost made: seq<TimeEvent>)
      returns (te': TimeEvent?, prev': TimeEvent?, fired: bool, ghost visit: Visit, ghost more: seq<TimeEvent>)
      requires Walking(p, visits, made, prev) && |visits| < |p.nodes| && te == p.nodes[|visits|]
      requires script == p.procs(Firings(visits))
      modifies this`timeEventHead, this`timeEventNextId, this`nodes, this`readings, this`log, NodeSet()
      ensures Walking(p, visits + [visit], more + made, prev') && te' == NodeAt(p.nodes, |visits| + 1)
      ensures fresh(more) && fresh(NodeSet() - old(NodeSet()))
      ensures visit.node == te && visit.id == old(te.id) && (fired <==> visit.due)
      ensures log == old(log) + EntryOf(visit)
    {
      hide Walking, Firings;
      Walked(this, p, visits, made, prev);
      assert te.id < p.nextId; // so the check for timers made in this pass never holds
      if te.id == AE_DELETED_EVENT_ID {
        te', visit := Reap(te, prev, p, visits, made);
        prev', fired, more := prev, false, [];
        assert [] + made == made;
      } else {
        te', fired, visit, more := Attend(te, prev, script, p, visits, made);
        prev' := te;
      }
    }

    /** Unlinks and finalizes a node with a tombstone. */
    method Reap(te: TimeEvent, prev: TimeEvent?, ghost p: Pass, ghost visits: seq<Visit>, ghost made: seq<TimeEvent>)
      returns (te': TimeEvent?, ghost visit: Visit)
      requires Walking(p, visits, made, prev) && |visits| < |p.nodes| && te == p.nodes[|visits|]
      requires te.id == AE_DELETED_EVENT_ID
      modifies this`timeEventHead, this`nodes, this`log, NodeSet()
      ensures Walking(p, visits + [visit], made, prev) && te' == NodeAt(p.nodes, |visits| + 1)
      ensures NodeSet() <= old(NodeSet())
      ensures visit.node == te && visit.id == old(te.id) && !visit.due
      ensures log == old(log) + EntryOf(visit)
    {
      hide Distinct, Linked, Ids, Kept, AllFaithful, AsLeft, Walking, LastOf, Firings, Readings, Created, Creates,
        Numbered, Chain, IdsOf, Whens, Counted, IdAfter, Faithful, LeftAs, Listed, IsBehind, EntryOf, Reads,
        AeEventLoop.Valid;
      ghost var ids, whens, was := IdsOf(p.nodes), Whens(p.nodes, false), nodes;
      Walked(this, p, visits, made, prev);
      AllListed(this, p, visits, made, prev);
      MadeListed(this, p, visits, made, prev);
      Behind(this, p, visits, made, prev);
      te' := te.next;
      visit := TakeOut(te, prev, p, visits, made, ids, whens);
      Goes(visits, visit, made);
      StillLeft(p, visits, visit, was, ids, whens);
      NumberedNone(timeEventNextId);
      WalksOn(this, p, visits, made, prev, visit, [], made, prev);
    }

    /** What that leaves of the other nodes. */
    method TakeOut(te: TimeEvent, prev: TimeEvent?, ghost p: Pass, ghost visits: seq<Visit>, ghost made: seq<TimeEvent>,
                   ghost ids: seq<int>, ghost whens: seq<Time>)
      returns (ghost visit: Visit)
      requires Valid() && |visits| < |p.nodes| == |p.ids| == |p.whens| && te == p.nodes[|visits|]
      requires IsBehind(nodes, prev, made + Kept(visits), te, p.nodes[|visits| + 1..])
      requires te.id == IdAfter(visits, p.procs, p.ids[|visits|]) && te.id == AE_DELETED_EVENT_ID
      requires ids == IdsOf(p.nodes) && whens == Whens(p.nodes, false) && Listed(p, visits, nodes, ids, whens)
      requires readings == p.read + Readings(visits, p.procs)
      requires (forall n :: n in made ==> n in nodes) && Counted(IdsOf(made), timeEventNextId)
      modifies this`timeEventHead, this`nodes, this`log, nodes
      ensures Valid() && nodes == made + Kept(visits) + p.nodes[|visits| + 1..] && NodeSet() <= old(NodeSet())
      ensures Faithful(p, visits, visit) && visit.id == old(te.id) && !visit.due && visit.node == te
      ensures log == old(log) + EntryOf(visit) && Reads(visit, p.procs) == 0
      ensures LeftAs(p, visits, visit, ids, whens) && Numbered(made, timeEventNextId)
    {
      hide Distinct, Linked, Ids, Kept, Firings, Readings, Numbered, Chain, IdsOf, Whens, Counted, IdAfter, Due,
        AeEventLoop.Valid;
      ghost var madeIds := IdsOf(made);
      visit := Visit(te, te.id, false, readings, Firings(visits));
      Note(Finalized(te));
      Unlink(prev, te, made + Kept(visits), p.nodes[|visits| + 1..]);
      StillNumbered(made, madeIds, timeEventNextId);
    }

    /** Looks at a live timer, and runs its callback if it is due. */
    method Attend(te: TimeEvent, prev: TimeEvent?, script: Script, ghost p: Pass, ghost visits: seq<Visit>,
                  ghost made: seq<TimeEvent>)
      returns (te': TimeEvent?, fired: bool, ghost visit: Visit, ghost more: seq<TimeEvent>)
      requires Walking(p, visits, made, prev) && |visits| < |p.nodes| && te == p.nodes[|visits|]
      requires te.id != AE_DELETED_EVENT_ID && script == p.procs(Firings(visits))
      modifies this`timeEventHead, this`timeEventNextId, this`nodes, this`readings, this`log, NodeSet()
      ensures Walking(p, visits + [visit], more + made, te) && te' == NodeAt(p.nodes, |visits| + 1)
      ensures fresh(more) && fresh(NodeSet() - old(NodeSet()))
      ensures visit.node == te && visit.id == old(te.id) && (fired <==> visit.due)
      ensures log == old(log) + EntryOf(visit)
    {
      hide Distinct, Linked, Ids, Passed, Kept, AllFaithful, AsLeft, Walking, LastOf, Firings, Readings, Created,
        Creates, Numbered, Chain, IdsOf, Whens, Counted, IdAfter, EntryOf, Reads, Faithful, LeftAs, Listed,
        AeEventLoop.Valid;
      ghost var ids, whens, was := IdsOf(p.nodes), Whens(p.nodes, false), nodes;
      Walked(this, p, visits, made, prev);
      AllListed(this, p, visits, made, prev);
      MadeListed(this, p, visits, made, prev);
      Held(this, p, visits, made, prev);
      fired, visit, more := LookAt(te, script, p, visits, made, ids, whens);
      te' := te.next;
      Stays(p, visits, visit, made, more);
      StillLeft(p, visits, visit, was, ids, whens);
      WalksOn(this, p, visits, made, prev, visit, more, more + made, te);
    }

    /** What that leaves of the nodes still in the list, and of the timers made before. */
    method LookAt(te: TimeEvent, script: Script, ghost p: Pass, ghost visits: seq<Visit>, ghost made: seq<TimeEvent>,
                  ghost ids: seq<int>, ghost whens: seq<Time>)
      returns (fired: bool, ghost visit: Visit, ghost more: seq<TimeEvent>)
      requires Valid() && te in nodes && |visits| < |p.nodes| == |p.ids| == |p.whens| && te == p.nodes[|visits|]
      requires te.id == IdAfter(visits, p.procs, p.ids[|visits|]) && te.id != AE_DELETED_EVENT_ID
      requires te.when == p.whens[|visits|]
      requires ids == IdsOf(p.nodes) && whens == Whens(p.nodes, false) && Listed(p, visits, nodes, ids, whens)
      requires script == p.procs(Firings(visits)) && p.clock == clock
      requires readings == p.read + Readings(visits, p.procs)
      requires (forall n :: n in made ==> n in nodes) && Counted(IdsOf(made), timeEventNextId)
      modifies this`timeEventHead, this`timeEventNextId, this`nodes, this`readings, this`log, nodes
      ensures Valid() && nodes == more + old(nodes) && fresh(more) && te.next == old(te.next)
      ensures Faithful(p, visits, visit) && visit.id == old(te.id) && (fired <==> visit.due)
      ensures visit.number == Firings(visits) && visit.node == te
      ensures |more| == (if fired then Creates(script.acts) else 0) && Numbered(more, timeEventNextId)
      ensures timeEventNextId == old(timeEventNextId) + |more|
      ensures log == old(log) + EntryOf(visit) && readings == old(readings) + Reads(visit, p.procs)
      ensures LeftAs(p, visits, visit, ids, whens) && Numbered(made, old(timeEventNextId))
    {
      hide Distinct, Linked, Ids, Creates, Numbered, Chain, IdsOf, Whens, Counted, IdAfter, Later, Due, Passed,
        Firings, Readings, AeEventLoop.Valid;
      ghost var was, madeIds, nextId := nodes, IdsOf(made), timeEventNextId;
      visit := Visit(te, te.id, false, readings, Firings(visits));
      var now := GetTime();
      fired := Passed(now, te.when);
      visit := visit.(due := fired);
      if fired {
        more := Fire(te, script);
      } else {
        more := [];
        NumberedNone(nextId);
      }
      StillNumbered(made, madeIds, nextId);
    }
  }

  lemma NumberedNone(nextId: nat)
    ensures Numbered([], nextId)
  {
  }

  predicate Counted(ids: seq<int>, nextId: nat) {
    forall j :: 0 <= j < |ids| ==> ids[j] == AE_DELETED_EVENT_ID || ids[j] == nextId - 1 - j
  }

  lemma StillNumbered(made: seq<TimeEvent>, ids: seq<int>, nextId: nat)
    requires |ids| == |made| && Counted(ids, nextId)
    requires forall j :: 0 <= j < |made| ==> made[j].id == ids[j] || made[j].id == AE_DELETED_EVENT_ID
    ensures Numbered(made, nextId)
  {
  }

  lemma IdOn(visits: seq<Visit>, v: Visit, procs: nat -> Script, id: int)
    ensures IdAfter(visits + [v], procs, id) ==
            if Ends(v, procs, id) then AE_DELETED_EVENT_ID else IdAfter(visits, procs, id)
  {
    hide Ends;
    var more := visits + [v];
    if Ended(visits, procs, id) {
      var k :| 0 <= k < |visits| && Ends(visits[k], procs, id);
      assert Ends(more[k], procs, id);
    }
    if Ends(v, procs, id) {
      assert Ends(more[|visits|], procs, id);
    }
  }

  lemma {:induction false} KeptIn(visits: seq<Visit>, k: nat)
    requires k < |visits| && visits[k].id != AE_DELETED_EVENT_ID
    ensures visits[k].node in Kept(visits)
  {
    if k < |visits| - 1 {
      KeptIn(visits[..|visits| - 1], k);
    }
  }

  lemma NoActs(acts: seq<Act>)
    ensures Creates(acts[..0]) == 0
  {
  }

  lemma NextAct(acts: seq<Act>, i: nat)
    requires i < |acts|
    ensures Creates(acts[..i + 1]) == Creates(acts[..i]) + if acts[i].Create? then 1 else 0
    ensures forall a :: a in acts[..i + 1] <==> a in acts[..i] || a == acts[i]
  {
    assert acts[..i + 1][..i] == acts[..i];
  }

  lemma AtNode(nodes: seq<TimeEvent>, i: nat)
    requires NodeAt(nodes, i) != null
    ensures i < |nodes| && NodeAt(nodes, i) == nodes[i]
  {
  }

  /** What a walk knows about the node it is at. */
  lemma Walked(ae: AeEventLoop, p: Pass, visits: seq<Visit>, made: seq<TimeEvent>, prev: TimeEvent?)
    requires ae.Walking(p, visits, made, prev) && |visits| < |p.nodes|
    ensures var te := p.nodes[|visits|];
      ae.Valid() && te.next == NodeAt(p.nodes, |visits| + 1) &&
      te in ae.nodes && te.id < p.nextId &&
      AllFaithful(p, visits) && |p.nodes| == |p.ids| == |p.whens| && p.clock == ae.clock && Below(p.ids, p.nextId) &&
      prev == LastOf(Kept(visits)) && (Kept(visits) == [] ==> made == []) &&
      te.id == IdAfter(visits, p.procs, p.ids[|visits|]) && te.when == p.whens[|visits|] &&
      |made| == Created(visits, p.procs) && Numbered(made, ae.timeEventNextId) &&
      ae.timeEventNextId == p.nextId + |made| && ae.readings == p.read + Readings(visits, p.procs)
  {
    hide Distinct, Linked, Ids, Kept, AllFaithful, AsLeft, Created, Readings, Numbered, Below, IdAfter;
    NextWalked(ae, p, visits, made, prev);
    Shape(p, visits);
    LeftAt(p, visits, |visits|);
    IdOrTombstone(p, visits, |visits|);
  }

  lemma NextWalked(ae: AeEventLoop, p: Pass, visits: seq<Visit>, made: seq<TimeEvent>, prev: TimeEvent?)
    requires ae.Walking(p, visits, made, prev) && |visits| < |p.nodes|
    ensures p.nodes[|visits|].next == NodeAt(p.nodes, |visits| + 1) && p.nodes[|visits|] in ae.nodes
  {
    hide Distinct, Linked, Ids, Kept, AllFaithful, AsLeft, Created, Readings, Numbered, Below, IdAfter;
    var before, te, after := made + Kept(visits), p.nodes[|visits|], p.nodes[|visits| + 1..];
    hide Kept;
    assert ae.nodes == before + [te] + after;
    NextIs(before, te, after);
  }

  lemma Held(ae: AeEventLoop, p: Pass, visits: seq<Visit>, made: seq<TimeEvent>, prev: TimeEvent?)
    requires ae.Walking(p, visits, made, prev) && |visits| <= |p.nodes|
    ensures ae.nodes == made + Kept(visits) + p.nodes[|visits|..]
  {
    hide Chain, Kept, AllFaithful, AsLeft, Created, Readings, Numbered, Below;
  }

  /** Where the node to unlink is. */
  ghost predicate IsBehind(nodes: seq<TimeEvent>, prev: TimeEvent?, before: seq<TimeEvent>, te: TimeEvent,
                           after: seq<TimeEvent>) {
    nodes == before + [te] + after && (prev != null ==> prev in nodes) &&
    prev == if before == [] then null else before[|before| - 1]
  }

  lemma Behind(ae: AeEventLoop, p: Pass, visits: seq<Visit>, made: seq<TimeEvent>, prev: TimeEvent?)
    requires ae.Walking(p, visits, made, prev) && |visits| < |p.nodes|
    ensures IsBehind(ae.nodes, prev, made + Kept(visits), p.nodes[|visits|], p.nodes[|visits| + 1..])
  {
    hide Distinct, Linked, Ids, Kept, AllFaithful, AsLeft, Created, Readings, Numbered, Below, Chain, IsBehind, LastOf;
    var te, after := p.nodes[|visits|], p.nodes[|visits| + 1..];
    LastOfBoth(made, Kept(visits));
    assert p.nodes[|visits|..] == [te] + after;
    BehindLast(made + Kept(visits), te, after);
  }

  lemma BehindLast(before: seq<TimeEvent>, te: TimeEvent, after: seq<TimeEvent>)
    ensures IsBehind(before + ([te] + after), LastOf(before), before, te, after)
  {
    assert before + ([te] + after) == before + [te] + after;
    LastIn(before);
  }

  lemma Shape(p: Pass, visits: seq<Visit>)
    requires AllFaithful(p, visits)
    ensures |visits| <= |p.nodes| == |p.ids| == |p.whens|
  {
  }

  lemma IdOrTombstone(p: Pass, visits: seq<Visit>, k: nat)
    requires Below(p.ids, p.nextId) && k < |p.ids|
    ensures IdAfter(visits, p.procs, p.ids[k]) < p.nextId
  {
  }

  /** The ids and times of the nodes still in the list, before a visit. */
  ghost predicate Listed(p: Pass, visits: seq<Visit>, nodes: seq<TimeEvent>, ids: seq<int>, whens: seq<Time>)
    requires |visits| < |p.nodes| == |p.ids| == |p.whens| == |ids| == |whens|
  {
    var i := |visits|;
    forall k: nat :: InList(p, visits, k) ==>
      p.nodes[k] in nodes && ids[k] == IdAfter(visits, p.procs, p.ids[k]) && whens[k] == Due(p, visits, k) &&
      (k != i ==> p.nodes[k] != p.nodes[i] && (ids[k] == ids[i] ==> ids[k] == AE_DELETED_EVENT_ID))
  }

  lemma AllListed(ae: AeEventLoop, p: Pass, visits: seq<Visit>, made: seq<TimeEvent>, prev: TimeEvent?)
    requires ae.Walking(p, visits, made, prev) && |visits| < |p.nodes|
    ensures |p.nodes| == |p.ids| == |p.whens|
    ensures Listed(p, visits, ae.nodes, IdsOf(p.nodes), Whens(p.nodes, false))
  {
    hide Linked, Ids, Distinct, Kept, AsLeft, Faithful, IdsOf, Whens, IdAfter;
    Shape(p, visits);
    var i := |visits|;
    assert ae.nodes == made + Kept(visits) + [p.nodes[i]] + p.nodes[i + 1..];
    forall k: nat | InList(p, visits, k)
      ensures p.nodes[k] in ae.nodes && (k == i || p.nodes[k] != p.nodes[i])
    {
      if k < i {
        assert Faithful(p, visits[..k], visits[k]);
        FaithfulNode(p, visits[..k], visits[k]);
        KeptIn(visits, k);
        NotBoth(ae.nodes, made + Kept(visits), p.nodes[i], p.nodes[i + 1..], p.nodes[k]);
      } else if k > i {
        assert p.nodes[k] == p.nodes[i + 1..][k - i - 1];
        NotBoth(ae.nodes, made + Kept(visits), p.nodes[i], p.nodes[i + 1..], p.nodes[k]);
      }
    }
    forall k: nat | InList(p, visits, k) && k != i && p.nodes[k].id == p.nodes[i].id
      ensures p.nodes[k].id == AE_DELETED_EVENT_ID
    {
      OneId(ae.nodes, ae.timeEventNextId, p.nodes[k], p.nodes[i]);
    }
    forall k: nat | InList(p, visits, k)
      ensures p.nodes[k].id == IdAfter(visits, p.procs, p.ids[k]) && p.nodes[k].when == Due(p, visits, k)
    {
      LeftAt(p, visits, k);
    }
  }

  lemma MadeListed(ae: AeEventLoop, p: Pass, visits: seq<Visit>, made: seq<TimeEvent>, prev: TimeEvent?)
    requires ae.Walking(p, visits, made, prev) && |visits| <= |p.nodes|
    ensures Counted(IdsOf(made), ae.timeEventNextId) && forall n :: n in made ==> n in ae.nodes
  {
    hide Chain, Kept, AsLeft, AllFaithful;
  }

  lemma FaithfulNode(p: Pass, visits: seq<Visit>, v: Visit)
    requires |visits| < |p.nodes| == |p.ids| == |p.whens| && Faithful(p, visits, v)
    ensures v.node == p.nodes[|visits|]
  {
  }

  lemma OneId(nodes: seq<TimeEvent>, nextId: int, m: TimeEvent, n: TimeEvent)
    requires Ids(nodes, nextId) && m in nodes && n in nodes && m != n && m.id == n.id
    ensures m.id == AE_DELETED_EVENT_ID
  {
  }

  lemma NotBoth(nodes: seq<TimeEvent>, before: seq<TimeEvent>, te: TimeEvent, after: seq<TimeEvent>, n: TimeEvent)
    requires nodes == before + [te] + after && Distinct(nodes) && (n in before || n in after)
    ensures n != te && n in nodes
  {
    UnlinkDistinct(before, te, after);
    NotAgain(before, te, after);
  }

  /** A visit gave the nodes still in the list these ids and times. */
  ghost predicate LeftAs(p: Pass, visits: seq<Visit>, v: Visit, ids: seq<int>, whens: seq<Time>)
    requires |visits| < |p.nodes| == |ids| == |whens|
    reads p.nodes
  {
    var i, script := |visits|, p.procs(v.number);
    forall k: nat :: InList(p, visits + [v], k) ==>
      p.nodes[k].id == (if v.due && (Delete(ids[k]) in script.acts || (k == i && script.retval == AE_NOMORE))
                        then AE_DELETED_EVENT_ID else ids[k]) &&
      p.nodes[k].when == if k == i then WhenAfter(v, p.procs, p.clock, whens[k]) else whens[k]
  }

  lemma StillLeft(p: Pass, visits: seq<Visit>, v: Visit, nodes: seq<TimeEvent>, ids: seq<int>, whens: seq<Time>)
    requires |visits| < |p.nodes| == |p.ids| == |p.whens| == |ids| == |whens|
    requires Listed(p, visits, nodes, ids, whens) && LeftAs(p, visits, v, ids, whens) && v.id == ids[|visits|]
    ensures AsLeft(p, visits + [v])
  {
    hide WhenAfter, IdAfter;
    forall k: nat | InList(p, visits + [v], k)
      ensures p.nodes[k].id == IdAfter(visits + [v], p.procs, p.ids[k]) && p.nodes[k].when == Due(p, visits + [v], k)
    {
      assert InList(p, visits, k);
      IdOn(visits, v, p.procs, p.ids[k]);
      IdIs(visits, p.procs, p.ids[k]);
    }
  }

  lemma IdIs(visits: seq<Visit>, procs: nat -> Script, id: int)
    ensures IdAfter(visits, procs, id) == id || IdAfter(visits, procs, id) == AE_DELETED_EVENT_ID
  {
  }

  lemma LeftAt(p: Pass, visits: seq<Visit>, k: nat)
    requires |visits| <= |p.nodes| == |p.ids| == |p.whens| && AsLeft(p, visits)
    requires InList(p, visits, k)
    ensures p.nodes[k].id == IdAfter(visits, p.procs, p.ids[k]) && p.nodes[k].when == Due(p, visits, k)
  {
    hide IdAfter, WhenAfter;
  }

  /** One more visit. */
  lemma WalksOn(ae: AeEventLoop, p: Pass, visits: seq<Visit>, made: seq<TimeEvent>, prev: TimeEvent?, v: Visit,
                more: seq<TimeEvent>, all: seq<TimeEvent>, prev': TimeEvent?)
    requires ae.Valid() && AllFaithful(p, visits) && |visits| < |p.nodes| == |p.ids| == |p.whens|
    requires Faithful(p, visits, v) && AsLeft(p, visits + [v]) && p.clock == ae.clock && Below(p.ids, p.nextId)
    requires prev == LastOf(Kept(visits)) && (Kept(visits) == [] ==> made == [])
    requires Numbered(more, ae.timeEventNextId) && Numbered(made, p.nextId + |made|)
    requires |made| == Created(visits, p.procs)
    requires |more| == (if v.due then Creates(p.procs(v.number).acts) else 0)
    requires ae.timeEventNextId == p.nextId + |made| + |more|
    requires ae.readings == p.read + Readings(visits, p.procs) + Reads(v, p.procs)
    requires all == more + made && ae.nodes == all + Kept(visits + [v]) + p.nodes[|visits| + 1..]
    requires if v.id == AE_DELETED_EVENT_ID then more == [] && prev' == prev else prev' == v.node
    ensures ae.Walking(p, visits + [v], all, prev')
  {
    hide Distinct, Linked, Ids, Kept, AllFaithful, AsLeft, Faithful, LastOf, Numbered, Created, Creates, Readings,
      Reads, Below;
    CountsAdded(visits, v, p.procs);
    LastKept(visits, v, made, more);
    FaithfulAdded(p, visits, v);
    NumberedBoth(more, made, p.nextId + |made|);
  }

  lemma CountsAdded(visits: seq<Visit>, v: Visit, procs: nat -> Script)
    ensures |visits + [v]| == |visits| + 1
    ensures Created(visits + [v], procs) == Created(visits, procs) + if v.due then Creates(procs(v.number).acts) else 0
    ensures Readings(visits + [v], procs) == Readings(visits, procs) + Reads(v, procs)
  {
    hide Kept, Entries, Firings, Created, Readings, Creates, Reads;
    VisitAdded(visits, v, procs);
  }

  lemma LastKept(visits: seq<Visit>, v: Visit, made: seq<TimeEvent>, more: seq<TimeEvent>)
    requires (Kept(visits) == [] ==> made == []) && (v.id == AE_DELETED_EVENT_ID ==> more == [])
    ensures LastOf(Kept(visits + [v])) == if v.id == AE_DELETED_EVENT_ID then LastOf(Kept(visits)) else v.node
    ensures Kept(visits + [v]) == [] ==> more + made == []
  {
    hide Kept, LastOf;
    KeptAdded(visits, v);
    KeptLast(Kept(visits), v.node);
    assert Kept(visits) + [] == Kept(visits);
  }

  lemma KeptAdded(visits: seq<Visit>, v: Visit)
    ensures Kept(visits + [v]) == Kept(visits) + if v.id == AE_DELETED_EVENT_ID then [] else [v.node]
  {
    assert (visits + [v])[..|visits|] == visits;
  }

  /** The list after a visit to a node that stays, and to one that goes. */
  lemma Stays(p: Pass, visits: seq<Visit>, v: Visit, made: seq<TimeEvent>, more: seq<TimeEvent>)
    requires |visits| < |p.nodes| && v.id != AE_DELETED_EVENT_ID && v.node == p.nodes[|visits|]
    ensures more + (made + Kept(visits) + p.nodes[|visits|..]) ==
            more + made + Kept(visits + [v]) + p.nodes[|visits| + 1..]
  {
    hide Kept;
    KeptAdded(visits, v);
    assert p.nodes[|visits|..] == [v.node] + p.nodes[|visits| + 1..];
    Regrouped(more, made, Kept(visits), v.node, p.nodes[|visits| + 1..]);
  }

  lemma Goes(visits: seq<Visit>, v: Visit, made: seq<TimeEvent>)
    requires v.id == AE_DELETED_EVENT_ID
    ensures made == [] + made && Kept(visits + [v]) == Kept(visits)
  {
    hide Kept;
    KeptAdded(visits, v);
    assert Kept(visits) + [] == Kept(visits);
  }

  lemma Regrouped(a: seq<TimeEvent>, b: seq<TimeEvent>, c: seq<TimeEvent>, te: TimeEvent, d: seq<TimeEvent>)
    ensures a + (b + c + ([te] + d)) == a + b + (c + [te]) + d
  {
    assert a + (b + c) + [te] == a + b + (c + [te]);
    assert a + (b + c + ([te] + d)) == a + (b + c) + ([te] + d);
    assert a + (b + c) + ([te] + d) == a + (b + c) + [te] + d;
  }

  lemma FaithfulAdded(p: Pass, visits: seq<Visit>, v: Visit)
    requires AllFaithful(p, visits) && |visits| < |p.nodes| && Faithful(p, visits, v)
    ensures AllFaithful(p, visits + [v])
  {
    hide Faithful;
    var all := visits + [v];
    forall k | 0 <= k < |all| ensures Faithful(p, all[..k], all[k]) {
      assert all[..k] == visits[..k];
    }
    assert visits[..|visits|] == visits;
  }

  lemma NumberedBoth(more: seq<TimeEvent>, made: seq<TimeEvent>, nextId: nat)
    requires Numbered(made, nextId) && Numbered(more, nextId + |more|)
    ensures Numbered(more + made, nextId + |more|)
  {
  }

  lemma WalkStarts(ae: AeEventLoop, p: Pass)
    requires ae.Valid() && p.nodes == ae.nodes && p.ids == IdsOf(ae.nodes) && p.whens == Whens(ae.nodes, false)
    requires p.read == ae.readings && p.nextId == ae.timeEventNextId && p.clock == ae.clock
    ensures ae.Walking(p, [], [], null) && ae.timeEventHead == NodeAt(ae.nodes, 0)
    ensures Entries([]) == [] && Firings([]) == 0
  {
    hide Distinct, Linked, IdsOf, Whens;
    assert Kept([]) == [];
  }

  lemma WalkEnds(ae: AeEventLoop, p: Pass, visits: seq<Visit>, made: seq<TimeEvent>, prev: TimeEvent?)
    requires ae.Walking(p, visits, made, prev) && |visits| <= |p.nodes| && NodeAt(p.nodes, |visits|) == null
    ensures ae.Valid() && |visits| == |p.nodes| && ae.nodes == made + Kept(visits)
    ensures AllFaithful(p, visits) && AsLeft(p, visits)
    ensures |made| == Created(visits, p.procs) && Numbered(made, ae.timeEventNextId)
    ensures ae.timeEventNextId == p.nextId + |made| && ae.readings == p.read + Readings(visits, p.procs)
  {
    hide Distinct, Linked, Ids, Kept, AllFaithful, AsLeft, Numbered, Created, Readings;
  }

  ghost function EntryOf(v: Visit): seq<LogEntry> {
    if v.id == AE_DELETED_EVENT_ID then [Finalized(v.node)] else if v.due then [Fired(v.node, v.id)] else []
  }

  ghost function NodeOf(e: LogEntry): TimeEvent { e.node }

  /** A walk over distinct nodes runs at most one callback or finalizer for each. */
  lemma {:induction false} OncePerPass(visits: seq<Visit>)
    requires forall i, j :: 0 <= i < j < |visits| ==> visits[i].node != visits[j].node
    ensures forall i, j :: 0 <= i < j < |Entries(visits)| ==> NodeOf(Entries(visits)[i]) != NodeOf(Entries(visits)[j])
    ensures forall e :: e in Entries(visits) ==> exists v :: v in visits && v.node == NodeOf(e)
  {
    if visits != [] {
      var k := |visits| - 1;
      OncePerPass(visits[..k]);
      forall e | e in Entries(visits[..k]) ensures NodeOf(e) != visits[k].node {
        var v :| v in visits[..k] && v.node == NodeOf(e);
      }
    }
  }

  /** A pass finds a tombstone exactly where one was, or a callback it ran before on another
      node deleted the timer. */
  lemma TombstonesExact(p: Pass, visits: seq<Visit>, k: nat)
    requires AllFaithful(p, visits) && k < |visits|
    requires forall i, j :: 0 <= i < j < |p.ids| && p.ids[i] == p.ids[j] ==> p.ids[i] == AE_DELETED_EVENT_ID
    ensures visits[k].id == p.ids[k] || visits[k].id == AE_DELETED_EVENT_ID
    ensures visits[k].id == AE_DELETED_EVENT_ID <==>
      p.ids[k] == AE_DELETED_EVENT_ID ||
      exists j :: 0 <= j < k && visits[j].due && Delete(p.ids[k]) in p.procs(Firings(visits[..j])).acts
  {
    var id := p.ids[k];
    assert Faithful(p, visits[..k], visits[k]);
    forall j | 0 <= j < k
      ensures visits[j].number == Firings(visits[..j])
      ensures visits[j].due ==> visits[j].id == p.ids[j] && visits[j].id != AE_DELETED_EVENT_ID
    {
      assert Faithful(p, visits[..j], visits[j]);
    }
    if Ended(visits[..k], p.procs, id) && id != AE_DELETED_EVENT_ID {
      var j :| 0 <= j < k && Ends(visits[..k][j], p.procs, id);
      assert visits[j].due && Delete(id) in p.procs(Firings(visits[..j])).acts;
    }
    if j :| 0 <= j < k && visits[j].due && Delete(id) in p.procs(Firings(visits[..j])).acts {
      assert Ends(visits[..k][j], p.procs, id);
    }
  }

  lemma LastIn(nodes: seq<TimeEvent>)
    ensures nodes != [] ==> nodes[|nodes| - 1] in nodes
  {
  }

  lemma NotAgain(before: seq<TimeEvent>, te: TimeEvent, after: seq<TimeEvent>)
    requires Distinct(before + [te] + after)
    ensures te !in after && (before != [] ==> before[|before| - 1] !in after)
  {
    UnlinkDistinct(before, te, after);
    forall i | 0 <= i < |after| ensures after[i] != te {
      Differ(before + [te] + after, |before|, |before| + 1 + i);
    }
  }

  ghost function IdsOf(nodes: seq<TimeEvent>): (r: seq<int>)
    reads nodes
    ensures |r| == |nodes| && forall k :: 0 <= k < |nodes| ==> r[k] == nodes[k].id
  {
    if nodes == [] then [] else IdsOf(nodes[..|nodes| - 1]) + [nodes[|nodes| - 1].id]
  }

  /** The times of the nodes, forced to be due if the clock went back. */
  ghost function Whens(nodes: seq<TimeEvent>, back: bool): (r: seq<Time>)
    reads nodes
    ensures |r| == |nodes|
    ensures forall k :: 0 <= k < |nodes| ==> r[k] == if back then nodes[k].when.(sec := 0) else nodes[k].when
  {
    if nodes == [] then [] else
      var when := nodes[|nodes| - 1].when;
      Whens(nodes[..|nodes| - 1], back) + [if back then when.(sec := 0) else when]
  }

  predicate Below(ids: seq<int>, nextId: nat) { forall k :: 0 <= k < |ids| ==> AE_DELETED_EVENT_ID <= ids[k] < nextId }

  ghost function LastOf(nodes: seq<TimeEvent>): TimeEvent? { if nodes == [] then null else nodes[|nodes| - 1] }

  function Firings(visits: seq<Visit>): nat {
    if visits == [] then 0 else
      var v := visits[|visits| - 1];
      Firings(visits[..|visits| - 1]) + if v.due then 1 else 0
  }

  lemma LastOfBoth(made: seq<TimeEvent>, kept: seq<TimeEvent>)
    requires kept == [] ==> made == []
    ensures LastOf(made + kept) == LastOf(kept)
  {
  }

  lemma KeptLast(kept: seq<TimeEvent>, te: TimeEvent)
    ensures LastOf(kept + [te]) == te
  {
  }

  lemma VisitAdded(visits: seq<Visit>, v: Visit, procs: nat -> Script)
    ensures Kept(visits + [v]) == Kept(visits) + if v.id == AE_DELETED_EVENT_ID then [] else [v.node]
    ensures Entries(visits + [v]) == Entries(visits) + EntryOf(v)
    ensures Firings(visits + [v]) == Firings(visits) + if v.due then 1 else 0
    ensures Created(visits + [v], procs) == Created(visits, procs) + if v.due then Creates(procs(v.number).acts) else 0
    ensures Readings(visits + [v], procs) == Readings(visits, procs) + Reads(v, procs)
  {
    hide Reads, Creates, EntryOf;
    assert (visits + [v])[..|visits|] == visits;
  }

  lemma NextIs(before: seq<TimeEvent>, te: TimeEvent, after: seq<TimeEvent>)
    requires Linked(before + [te] + after)
    ensures te.next == NodeAt(after, 0)
  {
    UnlinkFacts(before, te, after);
  }

  lemma FewerIds(before: seq<TimeEvent>, te: TimeEvent, after: seq<TimeEvent>, nextId: nat)
    requires Ids(before + [te] + after, nextId)
    ensures Ids(before + after, nextId)
  {
    assert forall n :: n in before + after ==> n in before + [te] + after;
  }

  lemma Relinked(before: seq<TimeEvent>, after: seq<TimeEvent>)
    requires forall i :: 0 <= i < |before| - 1 ==> before[i].next == before[i + 1]
    requires before != [] ==> before[|before| - 1].next == NodeAt(after, 0)
    requires forall i :: 0 <= i < |after| ==> after[i].next == NodeAt(after, i + 1)
    ensures Linked(before + after)
  {
    var all := before + after;
    forall i | 0 <= i < |all| ensures all[i].next == NodeAt(all, i + 1) {
      if i >= |before| {
        assert all[i] == after[i - |before|];
      }
    }
  }

  lemma UnlinkFacts(before: seq<TimeEvent>, te: TimeEvent, after: seq<TimeEvent>)
    requires Linked(before + [te] + after)
    ensures te.next == NodeAt(after, 0)
    ensures forall i :: 0 <= i < |before| - 1 ==> before[i].next == before[i + 1]
    ensures forall i :: 0 <= i < |after| ==> after[i].next == NodeAt(after, i + 1)
    ensures before == [] ==> NodeAt(before + after, 0) == te.next
    ensures before != [] ==> NodeAt(before + after, 0) == NodeAt(before + [te] + after, 0)
  {
    var all, k := before + [te] + after, |before|;
    assert all[k].next == NodeAt(all, k + 1);
    forall i | 0 <= i < |before| - 1 ensures before[i].next == before[i + 1] {
      assert all[i].next == NodeAt(all, i + 1);
    }
    forall i | 0 <= i < |after| ensures after[i].next == NodeAt(after, i + 1) {
      assert all[k + 1 + i].next == NodeAt(all, k + 2 + i);
    }
  }

  lemma Differ(nodes: seq<TimeEvent>, i: nat, j: nat)
    requires Distinct(nodes) && i < |nodes| && j < |nodes| && i != j
    ensures nodes[i] != nodes[j]
  {
  }

  lemma UnlinkDistinct(before: seq<TimeEvent>, te: TimeEvent, after: seq<TimeEvent>)
    requires Distinct(before + [te] + after)
    ensures Distinct(before + after) && te !in before
    ensures forall i :: 0 <= i < |before| - 1 ==> before[i] != before[|before| - 1]
    ensures before != [] ==> before[|before| - 1] !in after
  {
    var all, k, less := before + [te] + after, |before|, before + after;
    forall i, j | 0 <= i < j < |less| ensures less[i] != less[j] {
      hide Distinct;
      Differ(all, if i < k then i else i + 1, if j < k then j else j + 1);
    }
    hide Distinct;
    forall i | 0 <= i < k ensures before[i] != te {
      Differ(all, i, k);
    }
    forall i | 0 <= i < k - 1 ensures before[i] != before[k - 1] {
      Differ(all, i, k - 1);
    }
    forall i | 0 <= i < |after| ensures before != [] ==> before[k - 1] != after[i] {
      if before != [] {
        Differ(all, k - 1, k + 1 + i);
      }
    }
  }
}
