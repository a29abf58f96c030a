/** The outbound side of Connection.hpp: bytes wait in a Buffer until the socket takes
    them, and a graceful close waits for the last one. */
module ConnectionModel {
  import opened BufferModel

  datatype Statu = DISCONNECTED | CONNECTING | CONNECTED | DISCONNECTING

  /** Why a connection was released, and whether all accepted bytes had been sent. */
  datatype Cause = Drained | ShutDown | Failed | HungUp
  datatype Release = Release(cause: Cause, complete: bool)

  /** What an application does.  A Shutdown that finds unread input runs the message
      callback again first: `inner` is what that does. */
  datatype Act = Send(bytes: string) | Shutdown | ShutdownUnread(inner: seq<Act>)

  /** What happens to a connection.  `acts` is what the message callback does, if it runs;
      the socket takes n bytes of those offered. */
  datatype Event =
    | Established
    | Received(acts: seq<Act>)
    | ReceiveFails(unread: seq<Act>)
    | Writable(n: nat)
    | WriteFails(again: bool, acts: seq<Act>)
    | HangUp(acts: seq<Act>)
    | Calls(acts: seq<Act>)

  // ----- A connection as a value

  /** The state, the bytes SendInLoop accepted, those the socket took, and the releases. */
  datatype Link = Link(statu: Statu, accepted: string, sent: string, releases: seq<Release>)

  const NEW_LINK: Link := Link(CONNECTING, "", "", [])

  function Released(l: Link, cause: Cause): Link {
    l.(statu := DISCONNECTED, releases := l.releases + [Release(cause, l.sent == l.accepted)])
  }

  function AfterAct(l: Link, act: Act): Link
    decreases act, 0
  {
    if act.Send? then (if l.statu == DISCONNECTED then l else l.(accepted := l.accepted + act.bytes))
    else
      var m := l.(statu := DISCONNECTING);
      var n := if act.ShutdownUnread? then AfterActs(m, act.inner) else m;
      if n.sent == n.accepted then Released(n, ShutDown) else n
  }

  function AfterActs(l: Link, acts: seq<Act>): Link
    decreases acts, 1
  {
    if acts == [] then l else AfterAct(AfterActs(l, acts[..|acts| - 1]), acts[|acts| - 1])
  }

  /** The socket takes n bytes, or all that wait. */
  function AfterWrite(l: Link, n: nat): Link {
    var all := |l.sent| + n >= |l.accepted|;
    var m := l.(sent := if all then l.accepted else l.accepted[..|l.sent| + n]);
    if all && l.statu == DISCONNECTING then Released(m, Drained) else m
  }

  function AfterEvent(l: Link, e: Event): Link {
    match e
    case Established => if l.statu == CONNECTING then l.(statu := CONNECTED) else l
    case Received(acts) => AfterActs(l, acts)
    case ReceiveFails(unread) => AfterAct(l, ShutdownUnread(unread))
    case Writable(n) => AfterWrite(l, n)
    case WriteFails(again, acts) => if again then l else Released(AfterActs(l, acts), Failed)
    case HangUp(acts) => Released(AfterActs(l, acts), HungUp)
    case Calls(acts) => AfterActs(l, acts)
  }

  function AfterEvents(l: Link, es: seq<Event>): Link {
    if es == [] then l else AfterEvent(AfterEvents(l, es[..|es| - 1]), es[|es| - 1])
  }

  /** What the socket took is the beginning of what was accepted, and every release by a
      shutdown or after the last write found everything sent. */
  predicate LinkOk(l: Link) {
    l.sent <= l.accepted && forall r :: r in l.releases && (r.cause.Drained? || r.cause.ShutDown?) ==> r.complete
  }

  /** Nothing accepted, sent or released is taken back. */
  predicate Grows(l: Link, m: Link) { l.accepted <= m.accepted && l.sent <= m.sent && l.releases <= m.releases }

  lemma AcceptedOk(l: Link, waiting: string, bytes: string)
    requires LinkOk(l) && l.sent + waiting == l.accepted
    ensures var m := l.(accepted := l.accepted + bytes); LinkOk(m) && m.sent + (waiting + bytes) == m.accepted
  {
  }

  lemma {:induction false} ActOk(l: Link, act: Act)
    requires LinkOk(l)
    ensures LinkOk(AfterAct(l, act)) && Grows(l, AfterAct(l, act)) && AfterAct(l, act).sent == l.sent
    decreases act, 0
  {
    if act.ShutdownUnread? {
      ActsOk(l.(statu := DISCONNECTING), act.inner);
    }
  }

  lemma {:induction false} ActsOk(l: Link, acts: seq<Act>)
    requires LinkOk(l)
    ensures LinkOk(AfterActs(l, acts)) && Grows(l, AfterActs(l, acts)) && AfterActs(l, acts).sent == l.sent
    decreases acts, 1
  {
    hide LinkOk, AfterAct;
    if acts != [] {
      ActsOk(l, acts[..|acts| - 1]);
      ActOk(AfterActs(l, acts[..|acts| - 1]), acts[|acts| - 1]);
    }
  }

  lemma EventOk(l: Link, e: Event)
    requires LinkOk(l)
    ensures LinkOk(AfterEvent(l, e)) && Grows(l, AfterEvent(l, e))
  {
    hide AfterActs, AfterAct;
    match e
    case Received(acts) => ActsOk(l, acts);
    case ReceiveFails(unread) => ActOk(l, ShutdownUnread(unread));
    case WriteFails(_, acts) => ActsOk(l, acts);
    case HangUp(acts) => ActsOk(l, acts);
    case Calls(acts) => ActsOk(l, acts);
    case _ =>
  }

  /** The socket takes the first n of the bytes that wait. */
  lemma WriteOk(l: Link, waiting: string, n: nat)
    requires LinkOk(l) && l.sent + waiting == l.accepted && n <= |waiting|
    ensures var m := l.(sent := l.sent + waiting[..n]);
      LinkOk(m) && m.sent + waiting[n..] == m.accepted && (n == |waiting| ==> m.sent == m.accepted) &&
      (n == |waiting| ==> LinkOk(Released(m, Drained))) &&
      AfterWrite(l, n) == if n == |waiting| && l.statu == DISCONNECTING then Released(m, Drained) else m
  {
    assert l.sent + waiting[..n] == l.accepted[..|l.sent| + n];
    assert l.sent + waiting[..n] + waiting[n..] == l.accepted;
  }

  /** Over every run of events: bytes are sent in the order they were accepted, and a
      graceful release happens only when all accepted bytes were sent. */
  lemma {:induction false} EventsOk(l: Link, es: seq<Event>)
    requires LinkOk(l)
    ensures LinkOk(AfterEvents(l, es)) && Grows(l, AfterEvents(l, es))
  {
    hide LinkOk, AfterEvent;
    if es != [] {
      EventsOk(l, es[..|es| - 1]);
      EventOk(AfterEvents(l, es[..|es| - 1]), es[|es| - 1]);
    }
  }

  /** A shutdown with nothing unread releases a drained connection at once, and any other
      when the socket has taken the rest. */
  lemma ShutdownCompletes(l: Link)
    requires LinkOk(l)
    ensures var m := AfterAct(l, Shutdown);
      if l.sent == l.accepted then m.statu == DISCONNECTED && m.releases == l.releases + [Release(ShutDown, true)]
      else
        m.statu == DISCONNECTING && m.releases == l.releases &&
        AfterWrite(m, |l.accepted| - |l.sent|).releases == l.releases + [Release(Drained, true)]
  {
  }

  // ----- What is accepted

  function SentBy(act: Act): string
    decreases act, 0
  {
    match act
    case Send(bytes) => bytes
    case Shutdown => ""
    case ShutdownUnread(inner) => SentByAll(inner)
  }

  function SentByAll(acts: seq<Act>): string
    decreases acts, 1
  {
    if acts == [] then "" else SentByAll(acts[..|acts| - 1]) + SentBy(acts[|acts| - 1])
  }

  function SentIn(e: Event): string {
    match e
    case Received(acts) => SentByAll(acts)
    case ReceiveFails(unread) => SentByAll(unread)
    case WriteFails(again, acts) => if again then "" else SentByAll(acts)
    case HangUp(acts) => SentByAll(acts)
    case Calls(acts) => SentByAll(acts)
    case _ => ""
  }

  function SentInAll(es: seq<Event>): string {
    if es == [] then "" else SentInAll(es[..|es| - 1]) + SentIn(es[|es| - 1])
  }

  /** Only a release disconnects. */
  predicate Unreleased(l: Link) { l.releases == [] ==> l.statu != DISCONNECTED }

  lemma {:induction false} ActAccepts(l: Link, act: Act)
    requires Unreleased(l)
    ensures var m := AfterAct(l, act);
      Unreleased(m) && l.releases <= m.releases && (m.releases == [] ==> m.accepted == l.accepted + SentBy(act))
    decreases act, 0
  {
    if act.ShutdownUnread? {
      ActsAccept(l.(statu := DISCONNECTING), act.inner);
    }
  }

  lemma {:induction false} ActsAccept(l: Link, acts: seq<Act>)
    requires Unreleased(l)
    ensures var m := AfterActs(l, acts);
      Unreleased(m) && l.releases <= m.releases && (m.releases == [] ==> m.accepted == l.accepted + SentByAll(acts))
    decreases acts, 1
  {
    hide AfterAct, SentBy;
    if acts != [] {
      ActsAccept(l, acts[..|acts| - 1]);
      ActAccepts(AfterActs(l, acts[..|acts| - 1]), acts[|acts| - 1]);
    }
  }

  lemma EventAccepts(l: Link, e: Event)
    requires Unreleased(l)
    ensures var m := AfterEvent(l, e);
      Unreleased(m) && l.releases <= m.releases && (m.releases == [] ==> m.accepted == l.accepted + SentIn(e))
  {
    hide AfterActs, SentByAll;
    match e
    case Received(acts) => ActsAccept(l, acts);
    case ReceiveFails(unread) =>
      ActAccepts(l, ShutdownUnread(unread));
    case WriteFails(_, acts) => ActsAccept(l, acts);
    case HangUp(acts) => ActsAccept(l, acts);
    case Calls(acts) => ActsAccept(l, acts);
    case _ =>
  }

  /** As long as the connection has not been released, everything sent is accepted. */
  lemma {:induction false} EventsAccept(es: seq<Event>)
    ensures var m := AfterEvents(NEW_LINK, es);
      Unreleased(m) && (m.releases == [] ==> m.accepted == SentInAll(es))
  {
    hide AfterEvent, SentIn;
    if es != [] {
      EventsAccept(es[..|es| - 1]);
      EventAccepts(AfterEvents(NEW_LINK, es[..|es| - 1]), es[|es| - 1]);
    }
  }

  class Connection {
    const out: Buffer
    /** EPOLLOUT is requested. */
    var writeAble: bool
    /** The status, with the history of the outbound stream. */
    var link: Link

    ghost predicate Valid()
      reads this, out, out.data
    {
      out.Valid() && LinkOk(link) && link.sent + out.Contents() == link.accepted && (out.Contents() != "" ==> writeAble)
    }

    constructor ()
      ensures Valid() && link == NEW_LINK && fresh(out) && fresh(out.data)
    {
      out := new Buffer();
      writeAble, link := false, NEW_LINK;
    }

    /** SendInLoop of a buffer that holds a copy of the bytes. */
    method SendInLoop(buf: Buffer)
      requires Valid() && buf.Valid() && buf != out && buf.data != out.data && Fits(out.Where(), |buf.Contents()|)
      modifies this, out, out.data
      ensures Valid() && (out.data == old(out.data) || fresh(out.data))
      ensures link == AfterAct(old(link), Send(old(buf.Contents())))
    {
      hide Fits, Pushed, LinkOk, ShapeOk, TailIdle;
      if link.statu == DISCONNECTED {
        return;
      }
      var n := buf.ReadAbleSize();
      var bytes := buf.Read(n);
      AcceptedOk(link, out.Contents(), bytes);
      out.WriteAndPush(bytes);
      link := link.(accepted := link.accepted + bytes);
      if !writeAble {
        writeAble := true;
      }
    }

    /** Connection::Send on the loop thread; false if the bytes do not fit a buffer. */
    method SendBytes(data: string) returns (fits: bool)
      requires Valid()
      modifies this, out, out.data
      ensures Valid() && (out.data == old(out.data) || fresh(out.data))
      ensures fits == (|data| <= BUFFER_MAX_SIZE && Fits(old(out.Where()), |data|))
      ensures link == if fits then AfterAct(old(link), Send(data)) else old(link)
    {
      fits := |data| <= BUFFER_MAX_SIZE && Fits(out.Where(), |data|);
      if fits {
        var buf := new Buffer();
        buf.WriteAndPush(data);
        SendInLoop(buf);
      }
    }

    /** The message callback; false if it sent bytes that did not fit. */
    method MessageCallback(acts: seq<Act>) returns (fits: bool)
      requires Valid()
      modifies this, out, out.data
      ensures Valid() && (out.data == old(out.data) || fresh(out.data))
      ensures fits ==> link == AfterActs(old(link), acts)
      decreases acts, 1
    {
      hide Fits, LinkOk, AfterAct, AfterActs;
      fits := true;
      NoActs(link, acts);
      for i := 0 to |acts|
        invariant Valid() && (out.data == old(out.data) || fresh(out.data))
        invariant link == AfterActs(old(link), acts[..i])
      {
        NextAct(old(link), acts, i);
        if acts[i].Send? {
          fits := SendBytes(acts[i].bytes);
        } else {
          fits := ShutdownInLoop(acts[i]);
        }
        if !fits {
          return;
        }
      }
      assert acts[..|acts|] == acts;
    }

    /** ShutdownInLoop.  A connection that is not drained keeps EPOLLOUT requested. */
    method ShutdownInLoop(act: Act) returns (fits: bool)
      requires Valid() && !act.Send?
      modifies this, out, out.data
      ensures Valid() && (out.data == old(out.data) || fresh(out.data))
      ensures fits ==> link == AfterAct(old(link), act)
      decreases act, 0
    {
      hide Fits, AfterActs;
      link := link.(statu := DISCONNECTING);
      fits := true;
      if act.ShutdownUnread? {
        fits := MessageCallback(act.inner);
        if !fits {
          return;
        }
      }
      var n := out.ReadAbleSize();
      if n > 0 {
        writeAble := true; // EnableWrite; it already is requested
      } else {
        link := Released(link, ShutDown); // ReleaseInLoop
      }
    }

    /** HandleWrite where the socket takes n of the bytes offered. */
    method HandleWrite(n: nat)
      requires Valid() && n <= |out.Contents()|
      modifies this, out`reader
      ensures Valid() && out.Contents() == old(out.Contents())[n..]
      ensures link == AfterWrite(old(link), n)
    {
      hide LinkOk, AfterWrite;
      WriteOk(link, out.Contents(), n);
      var taken := out.ReadAsStringAndPop(n);
      link := link.(sent := link.sent + taken);
      var left := out.ReadAbleSize();
      if left == 0 {
        writeAble := false; // DisableWrite
        if link.statu == DISCONNECTING {
          link := Released(link, Drained);
        }
      }
    }

    /** One event; false at a send that breaks the buffer's rule. */
    method Handle(e: Event) returns (fits: bool)
      requires Valid()
      modifies this, out, out.data
      ensures Valid() && (out.data == old(out.data) || fresh(out.data))
      ensures fits ==> link == AfterEvent(old(link), e)
    {
      hide Fits, AfterAct, AfterActs;
      fits := true;
      match e {
        case Established =>
          if link.statu == CONNECTING {
            link := link.(statu := CONNECTED);
          }
        case Received(acts) => fits := MessageCallback(acts);
        case ReceiveFails(unread) => fits := ShutdownInLoop(ShutdownUnread(unread));
        case Writable(n) =>
          var offered := out.ReadAbleSize();
          HandleWrite(if n < offered then n else offered);
        case WriteFails(again, acts) =>
          if !again {
            fits := MessageCallback(acts);
            if fits {
              link := Released(link, Failed);
            }
          }
        case HangUp(acts) =>
          fits := MessageCallback(acts);
          if fits {
            link := Released(link, HungUp);
          }
        case Calls(acts) => fits := MessageCallback(acts);
      }
    }

    /** Any run, up to a send that breaks the buffer's rule: the bytes the socket took
        followed by those waiting are the bytes accepted, and waiting bytes are watched for. */
    method Run(events: seq<Event>) returns (fits: bool)
      requires Valid() && link == NEW_LINK
      modifies this, out, out.data
      ensures Valid() && (fits ==> link == AfterEvents(NEW_LINK, events))
    {
      hide Fits, LinkOk, AfterEvent, AfterEvents;
      fits := true;
      NoEvents(link, events);
      for i := 0 to |events|
        invariant Valid() && (out.data == old(out.data) || fresh(out.data))
        invariant link == AfterEvents(NEW_LINK, events[..i])
      {
        NextEvent(NEW_LINK, events, i);
        fits := Handle(events[i]);
        if !fits {
          return;
        }
      }
      assert events[..|events|] == events;
    }
  }

  lemma NoActs(l: Link, acts: seq<Act>)
    ensures AfterActs(l, acts[..0]) == l
  {
  }

  lemma NextAct(l: Link, acts: seq<Act>, i: nat)
    requires i < |acts|
    ensures AfterActs(l, acts[..i + 1]) == AfterAct(AfterActs(l, acts[..i]), acts[i])
  {
    hide AfterAct;
    assert acts[..i + 1][..i] == acts[..i];
  }

  lemma NoEvents(l: Link, es: seq<Event>)
    ensures AfterEvents(l, es[..0]) == l
  {
  }

  lemma NextEvent(l: Link, es: seq<Event>, i: nat)
    requires i < |es|
    ensures AfterEvents(l, es[..i + 1]) == AfterEvent(AfterEvents(l, es[..i]), es[i])
  {
    hide AfterEvent;
    assert es[..i + 1][..i] == es[..i];
  }
}
