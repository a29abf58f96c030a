/** A parser for requests and responses alike, and one whose connection is closed. */
module HttpKinds {
  import opened HttpTypes
  import opened HttpStep
  import opened HttpRun
  import opened HttpCutting
  import opened HttpJoin
  import opened HttpStart
  import opened HttpMessage
  import HttpGrammar
  import HttpValue
  import opened HttpLine

  /** The parser of one kind. */
  function Of(f: Fields, k: Kind): Fields { f.(kind := k, state := Start(if k == Request then StartReq else StartRes)) }

  /** The first two bytes tell the kind of a message. */
  predicate Tells(t: string, k: Kind) {
    |t| > 1 && !IsLineEnd(t[0]) &&
    if k == Response then t[0] == 'H' && t[1] == 'T' else k == Request && (t[0] == 'H' ==> t[1] == 'E')
  }

  lemma NoMarks(f: Fields)
    ensures Cut(Begin(f)) == Begin(f)
  {
  }

  /** A request that does not begin with an H is told by its first byte. */
  lemma FirstTells(f: Fields, t: string)
    requires f.state == Start(StartReqOrRes) && t != "" && !IsLineEnd(t[0]) && t[0] != 'H'
    ensures Single(f, t, 1) == Single(Of(f, Request), t, 1) || Single(Of(f, Request), t, 1).end != More
  {
    hide Switch, ApplyAct;
    var g := To(Fresh(f), Start(StartReq)).(kind := Request);
    EitherSwitch(f, t[0]);
    BeginMore(f, t);
    BeginMore(Of(f, Request), t);
    SingleStep(f, t, 0);
    SingleStep(Of(f, Request), t, 0);
    SameFirst(Of(f, Request), t[0]);
    Nothing(t[0]);
    assert g == Fresh(Of(f, Request));
    var m := Marks(None, 0, []);
    assert RunSwitch(f, m, t[0], false).f == RunSwitch(g, m, t[0], false).f;
  }

  lemma Nothing(ch: char)
    ensures ApplyAct(Marks(None, 0, []), NOTHING, ch) == Marks(None, 0, [])
  {
  }

  lemma EitherSwitch(f: Fields, ch: char)
    requires f.state == Start(StartReqOrRes) && !IsLineEnd(ch)
    ensures Switch(f, ch, false) ==
      if ch == 'H' then Next(To(Fresh(f), Start(ResOrRespH)), Notifying(MessageBegin))
      else Again(To(Fresh(f), Start(StartReq)).(kind := Request), NOTHING)
  {
  }

  lemma SameFirst(f: Fields, ch: char)
    requires f.state == Start(StartReq) && !IsLineEnd(ch)
    ensures Switch(f, ch, false).Next? ==> Switch(Fresh(f), ch, false) == Switch(f, ch, false)
    ensures Switch(f, ch, false).Next? || Switch(f, ch, false).Fail?
    ensures Switch(f, ch, false).Fail? ==> Switch(Fresh(f), ch, false).Fail?
  {
    hide FirstMethod;
  }

  lemma SecondSwitch(f: Fields)
    requires f.state == Start(StartReqOrRes)
    ensures var g := To(Fresh(f), Start(ResOrRespH));
      Switch(g, 'T', false) == Next(g.(kind := Response, state := StatusLine(ResHT)), NOTHING) &&
      Switch(g, 'E', false) == Next(g.(kind := Request, meth := HTTP_HEAD, index := 2, state := Method), NOTHING)
    ensures var g := Of(f, Request);
      var h := To(Fresh(g), Method).(meth := HTTP_HEAD, index := 1);
      Switch(g, 'H', false) == Next(h, Notifying(MessageBegin)) &&
      Switch(h, 'E', false) == Next(h.(index := 2), NOTHING)
    ensures var g := Of(f, Response);
      var h := To(Fresh(g), StatusLine(ResH));
      Switch(g, 'H', false) == Next(h, Notifying(MessageBegin)) &&
      Switch(h, 'T', false) == Next(To(h, StatusLine(ResHT)), NOTHING)
  {
  }

  /** An H and the byte behind it. */
  lemma SecondTells(f: Fields, t: string, k: Kind)
    requires f.state == Start(StartReqOrRes) && Tells(t, k) && t[0] == 'H'
    ensures Single(f, t, 2) == Single(Of(f, k), t, 2) && Single(f, t, 1).f.state.Start?
    ensures !InGeneral(Single(Of(f, k), t, 1).f)
  {
    hide Switch;
    EitherSwitch(f, 'H');
    SecondSwitch(f);
    BeginMore(f, t);
    BeginMore(Of(f, k), t);
    SingleStep(f, t, 0);
    SingleStep(f, t, 1);
    SingleStep(Of(f, k), t, 0);
    SingleStep(Of(f, k), t, 1);
  }

  lemma {:induction false} SameFrom(f: Fields, g: Fields, t: string, m: nat, n: nat)
    requires m <= n <= |t| && Single(f, t, m) == Single(g, t, m)
    ensures Single(f, t, n) == Single(g, t, n)
    decreases n
  {
    hide StepRun, Cut, Begin;
    if m < n { SameFrom(f, g, t, m, n - 1); }
  }

  /** From its second byte on a message runs as in the parser of its kind. */
  lemma SameKind(f: Fields, t: string, k: Kind, n: nat)
    requires f.state == Start(StartReqOrRes) && Tells(t, k) && 2 <= n <= |t|
    requires t[0] == 'H' || Single(Of(f, k), t, 1).end == More
    ensures Single(f, t, n) == Single(Of(f, k), t, n)
  {
    hide StepRun, Cut, Begin, Bytewise;
    if t[0] == 'H' {
      SecondTells(f, t, k);
      SameFrom(f, Of(f, k), t, 2, n);
    } else {
      FirstTells(f, t);
      SameFrom(f, Of(f, k), t, 1, n);
    }
  }

  lemma EarlyPlain(f: Fields, t: string, k: Kind, i: nat)
    requires f.state == Start(StartReqOrRes) && Tells(t, k) && i < 2
    requires t[0] == 'H' || Single(Of(f, k), t, 1).end == More
    ensures Passes(Single(f, t, i).f, t[i]) || (i == 1 && t[0] != 'H' && Single(f, t, 1) == Single(Of(f, k), t, 1))
  {
    hide StepRun, Cut, Bytewise;
    BeginMore(f, t);
    if i == 1 {
      if t[0] == 'H' { SecondTells(f, t, k); } else { FirstTells(f, t); }
    }
  }

  /** What the parser of its kind does with a whole message the parser of both does. */
  lemma KindCompletes(f: Fields, t: string, k: Kind, g: Fields, x: seq<Event>)
    requires f.state == Start(StartReqOrRes) && Tells(t, k) && Completes(Of(f, k), t, g, x)
    ensures Completes(f, t, g, x)
  {
    hide StepRun, Cut, Begin, Bytewise, Passes, InGeneral;
    MoreAtFirst(Of(f, k), t);
    SameKind(f, t, k, |t|);
    forall i | 0 <= i < |t| ensures Passes(Single(f, t, i).f, t[i]) {
      assert Passes(Single(Of(f, k), t, i).f, t[i]);
      if i >= 2 { SameKind(f, t, k, i); } else { EarlyPlain(f, t, k, i); }
    }
  }

  lemma MoreAtFirst(f: Fields, t: string)
    requires |t| > 1 && Single(f, t, |t|).used == |t|
    ensures Single(f, t, 1).end == More
  {
    hide StepRun, Cut, Begin, Bytewise;
    SingleUsed(f, t, 1);
    if Single(f, t, 1).end != More { SingleStopped(f, t, 1, |t|); }
  }

  lemma MethodTells(m: nat)
    requires m < METHOD_COUNT
    ensures |MethodName(m)| > 1 && !IsLineEnd(MethodName(m)[0]) && (MethodName(m)[0] == 'H' ==> MethodName(m)[1] == 'E')
  {
  }

  lemma MessageTells(f: Fields, m: Message)
    requires HeadOk(f, m.head)
    ensures Tells(TextOfMessage(m), f.kind)
  {
    hide MethodName, IsTarget, Text, ContentText, CodeFront, Decimal, AllSpaces;
    var t := HeadText(m.head);
    match m.head
    case Asking(l) =>
      MethodTells(l.meth);
      var n := MethodName(l.meth);
      assert t[0] == n[0] && t[1] == n[1];
    case Answering(l) =>
      FrontTells(l);
      assert t[0] == CodeFront(l)[0] && t[1] == CodeFront(l)[1];
  }

  lemma FrontTells(l: ResponseLine)
    ensures |CodeFront(l)| > 1 && CodeFront(l)[0] == 'H' && CodeFront(l)[1] == 'T'
  {
  }

  /** A fresh parser of both kinds delivers any stream that the parser of the kind of its
      first message delivers, and delivers the same. */
  lemma EitherDelivered(kind: Kind, lenient: bool, ms: seq<Message>, pieces: seq<string>)
    requires ms != [] && kind != Both && StreamOk(Init(kind, lenient), ms)
    requires Concat(pieces) == StreamText(ms) && "" !in pieces
    ensures var r := Feed(Begin(Init(Both, lenient)), pieces);
      r.m.evs == StreamEvents(ms) && r.used == |StreamText(ms)| && (r.end == More || r.end == Exited)
  {
    hide Inv, Bytewise, Begin, Plain, StreamText, StreamEvents, StreamOk, HidesBadByte, Feed, LosesTail, TextOfMessage;
    var f, t := Init(Both, lenient), StreamText(ms);
    assert Of(f, kind) == Init(kind, lenient);
    InitInv(kind, lenient);
    InitInv(Both, lenient);
    var g := StreamRuns(Of(f, kind), Of(f, kind), ms);
    StreamTells(Of(f, kind), ms);
    KindCompletes(f, t, kind, g, StreamEvents(ms));
    PlainUnhidden(f, t);
    NotFailed(f, t);
    EventsIndependence(f, t);
    assert SameResult(Feed(Begin(f), pieces), Single(f, t, |t|));
  }

  lemma StreamTells(f: Fields, ms: seq<Message>)
    requires ms != [] && StreamOk(f, ms)
    ensures Tells(StreamText(ms), f.kind)
  {
    hide TextOfMessage, MessageOk;
    HeadThere(f, ms[0]);
    MessageTells(f, ms[0]);
  }

  // ----- A closed connection

  /** Behind the last message of a connection line ends are skipped and nothing else is. */
  lemma {:induction false} ClosedExact(f: Fields, d: string)
    requires Inv(f) && f.errno == OK && f.state == Start(Dead)
    ensures if HttpGrammar.AllEnds(d) then Runs(f, d, f, [])
      else Single(f, d, |d|).end == Failed && Single(f, d, |d|).f == f.(errno := ClosedConnection)
    decreases |d|
  {
    hide Inv, Runs, Bytewise, Begin, IsLineEnd;
    if d == "" {
      RunsNothing(f);
    } else {
      var k := |d| - 1;
      ClosedExact(f, d[..k]);
      assert d[..k] + [d[k]] == d;
      HttpGrammar.AllMore(d[..k], d[k]);
      if HttpGrammar.AllEnds(d) {
        HttpGrammar.BlankLines(f, d);
      } else if HttpGrammar.AllEnds(d[..k]) {
        DeadSwitch(f, d[k]);
        assert d[..k] + [d[k]] + "" == d;
        HttpValue.FailsBehind(f, d[..k], f, [], d[k], f.(errno := ClosedConnection), "");
      } else {
        SinglePrefix(f, d, d[..k], k);
        SingleStopped(f, d, k, |d|);
      }
    }
  }

  lemma DeadSwitch(f: Fields, ch: char)
    requires f.state == Start(Dead) && !IsLineEnd(ch)
    ensures Switch(f, ch, false) == Fail(f.(errno := ClosedConnection))
  {
  }
}
