/** Whole messages: what http_parser_execute delivers for a printed request or response,
    told from its text. */
module HttpMessage {
  import opened HttpTypes
  import opened HttpStep
  import opened HttpRun
  import opened HttpCutting
  import opened HttpJoin
  import opened HttpHeader
  import HttpValue
  import HttpOptions
  import opened HttpLine
  import opened HttpStart
  import HttpLength
  import HttpChunked
  import HttpSplit

  // ----- How the body is delimited

  datatype Framing = Upgrading | Empty | Counted(n: nat) | Chunks | UntilEnd

  /** The connection changes hands behind the headers. */
  predicate Upgrades(c: Fields) {
    if c.flags.upgrade && c.flags.connectionUpgrade then c.kind == Request || c.statusCode == 101
    else c.meth == HTTP_CONNECT
  }

  /** A request without a length has no body, nor has a response with such a code. */
  predicate Bodiless(c: Fields) {
    c.kind == Request || 100 <= c.statusCode < 200 || c.statusCode == 204 || c.statusCode == 304
  }

  function FramingOf(c: Fields): Framing {
    if Upgrades(c) && (c.meth == HTTP_CONNECT || !(c.flags.chunked || (c.flags.contentLength && c.contentLength > 0)))
    then Upgrading
    else if c.flags.chunked then Chunks
    else if c.flags.contentLength then if c.contentLength == 0 then Empty else Counted(c.contentLength)
    else if Bodiless(c) then Empty else UntilEnd
  }

  /** Both framings at once are refused. */
  predicate TwoFramings(c: Fields) { c.flags.chunked && c.flags.contentLength }

  /** The connection serves another message: by the options of its headers, where either
      version digit being 0 asks for keep-alive, and only if the end of the body shows. */
  predicate Persists(c: Fields) {
    (if c.major > 0 && c.minor > 0 then !c.flags.close else c.flags.keepAlive) &&
    (Bodiless(c) || c.flags.chunked || c.flags.contentLength)
  }

  function NextState(c: Fields): State {
    Start(if !Persists(c) then Dead else if c.kind == Request then StartReq else StartRes)
  }

  /** A length is known exactly if its flag is set. */
  predicate LengthFlagged(c: Fields) { c.flags.contentLength <==> c.contentLength != NO_LENGTH }

  /** The fields of a message in which no callback has asked to skip the body. */
  predicate Plainly(c: Fields) { !c.flags.trailing && !c.flags.skipBody && LengthFlagged(c) }

  lemma EffectKeeps(c: Fields, l: Line)
    requires LengthFlagged(c) && Refusal(c, l).None?
    ensures LengthFlagged(Effect(c, l))
  {
    hide Like, HttpValue.Names, HttpOptions.Lists, HttpOptions.ItemsOf, HttpValue.LengthOf, IsConnection,
      HttpValue.IsLength;
  }

  lemma {:induction false} EffectsKeep(c: Fields, lines: seq<Line>)
    requires Taken(c, lines)
    ensures var e := Effects(c, lines);
      e.flags.trailing == c.flags.trailing && e.flags.skipBody == c.flags.skipBody && e.kind == c.kind &&
      e.meth == c.meth && e.major == c.major && e.minor == c.minor && e.statusCode == c.statusCode &&
      e.upgrade == c.upgrade && (LengthFlagged(c) ==> LengthFlagged(e))
    decreases |lines|
  {
    hide Refusal, LengthFlagged;
    if lines != [] {
      EffectsKeep(c, lines[..|lines| - 1]);
      EffectStays(Effects(c, lines[..|lines| - 1]), lines[|lines| - 1]);
      if LengthFlagged(c) {
        EffectKeeps(Effects(c, lines[..|lines| - 1]), lines[|lines| - 1]);
      }
    }
  }

  /** Nothing but flags and length. */
  predicate Stays(c: Fields, e: Fields) {
    e == c.(flags := e.flags, contentLength := e.contentLength) &&
    e.flags.trailing == c.flags.trailing && e.flags.skipBody == c.flags.skipBody
  }

  lemma OptionsStay(c: Fields, items: seq<string>)
    ensures Stays(c, HttpOptions.WithOptions(c, items))
  {
    hide HttpOptions.Lists;
  }

  lemma FlagsStay(c: Fields, n: nat, chunked: bool)
    ensures Stays(c, c) && Stays(c, c.(flags := c.flags.(contentLength := true), contentLength := n))
    ensures Stays(c, c.(flags := c.flags.(chunked := chunked))) && Stays(c, c.(flags := c.flags.(upgrade := true)))
  {
  }

  lemma EffectStays(c: Fields, l: Line)
    ensures Stays(c, Effect(c, l))
  {
    hide Stays, Like, HttpValue.Names, HttpOptions.WithOptions, HttpOptions.ItemsOf, HttpValue.LengthOf, IsConnection;
    FlagsStay(c, HttpValue.LengthOf(l.value), c.flags.chunked || HttpValue.Names(l.value, HttpValue.CHUNKED));
    if l.value != "" { OptionsStay(c, HttpOptions.ItemsOf(l.value)); }
  }

  // ----- The end of the headers

  lemma NextStateIs(c: Fields)
    requires LengthFlagged(c) && !c.flags.skipBody
    ensures NewMessage(c) == NextState(c)
  {
  }

  /** A chunked message ends in its trailer, where a length may have been overwritten. */
  lemma ChunkedNextState(c: Fields)
    requires c.flags.chunked
    ensures NewMessage(c) == NextState(c)
  {
  }

  function Headed(c: Fields): Fields { c.(upgrade := Upgrades(c)) }

  /** Where the parser stands behind the headers of a message. */
  function BodyState(c: Fields): State {
    match FramingOf(c)
    case Upgrading | Empty => NextState(c)
    case Counted(_) => Payload(BodyIdentity)
    case Chunks => ChunkLine(ChunkSizeStart)
    case UntilEnd => Payload(BodyIdentityEof)
  }

  function EndEvents(c: Fields): seq<Event> {
    [Note(HeadersComplete)] + if FramingOf(c).Upgrading? || FramingOf(c).Empty? then [Note(MessageComplete)] else []
  }

  lemma HeadersDoneIs(c: Fields)
    requires c.state == HeadersEnd(HeadersDone) && Plainly(c) && !TwoFramings(c) && c.upgrade == Upgrades(c)
    ensures var s := Switch(c, '\n', false);
      match FramingOf(c)
      case Upgrading => s == Exit(To(c, NextState(c)), ResetNotifying(MessageComplete))
      case Empty => s == Next(To(c, NextState(c)), ResetNotifying(MessageComplete))
      case _ => s == Next(To(c, BodyState(c)), RESET)
  {
    hide NewMessage, NextState;
    NextStateIs(c);
    NeedsEofIs(c);
  }

  lemma NeedsEofIs(c: Fields)
    requires LengthFlagged(c) && !c.flags.skipBody
    ensures NeedsEof(c) <==> !Bodiless(c) && !c.flags.chunked && !c.flags.contentLength
  {
  }

  lemma SameFraming(c: Fields, s: State, b: bool)
    ensures var d := c.(state := s, upgrade := b);
      FramingOf(d) == FramingOf(c) && Upgrades(d) == Upgrades(c) && NextState(d) == NextState(c) &&
      BodyState(d) == BodyState(c) && TwoFramings(d) == TwoFramings(c) && Plainly(d) == Plainly(c)
  {
  }

  /** The line feed that ends the headers. */
  lemma EndChain(c: Fields)
    requires Plainly(c) && !TwoFramings(c)
    ensures var r := RunSwitch(To(c, HeadersEnd(HeadersAlmostDone)), Marks(None, 0, []), '\n', false);
      r.f == To(Headed(c), BodyState(c)) && r.m == Marks(None, 0, EndEvents(c)) &&
      r.end == if FramingOf(c).Upgrading? then Exited else More
  {
    hide Switch, FramingOf, NextState, BodyState, TwoFramings, Upgrades, Plainly;
    var d := To(Headed(c), HeadersEnd(HeadersDone));
    SameFraming(c, HeadersEnd(HeadersDone), Upgrades(c));
    HeadersDoneIs(d);
    BodyStateIs(c);
    AlmostDoneIs(c);
    var m := Marks(None, 0, [Note(HeadersComplete)]);
    assert ApplyAct(Marks(None, 0, []), Notifying(HeadersComplete), '\n') == m;
    assert RunSwitch(To(c, HeadersEnd(HeadersAlmostDone)), Marks(None, 0, []), '\n', false).f ==
      RunSwitch(d, m, '\n', false).f;
  }

  lemma BodyStateIs(c: Fields)
    ensures FramingOf(c).Upgrading? || FramingOf(c).Empty? ==> BodyState(c) == NextState(c)
    ensures InitialMark(BodyState(c)).None?
  {
    hide FramingOf;
  }

  /** The same with no CR in front of it. */
  lemma EndChainAlone(c: Fields)
    requires Plainly(c) && !TwoFramings(c) && c.state == Header(HeaderFieldStart)
    ensures var r := RunSwitch(c, Marks(None, 0, []), '\n', false);
      r.f == To(Headed(c), BodyState(c)) && r.m == Marks(None, 0, EndEvents(c)) &&
      r.end == if FramingOf(c).Upgrading? then Exited else More
  {
    hide Switch, FramingOf, NextState, BodyState, TwoFramings, Upgrades, Plainly, Headed, EndEvents;
    EndChain(c);
    FieldStartIs(c);
    assert To(c, Header(HeaderFieldStart)) == c;
  }

  lemma AlmostDoneIs(c: Fields)
    requires Plainly(c) && !TwoFramings(c)
    ensures var a := To(c, HeadersEnd(HeadersAlmostDone));
      Switch(a, '\n', false) == Again(To(Headed(c), HeadersEnd(HeadersDone)), Notifying(HeadersComplete))
  {
  }

  lemma FieldStartIs(c: Fields)
    ensures var s := To(c, Header(HeaderFieldStart));
      Switch(s, '\n', false) == Again(To(c, HeadersEnd(HeadersAlmostDone)), NOTHING) &&
      Switch(s, '\r', false) == Next(To(c, HeadersEnd(HeadersAlmostDone)), NOTHING)
  {
  }

  /** One byte that ends a message, or lets the headers go on into the body. */
  lemma ByteCompletes(f: Fields, ch: char, c: Chain)
    requires Passes(f, ch) && InitialMark(f.state).None? && c == RunSwitch(f, Marks(None, 0, []), ch, false)
    requires c.m.open.None? && (c.end == More || c.end == Exited)
    ensures (c.end == Exited) == c.f.upgrade ==> Completes(f, [ch], c.f, c.m.evs)
    ensures c.end == More ==> Runs(f, [ch], c.f, c.m.evs)
  {
    hide Switch, InGeneral, InitialMark, RunSwitch;
    BeginMore(f, [ch]);
    SingleStep(f, [ch], 0);
  }

  /** The empty line behind the headers. */
  lemma EndRuns(c: Fields, eol: string)
    requires Inv(c) && c.errno == OK && c.state == Header(HeaderFieldStart) && Plainly(c)
    requires !TwoFramings(c) && IsEol(eol)
    ensures var g := To(Headed(c), BodyState(c));
      if FramingOf(c).Upgrading? || FramingOf(c).Empty? then Completes(c, eol, g, EndEvents(c))
      else Runs(c, eol, g, EndEvents(c))
  {
    hide Inv, Switch, RunSwitch, FramingOf, Plainly, TwoFramings, BodyState, EndEvents, Completes, Runs, InitialMark;
    var a := To(c, HeadersEnd(HeadersAlmostDone));
    UpgradeIs(c);
    FieldStartIs(c);
    NotGeneral(c);
    if eol == "\n" {
      EndChainAlone(c);
      ByteCompletes(c, '\n', RunSwitch(c, Marks(None, 0, []), '\n', false));
    } else {
      EndChain(c);
      ByteCompletes(a, '\n', RunSwitch(a, Marks(None, 0, []), '\n', false));
      RunsQuiet(c, '\r', a);
      assert ['\r'] + ['\n'] == eol;
      var none: seq<Event> := [];
      assert none + EndEvents(c) == EndEvents(c);
      var g := To(Headed(c), BodyState(c));
      if FramingOf(c).Upgrading? || FramingOf(c).Empty? {
        CompletesJoin(c, ['\r'], a, [], ['\n'], g, EndEvents(c));
      } else {
        RunsJoin(c, ['\r'], a, [], ['\n'], g, EndEvents(c));
      }
    }
  }

  lemma UpgradeIs(c: Fields)
    ensures FramingOf(c).Upgrading? ==> Headed(c).upgrade
    ensures FramingOf(c).Empty? || FramingOf(c).UntilEnd? ==> !Headed(c).upgrade
  {
  }

  lemma NotGeneral(c: Fields)
    requires c.state == Header(HeaderFieldStart)
    ensures var a := To(c, HeadersEnd(HeadersAlmostDone));
      !InGeneral(c) && !InGeneral(a) && InitialMark(c.state).None? && InitialMark(a.state).None?
  {
  }

  /** Two framings are refused at the empty line. */
  lemma TwoFramingsRefused(c: Fields, eol: string, tail: string)
    requires Inv(c) && c.errno == OK && c.state == Header(HeaderFieldStart) && !c.flags.trailing && TwoFramings(c)
    requires IsEol(eol)
    ensures var d := eol + tail;
      Single(c, d, |d|).end == Failed && Single(c, d, |d|).f.errno == UnexpectedContentLength
  {
    hide Inv, Switch, Bytewise, Begin, InitialMark, InGeneral;
    var a, e := To(c, HeadersEnd(HeadersAlmostDone)), UnexpectedContentLength;
    FieldStartIs(c);
    NotGeneral(c);
    RefusedIs(c);
    if eol == "\n" {
      var d := eol + tail;
      assert To(c, Header(HeaderFieldStart)) == c;
      assert RunSwitch(c, Marks(None, 0, []), '\n', false).end == RunSwitch(a, Marks(None, 0, []), '\n', false).end;
      BeginMore(c, d);
      BeginFields(c);
      BeginMarks(c);
      SingleStep(c, d, 0);
      SingleStopped(c, d, 1, |d|);
    } else {
      RunsQuiet(c, '\r', a);
      HttpValue.FailsBehind(c, ['\r'], a, [], '\n', a.(errno := e), tail);
      assert ['\r'] + ['\n'] + tail == eol + tail;
    }
  }

  lemma BeginMarks(f: Fields)
    ensures Cut(Begin(f)).m == Marks(InitialMark(f.state), 0, []) && Cut(Begin(f)).f == f
  {
  }

  lemma RefusedIs(c: Fields)
    requires TwoFramings(c) && !c.flags.trailing
    ensures var a := To(c, HeadersEnd(HeadersAlmostDone));
      Switch(a, '\n', false) == Fail(a.(errno := UnexpectedContentLength))
  {
  }

  // ----- Bodies

  lemma CountedRuns(f: Fields, data: string)
    requires Inv(f) && f.errno == OK && f.state == Payload(BodyIdentity) && f.contentLength == |data|
    ensures Completes(f, data, HttpLength.Over(f), HttpTypes.Bytes(Body, data) + [Note(MessageComplete)])
  {
    hide Inv, Bytewise, Begin, InGeneral, NewMessage;
    HttpLength.LengthBody(f, data);
    assert HttpLength.Over(f).upgrade == f.upgrade;
  }

  lemma EofByte(f: Fields, ch: char)
    requires f.state == Payload(BodyIdentityEof)
    ensures Switch(f, ch, false) == Next(f, Marking(Body)) && !InGeneral(f) && InitialMark(f.state).None?
  {
  }

  /** A body until the end of the stream is delivered as it comes. */
  lemma {:induction false} OpenEndedRuns(f: Fields, data: string)
    requires Inv(f) && f.errno == OK && f.state == Payload(BodyIdentityEof)
    ensures Runs(f, data, f, HttpTypes.Bytes(Body, data))
    decreases |data|
  {
    hide Inv, Runs, Switch, InGeneral, InitialMark;
    if data == "" {
      RunsNothing(f);
      assert HttpTypes.Bytes(Body, data) == [];
    } else {
      var k := |data| - 1;
      OpenEndedRuns(f, data[..k]);
      EofByte(f, data[k]);
      DataMore(f, data[..k], f, HttpTypes.Bytes(Body, data[..k]), data[k], f, Body);
      assert data[..k] + [data[k]] == data;
      assert HttpTypes.Bytes(Body, data[..k]) + [Byte(Body, data[k])] == HttpTypes.Bytes(Body, data);
    }
  }

  lemma FramedRuns(f: Fields, chunks: seq<HttpChunked.Chunk>, last: HttpChunked.Chunk)
    requires f.state == ChunkLine(ChunkSizeStart) && f.flags.chunked
    requires (forall c :: c in chunks ==> HttpChunked.WellFormed(c)) && HttpChunked.IsLast(last)
    ensures Runs(f, HttpChunked.Framed(chunks, last), HttpChunked.InTrailer(f),
                 HttpChunked.EventsOf(chunks) + [Note(ChunkHeader)])
  {
    hide HttpChunked.Framed, HttpChunked.EventsOf, HttpChunked.IsLast, HttpChunked.WellFormed, Bytewise, Begin,
      InGeneral;
    var d, evs := HttpChunked.Framed(chunks, last), HttpChunked.EventsOf(chunks) + [Note(ChunkHeader)];
    HttpChunked.ChunksRead(f, d, chunks, last);
    HttpChunked.ReachesPlain(f, d, |d|, HttpChunked.InTrailer(f), evs);
  }

  const TRAILER_EVENTS: seq<Event> := [Note(ChunkComplete), Note(MessageComplete)]

  lemma TrailerSwitches(c: Fields)
    requires c.flags.trailing && c.flags.chunked
    ensures var a, d := To(c, HeadersEnd(HeadersAlmostDone)), To(c, Payload(MessageDone));
      Switch(a, '\n', false) == Again(d, Notifying(ChunkComplete)) &&
      Switch(d, '\n', false) ==
        if c.upgrade then Exit(To(c, NextState(c)), Notifying(MessageComplete))
        else Next(To(c, NextState(c)), Notifying(MessageComplete))
  {
    hide NewMessage, NextState;
    SameFraming(c, Payload(MessageDone), c.upgrade);
    ChunkedNextState(To(c, Payload(MessageDone)));
  }

  lemma TrailerChain(c: Fields, s: State)
    requires c.flags.trailing && c.flags.chunked
    ensures var r := RunSwitch(To(c, HeadersEnd(HeadersAlmostDone)), Marks(None, 0, []), '\n', false);
      r.f == To(c, NextState(c)) && r.m == Marks(None, 0, TRAILER_EVENTS) && r.end == if c.upgrade then Exited else More
    ensures c.state == Header(HeaderFieldStart) ==>
      var r := RunSwitch(c, Marks(None, 0, []), '\n', false);
      r.f == To(c, NextState(c)) && r.m == Marks(None, 0, TRAILER_EVENTS) && r.end == if c.upgrade then Exited else More
  {
    hide Switch, NextState;
    TrailerSwitches(c);
    FieldStartIs(c);
    var none, one := Marks(None, 0, []), Marks(None, 0, [Note(ChunkComplete)]);
    var a, d := To(c, HeadersEnd(HeadersAlmostDone)), To(c, Payload(MessageDone));
    assert ApplyAct(none, Notifying(ChunkComplete), '\n') == one;
    assert RunSwitch(d, one, '\n', false).m == ApplyAct(one, Notifying(MessageComplete), '\n');
    assert RunSwitch(a, none, '\n', false).m == RunSwitch(d, one, '\n', false).m;
    assert c.state == Header(HeaderFieldStart) ==> To(c, Header(HeaderFieldStart)) == c;
  }

  /** The empty line behind a trailer. */
  lemma TrailerRuns(c: Fields, eol: string)
    requires Inv(c) && c.errno == OK && c.state == Header(HeaderFieldStart) && c.flags.trailing && c.flags.chunked
    requires IsEol(eol)
    ensures Completes(c, eol, To(c, NextState(c)), TRAILER_EVENTS)
  {
    hide Inv, Switch, RunSwitch, NextState, Completes, Runs, InitialMark;
    var a, g := To(c, HeadersEnd(HeadersAlmostDone)), To(c, NextState(c));
    FieldStartIs(c);
    NotGeneral(c);
    TrailerChain(c, c.state);
    if eol == "\n" {
      ByteCompletes(c, '\n', RunSwitch(c, Marks(None, 0, []), '\n', false));
    } else {
      ByteCompletes(a, '\n', RunSwitch(a, Marks(None, 0, []), '\n', false));
      RunsQuiet(c, '\r', a);
      assert ['\r'] + ['\n'] == eol;
      var none: seq<Event> := [];
      assert none + TRAILER_EVENTS == TRAILER_EVENTS;
      CompletesJoin(c, ['\r'], a, [], ['\n'], g, TRAILER_EVENTS);
    }
  }

  // ----- Whole messages

  datatype Head = Asking(request: RequestLine) | Answering(response: ResponseLine)

  /** NoBody has no bytes; the trailer of a chunked body ends with an empty line. */
  datatype Content =
    | NoBody
    | Data(data: string)
    | Chunked(chunks: seq<HttpChunked.Chunk>, last: HttpChunked.Chunk, trailer: seq<Line>, end: string)

  datatype Message = Message(head: Head, lines: seq<Line>, eol: string, content: Content)

  ghost predicate HeadOk(f: Fields, h: Head) {
    match h
    case Asking(l) => f.kind == Request && f.state == Start(StartReq) && RequestLineOk(l)
    case Answering(l) =>
      f.kind == Response && f.state == Start(StartRes) && StatusLineOk(l) && Decimal(l.code) <= MAX_STATUS
  }

  function HeadText(h: Head): string {
    match h
    case Asking(l) => RequestText(l)
    case Answering(l) => StatusText(l)
  }

  function HeadEvents(h: Head): seq<Event> {
    match h
    case Asking(l) => RequestEvents(l)
    case Answering(l) => StatusEvents(l)
  }

  /** The fields behind the start line. */
  ghost function Headlined(f: Fields, h: Head): Fields
    requires HeadOk(f, h)
  {
    match h
    case Asking(l) => Requested(f, l)
    case Answering(l) => Responded(f, l)
  }

  predicate LinesOk(lines: seq<Line>, lenient: bool) { forall i :: 0 <= i < |lines| ==> LineOk(lines[i], lenient) }

  /** The fields behind the headers. */
  ghost function HeadersOf(f: Fields, m: Message): Fields
    requires HeadOk(f, m.head)
  {
    Effects(Headlined(f, m.head), m.lines)
  }

  /** The fields where the trailer of a chunked message begins. */
  function TrailerFields(c: Fields): Fields { HttpChunked.InTrailer(Headed(c)) }

  predicate ContentOk(c: Fields, b: Content) {
    match b
    case NoBody => FramingOf(c).Upgrading? || FramingOf(c).Empty?
    case Data(data) => FramingOf(c) == Counted(|data|)
    case Chunked(chunks, last, trailer, end) =>
      FramingOf(c).Chunks? && (forall k :: k in chunks ==> HttpChunked.WellFormed(k)) && HttpChunked.IsLast(last) &&
      LinesOk(trailer, c.lenient) && Taken(TrailerFields(c), trailer) && IsEol(end)
  }

  function ContentText(b: Content): string {
    match b
    case NoBody => ""
    case Data(data) => data
    case Chunked(chunks, last, trailer, end) => HttpChunked.Framed(chunks, last) + Text(trailer) + end
  }

  function ContentEvents(b: Content): seq<Event> {
    match b
    case NoBody => []
    case Data(data) => HttpTypes.Bytes(Body, data)
    case Chunked(chunks, last, trailer, end) =>
      HttpChunked.EventsOf(chunks) + [Note(ChunkHeader)] + Events(trailer) + [Note(ChunkComplete)]
  }

  /** The fields that decide about the next message: a trailer may still set flags. */
  function LastFields(c: Fields, b: Content): Fields {
    if b.Chunked? then Effects(TrailerFields(c), b.trailer) else c
  }

  /** A start line and headers that are taken. */
  ghost predicate FrontOk(f: Fields, m: Message) {
    HeadOk(f, m.head) && LinesOk(m.lines, f.lenient) && Taken(Headlined(f, m.head), m.lines) && IsEol(m.eol)
  }

  ghost predicate MessageOk(f: Fields, m: Message) {
    FrontOk(f, m) && !TwoFramings(HeadersOf(f, m)) && ContentOk(HeadersOf(f, m), m.content)
  }

  function FrontText(m: Message): string { HeadText(m.head) + Text(m.lines) }
  function FrontEvents(m: Message): seq<Event> { HeadEvents(m.head) + Events(m.lines) }

  function TextOfMessage(m: Message): string { FrontText(m) + (m.eol + ContentText(m.content)) }

  function EventsOfMessage(m: Message): seq<Event> {
    FrontEvents(m) + ([Note(HeadersComplete)] + ContentEvents(m.content) + [Note(MessageComplete)])
  }

  /** What outlasts the header lines is all that matters behind them. */
  lemma SameMessage(c: Fields, d: Fields)
    requires Same(c, d)
    ensures FramingOf(c) == FramingOf(d) && Upgrades(c) == Upgrades(d) && NextState(c) == NextState(d)
    ensures Plainly(c) == Plainly(d) && TwoFramings(c) == TwoFramings(d) && Persists(c) == Persists(d)
    ensures c.flags == d.flags && c.kind == d.kind && c.meth == d.meth && c.major == d.major && c.minor == d.minor
    ensures c.statusCode == d.statusCode && c.upgrade == d.upgrade && c.lenient == d.lenient
    ensures c.contentLength == d.contentLength
  {
  }

  lemma {:induction false} SameLines(c: Fields, d: Fields, lines: seq<Line>)
    requires Same(c, d)
    ensures Same(Effects(c, lines), Effects(d, lines)) && Taken(c, lines) == Taken(d, lines)
    decreases |lines|
  {
    hide Effect, Refusal, Same;
    if lines != [] {
      SameLines(c, d, lines[..|lines| - 1]);
      SameLine(Effects(c, lines[..|lines| - 1]), Effects(d, lines[..|lines| - 1]), lines[|lines| - 1]);
    }
  }

  lemma HeadlinedIs(f: Fields, h: Head)
    requires HeadOk(f, h)
    ensures var c := Headlined(f, h); Plainly(c) && c.kind == f.kind && c.lenient == f.lenient
  {
    hide RequestLineOk, Decimal;
  }

  /** Start line and headers. */
  lemma FrontRuns(f: Fields, m: Message) returns (g: Fields)
    requires Inv(f) && f.errno == OK && FrontOk(f, m)
    ensures Runs(f, FrontText(m), g, FrontEvents(m)) && Inv(g) && g.errno == OK
    ensures Same(Settle(g), HeadersOf(f, m)) && Settle(g).state == Header(HeaderFieldStart) && Plainly(HeadersOf(f, m))
    ensures HeadersOf(f, m).lenient == f.lenient
  {
    hide Inv, Runs, Plainly, RequestText, StatusText, RequestEvents, StatusEvents, Requested, Responded, Text, Events,
      RequestLineOk, StatusLineOk, Settle, LineOk;
    var h;
    match m.head {
      case Asking(l) => h := RequestLineRuns(f, l);
      case Answering(l) => h := StatusLineRuns(f, l);
    }
    var c := Headlined(f, m.head);
    HeadlinedIs(f, m.head);
    RunsInv(f, HeadText(m.head), h, HeadEvents(m.head));
    SameMessage(h, c);
    SameLines(h, c, m.lines);
    g := LinesRun(h, m.lines);
    RunsJoin(f, HeadText(m.head), h, HeadEvents(m.head), Text(m.lines), g, Events(m.lines));
    PlainlyKept(c, m.lines);
  }

  lemma PlainlyKept(c: Fields, lines: seq<Line>)
    requires Plainly(c) && Taken(c, lines)
    ensures Plainly(Effects(c, lines)) && Effects(c, lines).lenient == c.lenient
  {
    EffectsKeep(c, lines);
    EffectsLenient(c, lines);
  }

  lemma DataKeeps(c: Fields, s: Fields)
    requires FramingOf(c).Counted? && LengthFlagged(c) && !c.flags.skipBody
    requires s == To(Headed(c), Payload(BodyIdentity))
    ensures HttpLength.Over(s).state == NextState(c) && c.contentLength == FramingOf(c).n
  {
    NextStateIs(s.(contentLength := 0));
  }

  /** What a message leaves behind. */
  predicate Leaves(g: Fields, c: Fields, e: Fields) {
    g.state == NextState(e) && g.upgrade == Upgrades(c) && g.flags == e.flags && g.kind == c.kind && g.meth == c.meth &&
    g.major == c.major && g.minor == c.minor && g.statusCode == c.statusCode && g.lenient == c.lenient
  }

  /** The empty line and a body of known length, or none. */
  lemma CountedTail(c: Fields, eol: string, b: Content) returns (g: Fields)
    requires Inv(c) && c.errno == OK && c.state == Header(HeaderFieldStart) && Plainly(c)
    requires !TwoFramings(c) && IsEol(eol)
    requires ContentOk(c, b) && !b.Chunked?
    ensures Completes(c, eol + ContentText(b), g, [Note(HeadersComplete)] + ContentEvents(b) + [Note(MessageComplete)])
    ensures Leaves(g, c, c)
  {
    hide Inv, Runs, Completes, FramingOf, NextState, TwoFramings, Upgrades;
    EndRuns(c, eol);
    BodyStateIs(c);
    var s, x := To(Headed(c), BodyState(c)), [Note(HeadersComplete)];
    if b.NoBody? {
      g := s;
      assert eol + "" == eol && x + [] + [Note(MessageComplete)] == EndEvents(c);
    } else {
      g := HttpLength.Over(s);
      DataKeeps(c, s);
      assert EndEvents(c) == x;
      RunsInv(c, eol, s, x);
      CountedRuns(s, b.data);
      var y := HttpTypes.Bytes(Body, b.data);
      SomeData(s);
      CompletesJoin(c, eol, s, x, b.data, g, y + [Note(MessageComplete)]);
      assert x + (y + [Note(MessageComplete)]) == x + y + [Note(MessageComplete)];
    }
  }

  lemma SomeData(s: Fields)
    requires Inv(s) && s.state == Payload(BodyIdentity)
    ensures s.contentLength > 0
  {
  }

  lemma TrailerKeeps(c: Fields, trailer: seq<Line>)
    requires c.flags.chunked && Taken(HttpChunked.InTrailer(c), trailer)
    ensures var e := Effects(HttpChunked.InTrailer(c), trailer);
      e.flags.chunked && e.flags.trailing && e.upgrade == c.upgrade && e.kind == c.kind && e.meth == c.meth &&
      e.major == c.major && e.minor == c.minor && e.statusCode == c.statusCode && e.lenient == c.lenient
  {
    hide Taken;
    EffectsKeep(HttpChunked.InTrailer(c), trailer);
    EffectsLenient(HttpChunked.InTrailer(c), trailer);
    ChunkedKept(HttpChunked.InTrailer(c), trailer);
  }

  lemma {:induction false} ChunkedKept(c: Fields, lines: seq<Line>)
    ensures c.flags.chunked ==> Effects(c, lines).flags.chunked
    decreases |lines|
  {
    hide Effect;
    if lines != [] {
      ChunkedKept(c, lines[..|lines| - 1]);
      ChunkedStays(Effects(c, lines[..|lines| - 1]), lines[|lines| - 1]);
    }
  }

  predicate ChunkedToo(c: Fields, e: Fields) { c.flags.chunked ==> e.flags.chunked }

  lemma FlagsChunked(c: Fields, n: nat, more: bool, items: seq<string>)
    ensures ChunkedToo(c, c) && ChunkedToo(c, c.(flags := c.flags.(contentLength := true), contentLength := n))
    ensures ChunkedToo(c, c.(flags := c.flags.(chunked := c.flags.chunked || more)))
    ensures ChunkedToo(c, c.(flags := c.flags.(upgrade := true))) && ChunkedToo(c, HttpOptions.WithOptions(c, items))
  {
    hide HttpOptions.Lists;
  }

  lemma ChunkedStays(c: Fields, l: Line)
    ensures ChunkedToo(c, Effect(c, l))
  {
    hide ChunkedToo, Like, HttpValue.Names, HttpOptions.WithOptions, HttpOptions.ItemsOf, HttpValue.LengthOf,
      IsConnection;
    FlagsChunked(c, HttpValue.LengthOf(l.value), HttpValue.Names(l.value, HttpValue.CHUNKED), []);
    if l.value != "" { FlagsChunked(c, 0, false, HttpOptions.ItemsOf(l.value)); }
  }

  /** Chunks, trailer and the empty line behind it. */
  lemma ChunksTail(s: Fields, b: Content) returns (g: Fields)
    requires Inv(s) && s.errno == OK && s.state == ChunkLine(ChunkSizeStart) && s.flags.chunked && b.Chunked?
    requires (forall k :: k in b.chunks ==> HttpChunked.WellFormed(k)) && HttpChunked.IsLast(b.last)
    requires LinesOk(b.trailer, s.lenient) && Taken(HttpChunked.InTrailer(s), b.trailer) && IsEol(b.end)
    ensures Completes(s, ContentText(b), g, ContentEvents(b) + [Note(MessageComplete)])
    ensures s.upgrade == Upgrades(s) ==> Leaves(g, s, Effects(HttpChunked.InTrailer(s), b.trailer))
  {
    hide Inv, Runs, Completes, NextState, Upgrades, LineOk, HttpChunked.Framed, HttpChunked.EventsOf, Text, Events,
      Taken, Effects, Settle, HttpChunked.IsLast, HttpChunked.WellFormed, Pending, Same;
    var t, x := HttpChunked.InTrailer(s), HttpChunked.EventsOf(b.chunks) + [Note(ChunkHeader)];
    var front := HttpChunked.Framed(b.chunks, b.last);
    FramedRuns(s, b.chunks, b.last);
    RunsInv(s, front, t, x);
    var h := LinesRun(t, b.trailer);
    RunsJoin(s, front, t, x, Text(b.trailer), h, Events(b.trailer));
    SettledInv(h);
    var k := Settle(h);
    SameMessage(k, Effects(t, b.trailer));
    TrailerKeeps(s, b.trailer);
    g := To(k, NextState(k));
    TrailerRuns(k, b.end);
    SettledRuns(h, b.end, g, TRAILER_EVENTS);
    CompletesJoin(s, front + Text(b.trailer), h, x + Events(b.trailer), b.end, g, TRAILER_EVENTS);
    assert x + Events(b.trailer) + TRAILER_EVENTS == ContentEvents(b) + [Note(MessageComplete)];
  }

  /** The empty line and a chunked body. */
  lemma ChunkedTail(c: Fields, eol: string, b: Content) returns (g: Fields)
    requires Inv(c) && c.errno == OK && c.state == Header(HeaderFieldStart) && Plainly(c)
    requires !TwoFramings(c) && IsEol(eol)
    requires ContentOk(c, b) && b.Chunked?
    ensures Completes(c, eol + ContentText(b), g, [Note(HeadersComplete)] + ContentEvents(b) + [Note(MessageComplete)])
    ensures Leaves(g, c, LastFields(c, b))
  {
    hide Inv, Runs, Completes, NextState, TwoFramings, Upgrades, LineOk, ContentText, ContentEvents, Taken, Effects,
      HttpChunked.WellFormed, HttpChunked.IsLast;
    EndRuns(c, eol);
    var s, x := To(Headed(c), BodyState(c)), [Note(HeadersComplete)];
    assert EndEvents(c) == x;
    RunsInv(c, eol, s, x);
    TrailerSame(c);
    g := ChunksTail(s, b);
    TextThere(b);
    var y := ContentEvents(b) + [Note(MessageComplete)];
    CompletesJoin(c, eol, s, x, ContentText(b), g, y);
    assert x + y == x + ContentEvents(b) + [Note(MessageComplete)];
  }

  lemma TextThere(b: Content)
    requires b.Chunked?
    ensures ContentText(b) != "" || !IsEol(b.end)
  {
  }

  lemma TrailerSame(c: Fields)
    requires FramingOf(c).Chunks?
    ensures var s := To(Headed(c), BodyState(c));
      s.flags.chunked && s.state == ChunkLine(ChunkSizeStart) && s.upgrade == Upgrades(s) == Upgrades(c) &&
      HttpChunked.InTrailer(s) == TrailerFields(c)
  {
  }

  lemma ContentSame(c: Fields, d: Fields, b: Content)
    requires Same(c, d)
    ensures ContentOk(c, b) == ContentOk(d, b) && NextState(LastFields(c, b)) == NextState(LastFields(d, b))
    ensures LastFields(c, b).flags == LastFields(d, b).flags
  {
    hide LineOk, Taken, Effects, NextState, FramingOf, Upgrades, Same;
    SameMessage(c, d);
    if b.Chunked? {
      SameHeaded(c, d);
      SameLines(TrailerFields(c), TrailerFields(d), b.trailer);
      SameMessage(LastFields(c, b), LastFields(d, b));
    }
  }

  lemma SameHeaded(c: Fields, d: Fields)
    requires Same(c, d)
    ensures Same(TrailerFields(c), TrailerFields(d))
  {
  }

  /** A whole message, of either kind and with a body of whatever framing, is consumed to its
      last byte.  It delivers its target or its reason, its headers and its body, between one
      message_begin and one message_complete, and leaves the parser ready for the next
      message exactly if the connection persists. */
  lemma MessageRuns(f: Fields, m: Message) returns (g: Fields)
    requires Inv(f) && f.errno == OK && MessageOk(f, m)
    ensures Completes(f, TextOfMessage(m), g, EventsOfMessage(m))
    ensures Leaves(g, HeadersOf(f, m), LastFields(HeadersOf(f, m), m.content))
    ensures TextOfMessage(m) != ""
  {
    hide Inv, Runs, Completes, FrontText, FrontEvents, ContentText, ContentEvents, ContentOk, Settle, Pending,
      NextState, LastFields, FramingOf, LineOk, HeadOk, Headlined, Plainly, TwoFramings, Upgrades;
    var h := FrontRuns(f, m);
    var c, k := HeadersOf(f, m), Settle(h);
    SettledInv(h);
    SameMessage(k, c);
    ContentSame(k, c, m.content);
    if m.content.Chunked? {
      g := ChunkedTail(k, m.eol, m.content);
    } else {
      g := CountedTail(k, m.eol, m.content);
      OwnFields(k, c, m.content);
    }
    var t := m.eol + ContentText(m.content);
    var y := [Note(HeadersComplete)] + ContentEvents(m.content) + [Note(MessageComplete)];
    assert t[0] == m.eol[0] && !IsWhite(t[0]);
    SettledRuns(h, t, g, y);
    CompletesJoin(f, FrontText(m), h, FrontEvents(m), t, g, y);
  }

  lemma OwnFields(k: Fields, c: Fields, b: Content)
    ensures !b.Chunked? ==> LastFields(k, b) == k && LastFields(c, b) == c
  {
  }

  /** No cut of it changes that: every cut delivers the same. */
  lemma MessageUncut(f: Fields, m: Message)
    requires Inv(f) && f.errno == OK && MessageOk(f, m)
    ensures SameForAllCuts(f, TextOfMessage(m))
  {
    hide Inv, Bytewise, Begin, Plain, TextOfMessage, EventsOfMessage, MessageOk, HidesBadByte, SameForAllCuts;
    var g := MessageRuns(f, m);
    PlainUnhidden(f, TextOfMessage(m));
    EventsIndependence(f, TextOfMessage(m));
  }

  /** A response whose body ends with the stream delivers every byte it gets. */
  lemma OpenEndedMessage(f: Fields, m: Message, data: string) returns (g: Fields)
    requires Inv(f) && f.errno == OK && FrontOk(f, m)
    requires !TwoFramings(HeadersOf(f, m)) && FramingOf(HeadersOf(f, m)).UntilEnd?
    ensures Runs(f, FrontText(m) + (m.eol + data), g,
                 FrontEvents(m) + ([Note(HeadersComplete)] + HttpTypes.Bytes(Body, data)))
    ensures g.state == Payload(BodyIdentityEof) && g.flags == HeadersOf(f, m).flags && !Persists(HeadersOf(f, m))
  {
    hide Inv, Runs, Completes, FrontText, FrontEvents, Settle, Pending, LineOk, HeadOk, Headlined, Plainly, TwoFramings,
      Upgrades, Persists;
    var h := FrontRuns(f, m);
    var c, k := HeadersOf(f, m), Settle(h);
    SettledInv(h);
    SameMessage(k, c);
    EndRuns(k, m.eol);
    g := To(Headed(k), BodyState(k));
    NotPersisting(c);
    assert EndEvents(k) == [Note(HeadersComplete)];
    RunsInv(k, m.eol, g, [Note(HeadersComplete)]);
    OpenEndedRuns(g, data);
    var t, y := m.eol + data, [Note(HeadersComplete)] + HttpTypes.Bytes(Body, data);
    RunsJoin(k, m.eol, g, [Note(HeadersComplete)], data, g, HttpTypes.Bytes(Body, data));
    assert t[0] == m.eol[0] && !IsWhite(t[0]);
    SettledRuns(h, t, g, y);
    RunsJoin(f, FrontText(m), h, FrontEvents(m), t, g, y);
  }

  lemma NotPersisting(c: Fields)
    ensures FramingOf(c).UntilEnd? ==> !Persists(c)
  {
  }

  /** Headers with both framings, or with a second or malformed length, are refused. */
  lemma MessageRefused(f: Fields, m: Message, tail: string)
    requires Inv(f) && f.errno == OK && FrontOk(f, m) && TwoFramings(HeadersOf(f, m))
    ensures var d := FrontText(m) + (m.eol + tail);
      Single(f, d, |d|).end == Failed && Single(f, d, |d|).f.errno == UnexpectedContentLength
  {
    hide Inv, Runs, FrontText, FrontEvents, Settle, Pending, LineOk, HeadOk, Headlined, Plainly, Bytewise, Begin;
    var h := FrontRuns(f, m);
    var c, k, t := HeadersOf(f, m), Settle(h), m.eol + tail;
    SettledInv(h);
    SameMessage(k, c);
    NotTrailing(c);
    TwoFramingsRefused(k, m.eol, tail);
    assert t[0] == m.eol[0] && !IsWhite(t[0]);
    SettledFails(h, t);
    FailureJoin(f, FrontText(m), h, FrontEvents(m), t);
  }

  lemma NotTrailing(c: Fields)
    ensures Plainly(c) ==> !c.flags.trailing
  {
  }

  // ----- What the headers say

  /** The fields behind the headers in terms of the text: the version and the method or the
      code of the start line, and each flag set by a line of its kind and by no other. */
  lemma HeadersExact(f: Fields, m: Message)
    requires FrontOk(f, m)
    ensures var c, n := HeadersOf(f, m), |m.lines|;
      (c.flags.chunked <==> exists i :: 0 <= i < n && Codes(m.lines[i])) &&
      (c.flags.keepAlive <==> exists i :: 0 <= i < n && Asks(m.lines[i], HttpOptions.KEEP_ALIVE)) &&
      (c.flags.close <==> exists i :: 0 <= i < n && Asks(m.lines[i], HttpOptions.CLOSE)) &&
      (c.flags.connectionUpgrade <==> exists i :: 0 <= i < n && Asks(m.lines[i], UPGRADE)) &&
      (c.flags.upgrade <==> exists i :: 0 <= i < n && Says(m.lines[i], UPGRADE)) &&
      (c.flags.contentLength <==> exists i :: 0 <= i < n && Says(m.lines[i], CONTENT_LENGTH))
    ensures forall i :: 0 <= i < |m.lines| && Says(m.lines[i], CONTENT_LENGTH) ==>
      HeadersOf(f, m).contentLength == HttpValue.LengthOf(m.lines[i].value)
    ensures match m.head
      case Asking(l) =>
        HeadersOf(f, m).meth == l.meth &&
        (l.version.Some? ==>
          HeadersOf(f, m).major == Digit(l.version.value.0) && HeadersOf(f, m).minor == Digit(l.version.value.1))
      case Answering(l) =>
        HeadersOf(f, m).statusCode == Decimal(l.code) &&
        HeadersOf(f, m).major == Digit(l.major) && HeadersOf(f, m).minor == Digit(l.minor)
  {
    hide Decimal, Codes, Asks, Says, HttpValue.LengthOf, Effects, IsTarget, UPGRADE, CONTENT_LENGTH;
    var c := Headlined(f, m.head);
    assert c.flags == NO_FLAGS;
    forall i | 0 <= i < |m.lines| ensures m.lines[i].name != "" {
      NameThere(m.lines[i], f.lenient);
    }
    EffectsExact(c, m.lines);
    EffectsKeep(c, m.lines);
  }

  // ----- Pipelined messages

  /** All that the next message depends on. */
  predicate Alike(f: Fields, g: Fields) { Same(f.(contentLength := 0), g.(contentLength := 0)) && f.state == g.state }

  /** The fields a message leaves behind. */
  ghost function Behind(f: Fields, m: Message): Fields
    requires HeadOk(f, m.head)
  {
    var c := HeadersOf(f, m);
    var e := LastFields(c, m.content);
    f.(state := NextState(e), flags := e.flags, upgrade := Upgrades(c), meth := c.meth, major := c.major,
       minor := c.minor, statusCode := c.statusCode)
  }

  /** Messages on one connection: each is good behind the one before it, and all but the last
      leave the connection open and in HTTP. */
  ghost predicate StreamOk(f: Fields, ms: seq<Message>)
    decreases |ms|
  {
    ms != [] ==>
      MessageOk(f, ms[0]) &&
      (|ms| > 1 ==>
        !Upgrades(HeadersOf(f, ms[0])) && Persists(LastFields(HeadersOf(f, ms[0]), ms[0].content)) &&
        StreamOk(Behind(f, ms[0]), ms[1..]))
  }

  function StreamText(ms: seq<Message>): string {
    if ms == [] then "" else TextOfMessage(ms[0]) + StreamText(ms[1..])
  }

  function StreamEvents(ms: seq<Message>): seq<Event> {
    if ms == [] then [] else EventsOfMessage(ms[0]) + StreamEvents(ms[1..])
  }

  lemma AlikeHeads(f: Fields, d: Fields, h: Head)
    requires Alike(f, d)
    ensures HeadOk(f, h) == HeadOk(d, h) && (HeadOk(f, h) ==> Same(Headlined(f, h), Headlined(d, h)))
    ensures f.lenient == d.lenient && f.kind == d.kind
  {
    hide RequestLineOk, Decimal, AllSpaces, HttpLength.IsDigits, VersionOk;
  }

  lemma AlikeMessages(f: Fields, d: Fields, m: Message)
    requires Alike(f, d)
    ensures MessageOk(f, m) == MessageOk(d, m)
    ensures HeadOk(f, m.head) && HeadOk(d, m.head) ==> Same(HeadersOf(f, m), HeadersOf(d, m))
  {
    hide Same, HeadOk, Headlined, ContentOk, TwoFramings, LineOk, Taken, Effects;
    AlikeHeads(f, d, m.head);
    if HeadOk(f, m.head) {
      SameLines(Headlined(f, m.head), Headlined(d, m.head), m.lines);
      SameMessage(HeadersOf(f, m), HeadersOf(d, m));
      ContentSame(HeadersOf(f, m), HeadersOf(d, m), m.content);
    }
  }

  /** The next message finds what the stream says it does. */
  lemma AlikeBehind(f: Fields, d: Fields, m: Message, g: Fields)
    requires Alike(f, d) && MessageOk(f, m) && MessageOk(d, m) && f.errno == OK && g.errno == OK
    requires Leaves(g, HeadersOf(f, m), LastFields(HeadersOf(f, m), m.content))
    ensures Alike(g, Behind(d, m)) && Behind(d, m).errno == OK && g.upgrade == Upgrades(HeadersOf(d, m))
  {
    hide HeadOk, Headlined, ContentOk, TwoFramings, LineOk, Taken, Effects, NextState, Upgrades, LastFields;
    AlikeMessages(f, d, m);
    SameMessage(HeadersOf(f, m), HeadersOf(d, m));
    ContentSame(HeadersOf(f, m), HeadersOf(d, m), m.content);
    KindKept(d, m);
  }

  lemma KindKept(f: Fields, m: Message)
    requires HeadOk(f, m.head) && Taken(Headlined(f, m.head), m.lines)
    ensures HeadersOf(f, m).kind == f.kind && HeadersOf(f, m).lenient == f.lenient
  {
    hide HeadOk, Taken, Effects, Headlined;
    HeadlinedIs(f, m.head);
    EffectsKeep(Headlined(f, m.head), m.lines);
    EffectsLenient(Headlined(f, m.head), m.lines);
  }

  lemma CompletesOpen(f: Fields, t: string, g: Fields, x: seq<Event>)
    requires Completes(f, t, g, x) && !g.upgrade
    ensures Runs(f, t, g, x)
  {
    hide Plain, Bytewise, Begin;
  }

  /** Pipelined messages are delivered one behind the other. */
  lemma {:induction false} StreamRuns(f: Fields, d: Fields, ms: seq<Message>) returns (g: Fields)
    requires Inv(f) && f.errno == OK && Alike(f, d) && StreamOk(d, ms) && ms != []
    ensures Completes(f, StreamText(ms), g, StreamEvents(ms)) && StreamText(ms) != ""
    decreases |ms|
  {
    hide Inv, Completes, Runs, Alike, MessageOk, TextOfMessage, EventsOfMessage, Leaves, Upgrades, Persists, Behind,
      LastFields;
    var m := ms[0];
    AlikeMessages(f, d, m);
    var h := MessageRuns(f, m);
    if |ms| == 1 {
      g := h;
      assert ms[1..] == [];
      assert StreamText(ms) == TextOfMessage(m) + "" == TextOfMessage(m);
      assert StreamEvents(ms) == EventsOfMessage(m) + [] == EventsOfMessage(m);
    } else {
      HeadThere(d, m);
      StreamOpen(f, d, m, h);
      g := StreamRuns(h, Behind(d, m), ms[1..]);
      CompletesJoin(f, TextOfMessage(m), h, EventsOfMessage(m), StreamText(ms[1..]), g, StreamEvents(ms[1..]));
    }
  }

  lemma HeadThere(f: Fields, m: Message)
    requires MessageOk(f, m)
    ensures HeadOk(f, m.head)
  {
  }

  lemma StreamOpen(f: Fields, d: Fields, m: Message, h: Fields)
    requires Inv(f) && f.errno == OK && Alike(f, d) && MessageOk(f, m) && MessageOk(d, m)
    requires Completes(f, TextOfMessage(m), h, EventsOfMessage(m)) && !Upgrades(HeadersOf(d, m))
    requires Leaves(h, HeadersOf(f, m), LastFields(HeadersOf(f, m), m.content))
    ensures Runs(f, TextOfMessage(m), h, EventsOfMessage(m)) && Inv(h) && h.errno == OK && Alike(h, Behind(d, m))
  {
    hide Inv, Completes, Runs, Alike, MessageOk, TextOfMessage, EventsOfMessage, Upgrades, Behind, LastFields,
      NextState;
    AlikeMessages(f, d, m);
    HeadThere(f, m);
    HeadThere(d, m);
    SameMessage(HeadersOf(f, m), HeadersOf(d, m));
    CompletesOpen(f, TextOfMessage(m), h, EventsOfMessage(m));
    RunsInv(f, TextOfMessage(m), h, EventsOfMessage(m));
    AlikeBehind(f, d, m, h);
  }

  /** A fresh parser delivers any messages that may follow each other on a connection, for
      every cut of their text: the same events, and every byte consumed. */
  lemma StreamDelivered(kind: Kind, lenient: bool, ms: seq<Message>, pieces: seq<string>)
    requires ms != [] && StreamOk(Init(kind, lenient), ms) && Concat(pieces) == StreamText(ms) && "" !in pieces
    ensures var r := Feed(Begin(Init(kind, lenient)), pieces);
      r.m.evs == StreamEvents(ms) && r.used == |StreamText(ms)| && (r.end == More || r.end == Exited)
  {
    hide Inv, Bytewise, Begin, Plain, StreamText, StreamEvents, StreamOk, HidesBadByte, Feed, LosesTail;
    var f, t := Init(kind, lenient), StreamText(ms);
    InitInv(kind, lenient);
    var g := StreamRuns(f, f, ms);
    PlainUnhidden(f, t);
    NotFailed(f, t);
    EventsIndependence(f, t);
    assert SameResult(Feed(Begin(f), pieces), Single(f, t, |t|));
  }

  lemma NotFailed(f: Fields, t: string)
    requires Single(f, t, |t|).end != Failed
    ensures !LosesTail(f, t, |t|)
  {
    hide Bytewise, Begin;
  }

  lemma InitInv(kind: Kind, lenient: bool)
    ensures var f := Init(kind, lenient); Inv(f) && f.errno == OK && Alike(f, f)
  {
  }

  // ----- An example

  const LENGTH_LINE: Line := Line.Line("Content-Length", " ", "5", "\r\n")
  const POST: Message :=
    Message(Asking(RequestLine(3, "", "/", Some(('1', '1')), "", "\r\n")), [LENGTH_LINE], "\r\n", Data("hello"))

  lemma LengthName()
    ensures IsName("Content-Length") && Like("Content-Length", "content-length")
  {
  }

  lemma LengthLine()
    ensures LineOk(LENGTH_LINE, false) && Like(LENGTH_LINE.name, CONTENT_LENGTH)
    ensures HttpValue.Kept("5") && HttpValue.LengthOf("5") == 5
  {
    hide IsName, Like, HttpValue.Kept, HttpValue.LengthOf;
    LengthName();
    Spelled();
    HttpValue.OneDigit('5');
    assert "5" == ['5'] && LENGTH_LINE.gap == " " && LENGTH_LINE.value == "5" && LENGTH_LINE.eol == "\r\n";
  }

  lemma RootTarget()
    ensures IsTarget("/", false)
  {
    var u := HttpSplit.Url.Url("", 0, "", "/", None, None);
    assert HttpSplit.TextOf(u) == "/";
    assert HttpSplit.UrlOk(u) && Reaching(u);
  }

  /** A POST of five bytes with its length in mixed case is such a message. */
  lemma PostOk()
    ensures var f := Init(Request, false);
      MessageOk(f, POST) && FramingOf(HeadersOf(f, POST)) == Counted(5) &&
      NextState(HeadersOf(f, POST)) == Start(StartReq)
    ensures EventsOfMessage(POST) ==
      RequestEvents(POST.head.request) + (HttpTypes.Bytes(Field, "Content-Length") + HttpTypes.Bytes(Value, "5")) +
      ([Note(HeadersComplete)] + HttpTypes.Bytes(Body, "hello") + [Note(MessageComplete)])
  {
    hide LineOk, Like, HttpValue.Kept, HttpValue.LengthOf, IsTarget, LENGTH_LINE, RequestText;
    LengthLine();
    RootTarget();
    LineFields();
    var f, lines := Init(Request, false), POST.lines;
    assert lines[..0] == [] && lines == [LENGTH_LINE];
    var d := Headlined(f, POST.head);
    assert Effects(d, lines) == Effect(d, LENGTH_LINE);
    assert Taken(d, lines) by { assert Taken(d, lines[..0]) && Effects(d, lines[..0]) == d; }
    assert Events(lines) == Events(lines[..0]) + EventsOf(LENGTH_LINE) == EventsOf(LENGTH_LINE);
  }

  lemma LineFields()
    ensures LENGTH_LINE.name == "Content-Length" && LENGTH_LINE.value == "5"
  {
  }
}
