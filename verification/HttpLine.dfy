/** Header lines and header blocks of http_parser_execute: the fields they end in, told
    from their text. */
module HttpLine {
  import opened HttpTypes
  import opened HttpStep
  import opened HttpRun
  import opened HttpCutting
  import opened HttpJoin
  import opened HttpHeader
  import opened HttpLength
  import opened HttpValue
  import opened HttpOptions

  /** A header line in any spelling; `gap` is the white space in front of the value. */
  datatype Line = Line(name: string, gap: string, value: string, eol: string)

  predicate IsWhite(ch: char) { ch == ' ' || ch == '\t' }
  predicate AllWhite(s: string) { forall i :: 0 <= i < |s| ==> IsWhite(s[i]) }
  predicate IsEol(s: string) { s == "\r\n" || s == "\n" }

  predicate LineOk(l: Line, lenient: bool) {
    IsName(l.name) && AllWhite(l.gap) && IsValue(l.value, lenient) && IsEol(l.eol)
  }

  function TextOf(l: Line): string { l.name + ":" + l.gap + l.value + l.eol }
  function EventsOf(l: Line): seq<Event> { Bytes(Field, l.name) + Bytes(Value, l.value) }

  predicate IsConnection(name: string) { Like(name, CONNECTION) || Like(name, PROXY_CONNECTION) }

  /** What a header line changes. */
  function Effect(c: Fields, l: Line): Fields {
    if l.value == "" then c
    else if Like(l.name, CONTENT_LENGTH)
    then c.(flags := c.flags.(contentLength := true), contentLength := LengthOf(l.value))
    else if Like(l.name, TRANSFER_ENCODING)
    then c.(flags := c.flags.(chunked := c.flags.chunked || Names(l.value, CHUNKED)))
    else if IsConnection(l.name) then WithOptions(c, ItemsOf(l.value))
    else if Like(l.name, UPGRADE) then c.(flags := c.flags.(upgrade := true))
    else c
  }

  /** Why a header line is refused. */
  function Refusal(c: Fields, l: Line): Option<Errno> {
    if Like(l.name, CONTENT_LENGTH) then LengthRefusal(c, l.value) else None
  }

  // ----- Name, colon and gap

  lemma ColonRuns(f: Fields)
    requires f.state == Header(HeaderField)
    ensures Runs(f, ":", To(f, Header(HeaderValueDiscardWs)), [])
  {
    hide Runs;
    RunsQuiet(f, ':', To(f, Header(HeaderValueDiscardWs)));
  }

  lemma NoEvents()
    ensures var none: seq<Event> := []; none + none == none
  {
  }

  lemma {:induction false} GapRuns(f: Fields, s: string)
    requires Inv(f) && f.errno == OK && f.state == Header(HeaderValueDiscardWs) && AllWhite(s)
    ensures Runs(f, s, f, [])
    decreases |s|
  {
    hide Inv, Runs;
    if s == "" {
      RunsNothing(f);
    } else {
      var k := |s| - 1;
      GapRuns(f, s[..k]);
      RunsQuiet(f, s[k], f);
      RunsJoin(f, s[..k], f, [], [s[k]], f, []);
      assert s == s[..k] + [s[k]];
      NoEvents();
    }
  }

  /** A name with its colon and gap. */
  lemma FrontRuns(f: Fields, name: string, gap: string) returns (g: Fields)
    requires Inv(f) && f.errno == OK && f.state == Header(HeaderFieldStart) && IsName(name) && AllWhite(gap)
    ensures Runs(f, name + ":" + gap, g, Bytes(Field, name)) && g.state == Header(HeaderValueDiscardWs)
    ensures Core(g) == Core(f) && Named(g.hs, g.index, name) && Inv(g) && g.errno == OK
  {
    hide Inv, Runs, Named, IsName, AllWhite;
    var h := NameRuns(f, name);
    g := To(h, Header(HeaderValueDiscardWs));
    ColonRuns(h);
    RunsJoin(f, name, h, Bytes(Field, name), ":", g, []);
    assert Bytes(Field, name) + [] == Bytes(Field, name);
    RunsInv(f, name + ":", g, Bytes(Field, name));
    GapRuns(g, gap);
    RunsJoin(f, name + ":", g, Bytes(Field, name), gap, g, []);
  }

  // ----- Values

  predicate Same(f: Fields, g: Fields) { Core(f) == Core(g) }

  /** The name the matcher has found. */
  lemma NameIs(hs: HeaderState, index: nat, name: string)
    requires name != "" && Named(hs, index, name)
    ensures Like(name, CONTENT_LENGTH) <==> hs.HContentLength?
    ensures Like(name, TRANSFER_ENCODING) <==> hs.HTransferEncoding?
    ensures IsConnection(name) <==> hs.HConnection?
    ensures Like(name, UPGRADE) <==> hs.HUpgrade?
    ensures FieldHs(hs)
  {
    hide Begins, CONNECTION, PROXY_CONNECTION, CONTENT_LENGTH, TRANSFER_ENCODING, UPGRADE;
    FirstChars();
    Apart(name);
  }

  lemma OtherStart(f: Fields, ch: char)
    requires FieldHs(f.hs) && !f.hs.HConnection? && !f.hs.HContentLength? && !f.hs.HTransferEncoding?
    ensures var s := ValueStart(f, ch);
      s.Next? && s.act == Marking(Value) && InGeneralValue(s.f) && s.f.lenient == f.lenient &&
      Same(s.f, if f.hs.HUpgrade? then f.(flags := f.flags.(upgrade := true)) else f)
  {
    hide Lower;
  }

  /** A value behind a name that makes the parser look at none of its bytes. */
  lemma OtherRuns(f: Fields, v: string) returns (g: Fields)
    requires Inv(f) && f.errno == OK && f.state == Header(HeaderValueDiscardWs) && FieldHs(f.hs)
    requires !f.hs.HConnection? && !f.hs.HContentLength? && !f.hs.HTransferEncoding?
    requires v != "" && IsValue(v, f.lenient)
    ensures Runs(f, v, g, Bytes(Value, v)) && InGeneralValue(g)
    ensures Same(g, if f.hs.HUpgrade? then f.(flags := f.flags.(upgrade := true)) else f)
  {
    hide Inv, Runs, IsValueByte, ValueStart, InGeneral, Core, FieldHs;
    var first, rest := [v[0]], v[1..];
    OtherStart(f, v[0]);
    g := ValueStart(f, v[0]).f;
    FirstByteRuns(f, v[0], g);
    assert Bytes(Value, first) == [Byte(Value, v[0])];
    RunsInv(f, first, g, Bytes(Value, first));
    assert forall i :: 0 <= i < |rest| ==> rest[i] == v[i + 1];
    GeneralRuns(g, rest);
    JoinValues(f, first, g, rest, g);
    assert v == first + rest;
  }

  lemma CodingIs(hs: HeaderState, index: nat, v: string)
    requires Coding(hs, index, v)
    ensures hs.TransferEncodingChunked? <==> Names(v, CHUNKED)
    ensures hs.TransferEncodingChunked? || hs.MatchingTransferEncodingChunked? || hs.General?
  {
    hide Begins, Names, CHUNKED;
    NamesLong(v, CHUNKED);
  }

  lemma CodingFinished(f: Fields, g: Fields, v: string)
    requires Same(g, f) && Coding(g.hs, g.index, v)
    ensures Same(Finished(g), f.(flags := f.flags.(chunked := f.flags.chunked || Names(v, CHUNKED))))
  {
    hide Names, Coding;
    CodingIs(g.hs, g.index, v);
    SameFlags(f, g);
  }

  lemma SameFlags(f: Fields, g: Fields)
    requires Same(f, g)
    ensures f.flags == g.flags && f.lenient == g.lenient
  {
  }

  lemma ValueRuns(f: Fields, l: Line) returns (g: Fields)
    requires Inv(f) && f.errno == OK && f.state == Header(HeaderValueDiscardWs) && Named(f.hs, f.index, l.name)
    requires l.name != "" && l.value != "" && IsValue(l.value, f.lenient) && Refusal(f, l).None?
    ensures Runs(f, l.value, g, Bytes(Value, l.value)) && g.state == Header(HeaderValue)
    ensures Same(Finished(g), Effect(f, l)) && Inv(g) && g.errno == OK
  {
    hide Inv, Runs, Like, Named, Coding, WithOptions, Kept, LengthOf, IsValueByte, Token, Lower;
    NameIs(f.hs, f.index, l.name);
    var v := l.value;
    if f.hs.HContentLength? {
      KeptFirst(v);
      LengthRuns(f, v);
      g := Reading(f, LengthOf(v));
    } else if f.hs.HTransferEncoding? {
      g := CodingRuns(f, v);
      CodingFinished(f, g, v);
    } else if f.hs.HConnection? {
      g := ListRuns(f, v);
    } else {
      g := OtherRuns(f, v);
    }
    RunsInv(f, v, g, Bytes(Value, v));
  }

  lemma KeptFirst(v: string)
    ensures Kept(v) ==> v != "" && IsNum(v[0])
  {
  }

  // ----- Line ends

  /** A header line is over; only the next byte tells whether the value goes on. */
  predicate Pending(f: Fields) { f.state == Header(HeaderValueLws) || f.state == Header(HeaderValueDiscardLws) }

  /** The fields once the next byte begins another line. */
  function Settle(f: Fields): Fields { if Pending(f) then To(Finished(f), Header(HeaderFieldStart)) else f }

  lemma ValueEnds(f: Fields)
    requires f.state == Header(HeaderValue)
    ensures Runs(f, "\n", To(f, Header(HeaderValueLws)), [])
    ensures Runs(f, "\r", To(f, Header(HeaderAlmostDone)), [])
    ensures Runs(To(f, Header(HeaderAlmostDone)), "\n", To(f, Header(HeaderValueLws)), [])
  {
    hide Runs, ValueByte;
    assert IsHeaderChar('\r') && IsHeaderChar('\n');
    RunsQuiet(f, '\r', To(f, Header(HeaderAlmostDone)));
    RunsQuiet(To(f, Header(HeaderAlmostDone)), '\n', To(f, Header(HeaderValueLws)));
    RunsByte(f, '\n');
  }

  lemma NoValueEnds(f: Fields)
    requires f.state == Header(HeaderValueDiscardWs)
    ensures Runs(f, "\n", To(f, Header(HeaderValueDiscardLws)), [])
    ensures Runs(f, "\r", To(f, Header(HeaderValueDiscardWsAlmostDone)), [])
    ensures Runs(To(f, Header(HeaderValueDiscardWsAlmostDone)), "\n", To(f, Header(HeaderValueDiscardLws)), [])
  {
    hide Runs;
    RunsQuiet(f, '\r', To(f, Header(HeaderValueDiscardWsAlmostDone)));
    RunsQuiet(f, '\n', To(f, Header(HeaderValueDiscardLws)));
    RunsQuiet(To(f, Header(HeaderValueDiscardWsAlmostDone)), '\n', To(f, Header(HeaderValueDiscardLws)));
  }

  lemma EolRuns(f: Fields, eol: string)
    requires Inv(f) && f.errno == OK && (f.state == Header(HeaderValue) || f.state == Header(HeaderValueDiscardWs))
    requires IsEol(eol)
    ensures var s := if f.state == Header(HeaderValue) then HeaderValueLws else HeaderValueDiscardLws;
      Runs(f, eol, To(f, Header(s)), [])
  {
    hide Inv, Runs;
    var value := f.state == Header(HeaderValue);
    if value { ValueEnds(f); } else { NoValueEnds(f); }
    if eol != "\n" {
      RunsJoin(f, "\r", To(f, Header(if value then HeaderAlmostDone else HeaderValueDiscardWsAlmostDone)), [],
               "\n", To(f, Header(if value then HeaderValueLws else HeaderValueDiscardLws)), []);
      assert "\r" + "\n" == eol;
      NoEvents();
    }
  }

  // ----- Whole lines

  lemma NothingFinished(f: Fields)
    requires FieldHs(f.hs)
    ensures Finished(f) == f
  {
  }

  /** A header line delivers its name and its value and ends in the fields its text says. */
  lemma LineRuns(f: Fields, l: Line) returns (g: Fields)
    requires Inv(f) && f.errno == OK && f.state == Header(HeaderFieldStart) && LineOk(l, f.lenient)
    requires Refusal(f, l).None?
    ensures Runs(f, TextOf(l), g, EventsOf(l)) && Pending(g) && Same(Settle(g), Effect(f, l))
  {
    hide Inv, Runs, Named, Finished, Effect, Refusal, IsValue, AllWhite, IsName, IsEol;
    var front := l.name + ":" + l.gap;
    var h := FrontRuns(f, l.name, l.gap);
    NameThere(l, f.lenient);
    SameLine(f, h, l);
    var x, y := Bytes(Field, l.name), Bytes(Value, l.value);
    NameIs(h.hs, h.index, l.name);
    if l.value == "" {
      EolRuns(h, l.eol);
      g := To(h, Header(HeaderValueDiscardLws));
      RunsJoin(f, front, h, x, l.eol, g, []);
      assert front + l.eol == TextOf(l) && x + [] == x == EventsOf(l);
      NothingFinished(g);
      NoEffect(f, l);
    } else {
      var k := ValueRuns(h, l);
      RunsJoin(f, front, h, x, l.value, k, y);
      EolRuns(k, l.eol);
      g := To(k, Header(HeaderValueLws));
      RunsJoin(f, front + l.value, k, x + y, l.eol, g, []);
      assert front + l.value + l.eol == TextOf(l) && x + y + [] == x + y;
      FinishedState(k);
    }
  }

  lemma FinishedState(k: Fields)
    ensures Same(Finished(To(k, Header(HeaderValueLws))), Finished(k))
  {
  }

  lemma NoEffect(f: Fields, l: Line)
    ensures l.value == "" ==> Effect(f, l) == f
  {
  }

  lemma NameThere(l: Line, lenient: bool)
    requires LineOk(l, lenient)
    ensures l.name != "" && IsName(l.name) && AllWhite(l.gap) && IsValue(l.value, lenient) && IsEol(l.eol)
  {
  }

  /** Only what outlasts a line matters. */
  lemma SameLine(f: Fields, h: Fields, l: Line)
    requires Same(f, h)
    ensures Same(Effect(f, l), Effect(h, l)) && Refusal(f, l) == Refusal(h, l) && f.lenient == h.lenient
  {
    hide Like, Names, Lists, Kept, LengthOf, ItemsOf;
  }

  // ----- The byte behind a line

  /** A byte that continues no value finds the fields settled. */
  lemma SettleChain(f: Fields, ch: char)
    requires Pending(f) && !IsWhite(ch)
    ensures var m := Marks(None, 0, []);
      var c, d := RunSwitch(f, m, ch, false), RunSwitch(Settle(f), m, ch, false);
      c.f == d.f && c.m == d.m && c.end == d.end
  {
    hide FieldSwitch, HeadersEndSwitch, Finished;
    var m := Marks(None, 0, []);
    PendingSwitch(f, ch);
    assert ApplyAct(m, Switch(f, ch, false).act, ch) == m;
  }

  lemma PendingSwitch(f: Fields, ch: char)
    requires Pending(f) && !IsWhite(ch)
    ensures var s := Switch(f, ch, false);
      s.Again? && s.f == Settle(f) && (s.act == NOTHING || s.act == Act(Some(Value), Some(Value), false, false, None))
  {
    hide Finished;
  }

  lemma SettleStep(f: Fields, t: string)
    requires Pending(f) && t != "" && !IsWhite(t[0])
    ensures Single(f, t, 1) == Single(Settle(f), t, 1)
    ensures !InGeneral(f) && !InGeneral(Settle(f))
  {
    hide RunSwitch, Finished;
    BeginMore(f, t);
    BeginMore(Settle(f), t);
    SingleStep(f, t, 0);
    SingleStep(Settle(f), t, 0);
    SettleChain(f, t[0]);
  }

  lemma {:induction false} SettleSingle(f: Fields, t: string, n: nat)
    requires Pending(f) && 0 < n <= |t| && !IsWhite(t[0])
    ensures Single(f, t, n) == Single(Settle(f), t, n)
  {
    hide StepRun, Cut, Begin, Settle, Pending, Bytewise;
    if n == 1 {
      SettleStep(f, t);
    } else {
      SettleSingle(f, t, n - 1);
      SingleStep(f, t, n - 1);
      SingleStep(Settle(f), t, n - 1);
    }
  }

  lemma SettlePlain(f: Fields, t: string)
    requires Pending(f) && t != "" && !IsWhite(t[0]) && Plain(Settle(f), t)
    ensures Plain(f, t)
  {
    hide Bytewise, Begin, InGeneral, Settle, Pending;
    SettleStep(f, t);
    BeginMore(f, t);
    BeginMore(Settle(f), t);
    forall i | 0 <= i < |t| ensures Passes(Single(f, t, i).f, t[i]) {
      assert Passes(Single(Settle(f), t, i).f, t[i]);
      if i > 0 {
        SettleSingle(f, t, i);
      } else {
        BeginFields(f);
      }
    }
  }

  /** Behind a header line the run goes on from the settled fields. */
  lemma SettledRuns(f: Fields, t: string, h: Fields, y: seq<Event>)
    requires t != "" && !IsWhite(t[0])
    ensures Runs(Settle(f), t, h, y) ==> Runs(f, t, h, y)
    ensures Completes(Settle(f), t, h, y) ==> Completes(f, t, h, y)
  {
    hide Bytewise, Begin, Plain, Pending;
    if Pending(f) {
      SettleSingle(f, t, |t|);
      if Plain(Settle(f), t) {
        SettlePlain(f, t);
      }
    }
  }

  lemma SettledInv(f: Fields)
    requires Inv(f) && f.errno == OK
    ensures Inv(Settle(f)) && Settle(f).errno == OK && (Pending(f) ==> Settle(f).state == Header(HeaderFieldStart))
  {
  }

  // ----- Header blocks

  function Text(lines: seq<Line>): string {
    if lines == [] then "" else Text(lines[..|lines| - 1]) + TextOf(lines[|lines| - 1])
  }

  function Events(lines: seq<Line>): seq<Event> {
    if lines == [] then [] else Events(lines[..|lines| - 1]) + EventsOf(lines[|lines| - 1])
  }

  function Effects(c: Fields, lines: seq<Line>): Fields {
    if lines == [] then c else Effect(Effects(c, lines[..|lines| - 1]), lines[|lines| - 1])
  }

  /** No line is refused behind the ones before it. */
  predicate Taken(c: Fields, lines: seq<Line>) {
    lines == [] ||
    (Taken(c, lines[..|lines| - 1]) && Refusal(Effects(c, lines[..|lines| - 1]), lines[|lines| - 1]).None?)
  }

  lemma LineStarts(l: Line, lenient: bool)
    requires LineOk(l, lenient)
    ensures TextOf(l) != "" && !IsWhite(TextOf(l)[0])
  {
    NoSpace(l.name[0]);
  }

  /** A header block delivers its names and values and ends in the fields its lines say. */
  lemma {:induction false} LinesRun(f: Fields, lines: seq<Line>) returns (g: Fields)
    requires Inv(f) && f.errno == OK && f.state == Header(HeaderFieldStart) && Taken(f, lines)
    requires forall i :: 0 <= i < |lines| ==> LineOk(lines[i], f.lenient)
    ensures Runs(f, Text(lines), g, Events(lines)) && Inv(g) && g.errno == OK
    ensures Same(Settle(g), Effects(f, lines)) && Settle(g).state == Header(HeaderFieldStart)
    decreases |lines|
  {
    hide Inv, Runs, LineOk, Effect, Refusal, TextOf, EventsOf, Pending, Settle, Core, Completes;
    if lines == [] {
      RunsNothing(f);
      g := f;
      FieldStartSettled(f);
    } else {
      var k := |lines| - 1;
      var l := lines[k];
      var h := LinesRun(f, lines[..k]);
      SettledInv(h);
      SameLine(Effects(f, lines[..k]), Settle(h), l);
      EffectsLenient(f, lines[..k]);
      g := LineRuns(Settle(h), l);
      LineStarts(l, f.lenient);
      SettledRuns(h, TextOf(l), g, EventsOf(l));
      RunsJoin(f, Text(lines[..k]), h, Events(lines[..k]), TextOf(l), g, EventsOf(l));
      RunsInv(f, Text(lines), g, Events(lines));
      SettledInv(g);
    }
  }

  lemma FieldStartSettled(f: Fields)
    ensures f.state == Header(HeaderFieldStart) ==> Settle(f) == f
  {
  }

  lemma {:induction false} EffectsLenient(f: Fields, lines: seq<Line>)
    ensures var c := Effects(f, lines); c.lenient == f.lenient && c.errno == f.errno && c.state == f.state
    decreases |lines|
  {
    hide Like, Names, Lists, ItemsOf, LengthOf;
    if lines != [] {
      EffectsLenient(f, lines[..|lines| - 1]);
    }
  }

  /** A refused line stops the run with its reason. */
  lemma LineFails(f: Fields, l: Line, tail: string)
    requires Inv(f) && f.errno == OK && f.state == Header(HeaderFieldStart) && LineOk(l, f.lenient)
    requires Refusal(f, l).Some?
    ensures var d := TextOf(l) + tail; var r := Single(f, d, |d|); r.end == Failed && Some(r.f.errno) == Refusal(f, l)
  {
    hide Inv, Runs, Named, IsValue, AllWhite, IsName, IsEol, Bytewise, Begin, LengthRefusal, Core, Switch, TextOf,
      LineOk;
    var front, v := l.name + ":" + l.gap, l.value;
    NameThere(l, f.lenient);
    var h := FrontRuns(f, l.name, l.gap);
    NameIs(h.hs, h.index, l.name);
    SameLine(f, h, l);
    var k, g, e := LengthFails(h, v);
    RunsJoin(f, front, h, Bytes(Field, l.name), v[..k], g, Bytes(Value, v[..k]));
    FailsBehind(f, front + v[..k], g, Bytes(Field, l.name) + Bytes(Value, v[..k]), v[k], e, v[k + 1..] + l.eol + tail);
    LineText(l, k, tail);
  }

  lemma LineText(l: Line, k: nat, tail: string)
    requires k < |l.value|
    ensures var v := l.value;
      l.name + ":" + l.gap + v[..k] + [v[k]] + (v[k + 1..] + l.eol + tail) == TextOf(l) + tail
  {
    var v, a := l.value, l.name + ":" + l.gap;
    assert v == v[..k] + [v[k]] + v[k + 1..];
    assert a + v + l.eol == TextOf(l);
  }

  /** A header block with a refused line. */
  lemma LinesFail(f: Fields, lines: seq<Line>, l: Line, tail: string)
    requires Inv(f) && f.errno == OK && f.state == Header(HeaderFieldStart) && Taken(f, lines)
    requires forall i :: 0 <= i < |lines| ==> LineOk(lines[i], f.lenient)
    requires LineOk(l, f.lenient) && Refusal(Effects(f, lines), l).Some?
    ensures var d := Text(lines) + (TextOf(l) + tail);
      var r := Single(f, d, |d|); r.end == Failed && Some(r.f.errno) == Refusal(Effects(f, lines), l)
  {
    hide Inv, Runs, LineOk, Effect, Refusal, TextOf, EventsOf, Pending, Settle, Core, Bytewise, Begin;
    var g := LinesRun(f, lines);
    var t := TextOf(l) + tail;
    SettledInv(g);
    EffectsLenient(f, lines);
    SameLine(Effects(f, lines), Settle(g), l);
    LineFails(Settle(g), l, tail);
    LineStarts(l, f.lenient);
    SettledFails(g, t);
    FailureJoin(f, Text(lines), g, Events(lines), t);
  }

  lemma SettledFails(f: Fields, t: string)
    requires t != "" && !IsWhite(t[0])
    ensures Single(f, t, |t|) == Single(Settle(f), t, |t|)
  {
    hide Bytewise, Begin;
    if Pending(f) { SettleSingle(f, t, |t|); }
  }

  lemma FailureJoin(f: Fields, s: string, g: Fields, x: seq<Event>, t: string)
    requires Inv(f) && f.errno == OK && Runs(f, s, g, x) && Single(g, t, |t|).end == Failed && t != ""
    ensures var d := s + t; Single(f, d, |d|).end == Failed && Single(f, d, |d|).f == Single(g, t, |t|).f
  {
    hide Inv, Bytewise, Begin;
    SingleJoin(f, s, t, |t|);
  }

  // ----- Which lines set what

  /** The value of a line with that name. */
  predicate Says(l: Line, name: string) { l.value != "" && Like(l.name, name) }

  predicate Codes(l: Line) { Says(l, TRANSFER_ENCODING) && Names(l.value, CHUNKED) }

  predicate Asks(l: Line, option: string) { l.value != "" && IsConnection(l.name) && Lists(ItemsOf(l.value), option) }

  /** A line of each kind sets its flag, and no other line does. */
  predicate SetBy(c: Fields, lines: seq<Line>, e: Fields) {
    && (e.flags.chunked <==> c.flags.chunked || exists i :: 0 <= i < |lines| && Codes(lines[i]))
    && (e.flags.keepAlive <==> c.flags.keepAlive || exists i :: 0 <= i < |lines| && Asks(lines[i], KEEP_ALIVE))
    && (e.flags.close <==> c.flags.close || exists i :: 0 <= i < |lines| && Asks(lines[i], CLOSE))
    && (e.flags.connectionUpgrade <==>
        (c.flags.connectionUpgrade || exists i :: 0 <= i < |lines| && Asks(lines[i], UPGRADE)))
    && (e.flags.upgrade <==> c.flags.upgrade || exists i :: 0 <= i < |lines| && Says(lines[i], UPGRADE))
    && (e.flags.contentLength <==>
        (c.flags.contentLength || exists i :: 0 <= i < |lines| && Says(lines[i], CONTENT_LENGTH)))
  }

  lemma OneEffect(c: Fields, l: Line)
    requires l.name != ""
    ensures var e := Effect(c, l);
      (e.flags.chunked <==> c.flags.chunked || Codes(l)) &&
      (e.flags.keepAlive <==> c.flags.keepAlive || Asks(l, KEEP_ALIVE)) &&
      (e.flags.close <==> c.flags.close || Asks(l, CLOSE)) &&
      (e.flags.connectionUpgrade <==> c.flags.connectionUpgrade || Asks(l, UPGRADE)) &&
      (e.flags.upgrade <==> c.flags.upgrade || Says(l, UPGRADE)) &&
      (e.flags.contentLength <==> c.flags.contentLength || Says(l, CONTENT_LENGTH)) &&
      e.contentLength == if Says(l, CONTENT_LENGTH) then LengthOf(l.value) else c.contentLength
  {
    hide Like, IsConnection, Names, Lists, ItemsOf, LengthOf, CONTENT_LENGTH, TRANSFER_ENCODING, UPGRADE, KEEP_ALIVE,
      CLOSE, CHUNKED;
    OneName(l.name);
  }

  lemma OneName(name: string)
    requires name != ""
    ensures IsConnection(name) ==> !Like(name, CONTENT_LENGTH) && !Like(name, TRANSFER_ENCODING) && !Like(name, UPGRADE)
    ensures Like(name, CONTENT_LENGTH) ==> !Like(name, TRANSFER_ENCODING) && !Like(name, UPGRADE)
    ensures Like(name, TRANSFER_ENCODING) ==> !Like(name, UPGRADE)
  {
    hide Begins, CONNECTION, PROXY_CONNECTION, CONTENT_LENGTH, TRANSFER_ENCODING, UPGRADE;
    FirstChars();
    Apart(name);
  }

  /** Which lines of a block set the flags, and the length. */
  lemma {:induction false} EffectsExact(c: Fields, lines: seq<Line>)
    requires forall i :: 0 <= i < |lines| ==> lines[i].name != ""
    ensures SetBy(c, lines, Effects(c, lines))
    ensures Taken(c, lines) ==>
      forall i :: 0 <= i < |lines| && Says(lines[i], CONTENT_LENGTH) ==>
        !c.flags.contentLength && Effects(c, lines).contentLength == LengthOf(lines[i].value) &&
        forall j :: 0 <= j < |lines| && Says(lines[j], CONTENT_LENGTH) ==> i == j
    ensures (forall i :: 0 <= i < |lines| ==> !Says(lines[i], CONTENT_LENGTH)) ==>
      Effects(c, lines).contentLength == c.contentLength
    decreases |lines|
  {
    hide Effect, Says, Codes, Asks, LengthOf;
    if lines != [] {
      var k := |lines| - 1;
      var init, l := lines[..k], lines[k];
      EffectsExact(c, init);
      var d := Effects(c, init);
      OneEffect(d, l);
      SecondRefused(d, l);
      assert forall i :: 0 <= i < k ==> lines[i] == init[i];
    }
  }

  lemma SecondRefused(c: Fields, l: Line)
    ensures c.flags.contentLength && Says(l, CONTENT_LENGTH) ==> Refusal(c, l).Some?
  {
    KeptFirst(l.value);
  }
}
