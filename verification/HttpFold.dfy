/** Header values that go on in the next line: http_parser_execute delivers all their bytes,
    but forgets what the lines before told it. */
module HttpFold {
  import opened HttpTypes
  import opened HttpStep
  import opened HttpRun
  import opened HttpCutting
  import opened HttpJoin
  import opened HttpHeader
  import opened HttpValue
  import opened HttpLine
  import HttpOptions
  import HttpLength

  lemma FoldSwitches(f: Fields, ch: char)
    requires f.state == Header(HeaderValueLws) && ValueHs(f.hs) && IsWhite(ch)
    ensures var g := To(f, Header(HeaderValueStart));
      Switch(f, ch, false) == Again(g, NOTHING) &&
      Switch(g, ch, false) ==
        if f.hs.HContentLength? then Fail(To(f, Header(HeaderValue)).(index := 0, errno := InvalidContentLength))
        else Next(Folded(f), Marking(Value))
  {
    hide IsHeaderChar;
  }

  /** The fields behind the white space that goes on with a value: an open list of options
      stays open, and all else is a value the parser does not look at. */
  function Folded(f: Fields): Fields {
    f.(state := Header(HeaderValue), index := 0,
       hs := if f.hs.MatchingConnectionTokenStart? then f.hs else General)
  }

  lemma NoActs(m: Marks, ch: char)
    ensures ApplyAct(m, NOTHING, ch) == m
  {
  }

  /** A folded length is refused; the white space of any other fold is part of the value. */
  lemma FoldExact(f: Fields, ch: char)
    requires f.state == Header(HeaderValueLws) && ValueHs(f.hs) && IsWhite(ch)
    ensures if f.hs.HContentLength?
      then Single(f, [ch], 1).end == Failed && Single(f, [ch], 1).f.errno == InvalidContentLength
      else Runs(f, [ch], Folded(f), [Byte(Value, ch)])
  {
    hide Switch, ApplyAct, Runs;
    var m := Marks(None, 0, []);
    FoldSwitches(f, ch);
    NoActs(m, ch);
    var g := To(f, Header(HeaderValueStart));
    assert RunSwitch(g, m, ch, false).f == Switch(g, ch, false).f;
    BeginMore(f, [ch]);
    SingleStep(f, [ch], 0);
    RunsByte(f, ch);
    if !f.hs.HContentLength? {
      FoldMarks(ch);
      assert RunSwitch(f, m, ch, false).m == ApplyAct(m, Marking(Value), ch);
      assert [] + [Byte(Value, ch)] == [Byte(Value, ch)];
    }
  }

  lemma FoldMarks(ch: char)
    ensures ApplyAct(Marks(None, 0, []), Marking(Value), ch) == Marks(Some(Value), 0, [])
  {
  }

  predicate Foldable(l: Line) {
    l.name != "" && l.value != "" && !IsConnection(l.name) && !Like(l.name, CONTENT_LENGTH)
  }

  /** What is left of a line behind a fold: of its effects only that of Upgrade. */
  function Remembered(f: Fields, l: Line): Fields {
    if Like(l.name, UPGRADE) then f.(flags := f.flags.(upgrade := true)) else f
  }

  lemma UnfoldedRuns(f: Fields, l: Line) returns (g: Fields)
    requires Inv(f) && f.errno == OK && f.state == Header(HeaderValueDiscardWs) && Named(f.hs, f.index, l.name)
    requires Foldable(l) && IsValue(l.value, f.lenient)
    ensures Runs(f, l.value, g, Bytes(Value, l.value)) && g.state == Header(HeaderValue) && Same(g, Remembered(f, l))
    ensures ValueHs(g.hs) && !g.hs.HContentLength? && !g.hs.MatchingConnectionTokenStart? && Inv(g) && g.errno == OK
  {
    hide Inv, Runs, Like, Named, Coding, IsValueByte;
    NameIs(f.hs, f.index, l.name);
    OneName(l.name);
    var v := l.value;
    if f.hs.HTransferEncoding? {
      g := CodingRuns(f, v);
      CodingIs(g.hs, g.index, v);
    } else {
      g := OtherRuns(f, v);
    }
    RunsInv(f, v, g, Bytes(Value, v));
  }

  /** A line that goes on in the next one: the second line's bytes belong to the value, and
      a coding that the first line named is not taken. */
  lemma FoldedLine(f: Fields, l: Line, white: char, rest: string, eol: string) returns (g: Fields)
    requires Inv(f) && f.errno == OK && f.state == Header(HeaderFieldStart) && LineOk(l, f.lenient) && Foldable(l)
    requires IsWhite(white) && (forall i :: 0 <= i < |rest| ==> IsValueByte(rest[i], f.lenient)) && IsEol(eol)
    ensures Runs(f, TextOf(l) + ([white] + rest + eol), g, EventsOf(l) + Bytes(Value, [white] + rest))
    ensures Pending(g) && Same(Settle(g), Remembered(f, l))
  {
    hide Inv, Runs, Named, IsValue, IsValueByte, AllWhite, IsName, IsEol, Like, IsConnection;
    var front, x, y := l.name + ":" + l.gap, Bytes(Field, l.name), Bytes(Value, l.value);
    NameThere(l, f.lenient);
    var h := FrontRuns(f, l.name, l.gap);
    SameFlags(f, h);
    var k := UnfoldedRuns(h, l);
    RunsJoin(f, front, h, x, l.value, k, y);
    EolRuns(k, l.eol);
    var p := To(k, Header(HeaderValueLws));
    RunsJoin(f, front + l.value, k, x + y, l.eol, p, []);
    assert front + l.value + l.eol == TextOf(l) && x + y + [] == EventsOf(l);
    RunsInv(f, TextOf(l), p, EventsOf(l));
    g := RestRuns(p, white, rest, eol);
    RunsJoin(f, TextOf(l), p, EventsOf(l), [white] + rest + eol, g, Bytes(Value, [white] + rest));
    SameRemembered(f, h, k, g, l);
  }

  lemma SameRemembered(f: Fields, h: Fields, k: Fields, g: Fields, l: Line)
    requires Same(h, f) && Same(k, Remembered(h, l)) && Same(g, k) && g.state == Header(HeaderValueLws) && g.hs.General?
    ensures Pending(g) && Same(Settle(g), Remembered(f, l))
  {
    hide Like;
  }

  /** The second line. */
  lemma RestRuns(p: Fields, white: char, rest: string, eol: string) returns (g: Fields)
    requires p.state == Header(HeaderValueLws) && ValueHs(p.hs) && !p.hs.HContentLength?
    requires !p.hs.MatchingConnectionTokenStart? && IsWhite(white) && IsEol(eol)
    requires forall i :: 0 <= i < |rest| ==> IsValueByte(rest[i], p.lenient)
    requires Inv(p) && p.errno == OK
    ensures Runs(p, [white] + rest + eol, g, Bytes(Value, [white] + rest))
    ensures Same(g, p) && g.state == Header(HeaderValueLws) && g.hs.General?
  {
    hide Inv, Runs, IsValueByte, IsEol, ValueHs;
    var h := Folded(p);
    FoldExact(p, white);
    RunsInv(p, [white], h, [Byte(Value, white)]);
    GeneralRuns(h, rest);
    assert Bytes(Value, [white]) == [Byte(Value, white)];
    HttpOptions.JoinValues(p, [white], h, rest, h);
    EolRuns(h, eol);
    g := To(h, Header(HeaderValueLws));
    RunsJoin(p, [white] + rest, h, Bytes(Value, [white] + rest), eol, g, []);
    var y := Bytes(Value, [white] + rest);
    assert y + [] == y;
  }

  /** A length that goes on in the next line is refused there. */
  lemma FoldedLength(f: Fields, l: Line, white: char, tail: string)
    requires Inv(f) && f.errno == OK && f.state == Header(HeaderFieldStart) && LineOk(l, f.lenient)
    requires l.value != "" && Like(l.name, CONTENT_LENGTH) && Refusal(f, l).None? && IsWhite(white)
    ensures var d := TextOf(l) + [white] + tail;
      Single(f, d, |d|).end == Failed && Single(f, d, |d|).f.errno == InvalidContentLength
  {
    hide Inv, Runs, Named, IsValue, AllWhite, IsName, IsEol, Like, Kept, LengthOf, Switch, Bytewise, Begin;
    var front, x, v := l.name + ":" + l.gap, Bytes(Field, l.name), l.value;
    NameThere(l, f.lenient);
    var h := FrontRuns(f, l.name, l.gap);
    SameFlags(f, h);
    NameIs(h.hs, h.index, l.name);
    KeptFirst(v);
    LengthRuns(h, v);
    var k := HttpLength.Reading(h, LengthOf(v));
    RunsJoin(f, front, h, x, v, k, Bytes(Value, v));
    RunsInv(f, front + v, k, x + Bytes(Value, v));
    EolRuns(k, l.eol);
    var p := To(k, Header(HeaderValueLws));
    RunsJoin(f, front + v, k, x + Bytes(Value, v), l.eol, p, []);
    assert front + v + l.eol == TextOf(l);
    FoldFails(p, white);
    FailedBehind(f, TextOf(l), p, x + Bytes(Value, v) + [], [white], tail);
  }

  lemma FoldFails(p: Fields, white: char)
    requires p.state == Header(HeaderValueLws) && p.hs.HContentLength? && IsWhite(white)
    ensures Single(p, [white], 1).end == Failed && Single(p, [white], 1).f.errno == InvalidContentLength
  {
    FoldExact(p, white);
  }

  lemma FailedBehind(f: Fields, s: string, g: Fields, x: seq<Event>, t: string, tail: string)
    requires Inv(f) && f.errno == OK && Runs(f, s, g, x) && |t| == 1 && Single(g, t, 1).end == Failed
    ensures var d := s + t + tail; Single(f, d, |d|).end == Failed && Single(f, d, |d|).f == Single(g, t, 1).f
  {
    hide Inv, Bytewise, Begin;
    var d := s + t + tail;
    SingleJoin(f, s, t, 1);
    assert d[..|s| + 1] == (s + t)[..|s| + 1];
    SinglePrefix(f, d, s + t, |s| + 1);
    SingleStopped(f, d, |s| + 1, |d|);
  }
}
