/** Chunked transfer coding (section 4.1 of RFC 7230): what a chunked body is
    encoded as is what the parser delivers, however the stream is cut. */
module HttpChunked {
  import opened HttpTypes
  import opened HttpStep
  import opened HttpRun
  import opened HttpCutting

  // ----- The encoder

  function HexValue(s: string): nat {
    if s == "" || Unhex(s[|s| - 1]) < 0 then 0 else 16 * HexValue(s[..|s| - 1]) + Unhex(s[|s| - 1])
  }

  predicate IsHex(s: string) { s != "" && forall i :: 0 <= i < |s| ==> Unhex(s[i]) >= 0 }

  /** Chunk extensions: nothing, or something that starts with ';' or ' '. */
  predicate IsParameters(s: string) {
    s == "" || ((s[0] == ';' || s[0] == ' ') && forall i :: 0 <= i < |s| ==> s[i] != '\r')
  }

  /** A size line in any hexadecimal spelling, with extensions, and the data it announces. */
  datatype Chunk = Chunk(size: string, parameters: string, data: string)

  /** 2^64 - 16 is the least size the overflow check refuses. */
  const SIZE_LIMIT: nat := U64 - 16

  predicate WellFormed(c: Chunk) {
    IsHex(c.size) && HexValue(c.size) == |c.data| && 0 < |c.data| < SIZE_LIMIT && IsParameters(c.parameters)
  }

  predicate IsLast(c: Chunk) {
    IsHex(c.size) && HexValue(c.size) == 0 && IsParameters(c.parameters) && c.data == ""
  }

  function EncodeOne(c: Chunk): string { c.size + c.parameters + "\r\n" + c.data + "\r\n" }

  function Encode(chunks: seq<Chunk>): string {
    if chunks == [] then "" else Encode(chunks[..|chunks| - 1]) + EncodeOne(chunks[|chunks| - 1])
  }

  function EventsOf(chunks: seq<Chunk>): seq<Event> {
    if chunks == [] then [] else
      EventsOf(chunks[..|chunks| - 1]) +
      [Note(ChunkHeader)] + Bytes(Body, chunks[|chunks| - 1].data) + [Note(ChunkComplete)]
  }

  const LAST_EVENTS: seq<Event> := [Note(ChunkHeader), Note(ChunkComplete), Note(MessageComplete)]

  // ----- Stepping through a stream

  /** The byte-by-byte run is at byte p in fields g, and never was in a header value. */
  ghost predicate Reaches(f: Fields, d: string, p: nat, g: Fields, evs: seq<Event>) {
    p <= |d| && Single(f, d, p).end == More && Single(f, d, p).f == g && Single(f, d, p).m.evs == evs &&
    forall i :: 0 <= i <= p ==> !InGeneral(Single(f, d, i).f)
  }

  function After(g: Fields, a: Act, ch: char, evs: seq<Event>): seq<Event> {
    EndByte(ApplyAct(Marks(InitialMark(g.state), 0, evs), a, ch), ch).evs
  }

  lemma OneStep(f: Fields, d: string, p: nat, g: Fields, evs: seq<Event>, h: Fields, a: Act)
    requires p < |d| && Reaches(f, d, p, g, evs) && Switch(g, d[p], false) == Next(h, a) && !InGeneral(h)
    ensures Reaches(f, d, p + 1, h, After(g, a, d[p], evs))
  {
    hide Switch, ApplyAct, InitialMark, InGeneral, Bytewise, Begin;
    SingleStep(f, d, p);
  }

  /** The states of chunked framing, in none of which a piece starts with a mark. */
  predicate Framing(g: Fields) {
    g.state.ChunkLine? || g.state.Payload? || g.state.HeadersEnd? || g.state == Header(HeaderFieldStart)
  }

  lemma QuietStep(f: Fields, d: string, p: nat, g: Fields, evs: seq<Event>, h: Fields)
    requires p < |d| && Reaches(f, d, p, g, evs) && Framing(g) && Framing(h)
    requires Switch(g, d[p], false) == Next(h, NOTHING) || Switch(g, d[p], false) == Next(h, Flushing(Body))
    ensures Reaches(f, d, p + 1, h, evs)
  {
    hide Switch, Reaches;
    OneStep(f, d, p, g, evs, h, Switch(g, d[p], false).act);
  }

  lemma NoteStep(f: Fields, d: string, p: nat, g: Fields, evs: seq<Event>, h: Fields, n: Notice)
    requires p < |d| && Reaches(f, d, p, g, evs) && Framing(g) && Framing(h)
    requires Switch(g, d[p], false) == Next(h, ResetNotifying(n))
    ensures Reaches(f, d, p + 1, h, evs + [Note(n)])
  {
    hide Switch, Reaches;
    OneStep(f, d, p, g, evs, h, ResetNotifying(n));
  }

  lemma BodyStep(f: Fields, d: string, p: nat, g: Fields, evs: seq<Event>, h: Fields)
    requires p < |d| && Reaches(f, d, p, g, evs) && Framing(g) && Framing(h)
    requires Switch(g, d[p], false) == Next(h, Marking(Body))
    ensures Reaches(f, d, p + 1, h, evs + [Byte(Body, d[p])])
  {
    hide Switch, Reaches;
    OneStep(f, d, p, g, evs, h, Marking(Body));
  }

  // ----- Size lines

  lemma FirstDigit(size: string)
    requires IsHex(size)
    ensures HexValue(size[..1]) == Unhex(size[0]) >= 0
  {
    assert size[..1][..0] == "";
  }

  lemma NextDigit(s: string, k: nat)
    requires IsHex(s) && 1 < k <= |s|
    ensures HexValue(s[..k]) == 16 * HexValue(s[..k - 1]) + Unhex(s[k - 1]) && 0 <= Unhex(s[k - 1]) < 16
  {
    assert s[..k][..k - 1] == s[..k - 1];
  }

  /** The fields while a chunk's size line is read. */
  function Line(g: Fields, s: ChunkLineState, n: nat): Fields { g.(state := ChunkLine(s), contentLength := n) }

  lemma FirstDigitSwitch(g: Fields, ch: char)
    requires g.flags.chunked && g.state == ChunkLine(ChunkSizeStart) && Unhex(ch) >= 0
    ensures Switch(g, ch, false) == Next(Line(g, ChunkSize, Unhex(ch)), NOTHING)
  {
  }

  /** Another digit is accepted exactly while the value stays below 2^64 - 16. */
  lemma NextDigitSwitch(g: Fields, n: nat, ch: char)
    requires g.flags.chunked && Unhex(ch) >= 0
    ensures 16 * n + Unhex(ch) < SIZE_LIMIT ==>
      Switch(Line(g, ChunkSize, n), ch, false) == Next(Line(g, ChunkSize, 16 * n + Unhex(ch)), NOTHING)
    ensures 16 * n + Unhex(ch) >= SIZE_LIMIT ==>
      Switch(Line(g, ChunkSize, n), ch, false) == Fail(Line(g, ChunkSize, n).(errno := InvalidContentLength))
  {
    assert Unhex(ch) < 16;
    if 16 * n + Unhex(ch) < SIZE_LIMIT {
      assert (16 * n + Unhex(ch)) % U64 == 16 * n + Unhex(ch);
    }
  }

  /** The digits of a size line. */
  lemma {:induction false} SizeDigits(f: Fields, d: string, p: nat, g: Fields, evs: seq<Event>, size: string, k: nat)
    requires Reaches(f, d, p, g, evs) && g.state == ChunkLine(ChunkSizeStart) && g.flags.chunked
    requires IsHex(size) && 0 < k <= |size| && HexValue(size[..k]) < SIZE_LIMIT
    requires p + |size| <= |d| && d[p..p + |size|] == size
    ensures Reaches(f, d, p + k, Line(g, ChunkSize, HexValue(size[..k])), evs)
  {
    hide Reaches, Switch, HexValue;
    assert d[p + k - 1] == size[k - 1];
    if k == 1 {
      FirstDigit(size);
      FirstDigitSwitch(g, d[p]);
      QuietStep(f, d, p, g, evs, Line(g, ChunkSize, HexValue(size[..1])));
    } else {
      var n := HexValue(size[..k - 1]);
      NextDigit(size, k);
      SizeDigits(f, d, p, g, evs, size, k - 1);
      NextDigitSwitch(g, n, size[k - 1]);
      QuietStep(f, d, p + k - 1, Line(g, ChunkSize, n), evs, Line(g, ChunkSize, HexValue(size[..k])));
    }
  }

  /** A size the parser cannot hold is refused before its line ends. */
  lemma {:induction false} SizeRefused(f: Fields, d: string, p: nat, g: Fields, evs: seq<Event>, size: string, k: nat)
    requires Reaches(f, d, p, g, evs) && g.state == ChunkLine(ChunkSizeStart) && g.flags.chunked
    requires IsHex(size) && 0 < k <= |size| && HexValue(size[..k]) >= SIZE_LIMIT
    requires p + |size| <= |d| && d[p..p + |size|] == size
    ensures Single(f, d, p + k).end == Failed && Single(f, d, p + k).f.errno == InvalidContentLength
  {
    hide Switch, HexValue, Bytewise, Reaches;
    assert d[p + k - 1] == size[k - 1];
    if k == 1 {
      FirstDigit(size);
    } else {
      var n := HexValue(size[..k - 1]);
      NextDigit(size, k);
      if n >= SIZE_LIMIT {
        SizeRefused(f, d, p, g, evs, size, k - 1);
        SingleStopped(f, d, p + k - 1, p + k);
      } else {
        SizeDigits(f, d, p, g, evs, size, k - 1);
        NextDigitSwitch(g, n, size[k - 1]);
        FailStep(f, d, p + k - 1, Line(g, ChunkSize, n), evs);
      }
    }
  }

  lemma FailStep(f: Fields, d: string, p: nat, g: Fields, evs: seq<Event>)
    requires p < |d| && Reaches(f, d, p, g, evs) && Switch(g, d[p], false).Fail?
    ensures Single(f, d, p + 1).end == Failed && Single(f, d, p + 1).f == Switch(g, d[p], false).f
  {
    hide Switch, InGeneral, Bytewise, Begin, InitialMark;
    SingleStep(f, d, p);
  }

  // ----- The rest of a chunk

  lemma ParameterSwitch(g: Fields, n: nat, s: ChunkLineState, ch: char)
    requires g.flags.chunked && (s.ChunkParameters? || (s.ChunkSize? && (ch == ';' || ch == ' ' || ch == '\r')))
    ensures Switch(Line(g, s, n), ch, false) ==
      Next(Line(g, if ch == '\r' then ChunkSizeAlmostDone else ChunkParameters, n), NOTHING)
  {
  }

  lemma {:induction false} Parameters(f: Fields, d: string, p: nat, g: Fields, n: nat, evs: seq<Event>, s: string,
                                      k: nat)
    requires Reaches(f, d, p, Line(g, ChunkSize, n), evs) && g.flags.chunked
    requires IsParameters(s) && k <= |s| && p + |s| <= |d| && d[p..p + |s|] == s
    ensures Reaches(f, d, p + k, Line(g, if k == 0 then ChunkSize else ChunkParameters, n), evs)
  {
    hide Reaches, Switch;
    if k > 0 {
      var line := if k == 1 then ChunkSize else ChunkParameters;
      Parameters(f, d, p, g, n, evs, s, k - 1);
      assert d[p + k - 1] == s[k - 1];
      ParameterSwitch(g, n, line, s[k - 1]);
      QuietStep(f, d, p + k - 1, Line(g, line, n), evs, Line(g, ChunkParameters, n));
    }
  }

  lemma Sub(d: string, p: nat, s: string, i: nat, j: nat)
    requires p + |s| <= |d| && d[p..p + |s|] == s && i <= j <= |s|
    ensures d[p + i..p + j] == s[i..j] && (j < |s| ==> d[p + j] == s[j])
  {
    var t := d[p..p + |s|];
    assert forall k :: i <= k < j ==> d[p + k] == t[k];
    if j < |s| {
      assert d[p + j] == t[j];
    }
  }

  /** A whole size line but its LF. */
  lemma SizeLine(f: Fields, d: string, p: nat, g: Fields, evs: seq<Event>, size: string, parameters: string)
    requires Reaches(f, d, p, g, evs) && g.state == ChunkLine(ChunkSizeStart) && g.flags.chunked
    requires IsHex(size) && HexValue(size) < SIZE_LIMIT && IsParameters(parameters)
    requires var line := size + parameters + "\r"; p + |line| <= |d| && d[p..p + |line|] == line
    ensures Reaches(f, d, p + |size| + |parameters| + 1, Line(g, ChunkSizeAlmostDone, HexValue(size)), evs)
  {
    hide Reaches, Switch, HexValue, IsHex, IsParameters;
    var line := size + parameters + "\r";
    var n, q := HexValue(size), p + |size|;
    var e := q + |parameters|;
    LineText(size, parameters);
    Sub(d, p, line, 0, |size|);
    Sub(d, p, line, |size|, |size| + |parameters|);
    NonEmpty(size);
    SizeDigits(f, d, p, g, evs, size, |size|);
    Parameters(f, d, q, g, n, evs, parameters, |parameters|);
    var s := if parameters == "" then ChunkSize else ChunkParameters;
    ParameterSwitch(g, n, s, '\r');
    QuietStep(f, d, e, Line(g, s, n), evs, Line(g, ChunkSizeAlmostDone, n));
  }

  lemma LineText(size: string, parameters: string)
    ensures var line := size + parameters + "\r";
      line[..|size|] == size && line[|size|..|size| + |parameters|] == parameters && line[|size| + |parameters|] == '\r'
  {
  }

  lemma NonEmpty(size: string)
    requires IsHex(size)
    ensures |size| > 0 && size[..|size|] == size
  {
  }

  function Inside(g: Fields, left: nat): Fields {
    g.(state := Payload(if left == 0 then ChunkDataAlmostDone else ChunkData), contentLength := left)
  }

  lemma ChunkSwitches(g: Fields, left: nat, ch: char)
    requires g.flags.chunked && 0 < left < SIZE_LIMIT
    ensures Switch(Line(g, ChunkSizeAlmostDone, left), '\n', false) == Next(Inside(g, left), ResetNotifying(ChunkHeader))
    ensures Switch(Inside(g, left), ch, false) == Next(Inside(g, left - 1), Marking(Body))
    ensures var done := Inside(g, 0).(state := Payload(ChunkDataDone));
      Switch(Inside(g, 0), '\r', false) == Next(done, Flushing(Body)) &&
      Switch(done, '\n', false) == Next(Line(g, ChunkSizeStart, 0), ResetNotifying(ChunkComplete))
  {
  }

  lemma {:induction false} ChunkBytes(f: Fields, d: string, p: nat, g: Fields, evs: seq<Event>, data: string, k: nat)
    requires Reaches(f, d, p, Inside(g, |data|), evs) && g.flags.chunked && |data| < SIZE_LIMIT
    requires k <= |data| && p + |data| <= |d| && d[p..p + |data|] == data
    ensures Reaches(f, d, p + k, Inside(g, |data| - k), evs + Bytes(Body, data[..k]))
  {
    hide Reaches, Switch;
    if k == 0 {
      assert evs + Bytes(Body, data[..0]) == evs;
    } else {
      ChunkBytes(f, d, p, g, evs, data, k - 1);
      var left := |data| - k + 1;
      var sofar := evs + Bytes(Body, data[..k - 1]);
      assert d[p + k - 1] == data[k - 1];
      ChunkSwitches(g, left, data[k - 1]);
      BodyStep(f, d, p + k - 1, Inside(g, left), sofar, Inside(g, left - 1));
      assert sofar + [Byte(Body, data[k - 1])] == evs + Bytes(Body, data[..k]);
    }
  }

  lemma ChunkShape(c: Chunk, line: string)
    requires line == c.size + c.parameters + "\r"
    ensures var s, q, n := EncodeOne(c), |line|, |c.data|;
      |s| == q + n + 3 && s[..q] == line && s[q] == '\n' && s[q + 1..q + 1 + n] == c.data &&
      s[q + 1 + n] == '\r' && s[q + 2 + n] == '\n'
  {
    assert EncodeOne(c) == line + ("\n" + c.data + "\r\n");
  }

  lemma ChunkText(c: Chunk, d: string, p: nat)
    requires var s := EncodeOne(c); p + |s| <= |d| && d[p..p + |s|] == s
    ensures var line, n := c.size + c.parameters + "\r", |c.data|;
      var q := p + |line|;
      |EncodeOne(c)| == |line| + n + 3 &&
      d[p..q] == line && d[q] == '\n' && d[q + 1..q + 1 + n] == c.data && d[q + 1 + n] == '\r' && d[q + 2 + n] == '\n'
  {
    hide EncodeOne;
    var s, line, n := EncodeOne(c), c.size + c.parameters + "\r", |c.data|;
    var q := |line|;
    ChunkShape(c, line);
    Sub(d, p, s, 0, q);
    Sub(d, p, s, q, q);
    Sub(d, p, s, q + 1, q + 1 + n);
    Sub(d, p, s, q + 2 + n, q + 2 + n);
  }

  /** One whole chunk delivers its data between its two notifications. */
  lemma OneChunk(f: Fields, d: string, p: nat, g: Fields, evs: seq<Event>, c: Chunk)
    requires Reaches(f, d, p, g, evs) && g.state == ChunkLine(ChunkSizeStart) && g.flags.chunked && WellFormed(c)
    requires var s := EncodeOne(c); p + |s| <= |d| && d[p..p + |s|] == s
    ensures Reaches(f, d, p + |EncodeOne(c)|, Line(g, ChunkSizeStart, 0),
                    evs + [Note(ChunkHeader)] + Bytes(Body, c.data) + [Note(ChunkComplete)])
  {
    hide Reaches, Switch, HexValue, IsHex, IsParameters;
    var n, lf := |c.data|, |c.size| + |c.parameters| + 1;
    ChunkText(c, d, p);
    SizeLine(f, d, p, g, evs, c.size, c.parameters);
    ChunkSwitches(g, n, '\0');
    NoteStep(f, d, p + lf, Line(g, ChunkSizeAlmostDone, n), evs, Inside(g, n), ChunkHeader);
    var begun := evs + [Note(ChunkHeader)];
    ChunkBytes(f, d, p + lf + 1, g, begun, c.data, n);
    assert c.data[..n] == c.data;
    var filled := begun + Bytes(Body, c.data);
    var done := Inside(g, 0).(state := Payload(ChunkDataDone));
    QuietStep(f, d, p + lf + 1 + n, Inside(g, 0), filled, done);
    NoteStep(f, d, p + lf + 2 + n, done, filled, Line(g, ChunkSizeStart, 0), ChunkComplete);
  }

  lemma {:induction false} ManyChunks(f: Fields, d: string, chunks: seq<Chunk>)
    requires f.state == ChunkLine(ChunkSizeStart) && f.flags.chunked
    requires (forall c :: c in chunks ==> WellFormed(c)) && Encode(chunks) <= d
    ensures Reaches(f, d, |Encode(chunks)|, if chunks == [] then f else Line(f, ChunkSizeStart, 0), EventsOf(chunks))
  {
    hide Switch, WellFormed, EncodeOne, Bytes, StepRun;
    if chunks != [] {
      hide Reaches;
      var init, c := chunks[..|chunks| - 1], chunks[|chunks| - 1];
      var p := |Encode(init)|;
      assert Encode(init) == Encode(chunks)[..p] <= d;
      assert d[p..p + |EncodeOne(c)|] == Encode(chunks)[p..] == EncodeOne(c);
      ManyChunks(f, d, init);
      OneChunk(f, d, p, if init == [] then f else Line(f, ChunkSizeStart, 0), EventsOf(init), c);
    }
  }

  // ----- The last chunk and the round trip

  /** A chunked body up to its trailer. */
  function Framed(chunks: seq<Chunk>, last: Chunk): string { Encode(chunks) + last.size + last.parameters + "\r\n" }

  /** A whole chunked body without trailer fields. */
  function Coded(chunks: seq<Chunk>, last: Chunk): string { Framed(chunks, last) + "\r\n" }

  /** The fields behind the last size line, where the trailer begins. */
  function InTrailer(f: Fields): Fields {
    f.(flags := f.flags.(trailing := true), contentLength := 0, state := Header(HeaderFieldStart))
  }

  /** The fields once a chunked message is over. */
  function Ended(f: Fields): Fields {
    var g := f.(flags := f.flags.(trailing := true), contentLength := 0);
    g.(state := NewMessage(g))
  }

  lemma LastSwitches(g: Fields)
    requires g.flags.chunked
    ensures var t := g.(flags := g.flags.(trailing := true), contentLength := 0);
      var h, e := To(t, Header(HeaderFieldStart)), To(t, HeadersEnd(HeadersAlmostDone));
      Switch(Line(g, ChunkSizeAlmostDone, 0), '\n', false) == Next(h, ResetNotifying(ChunkHeader)) &&
      Switch(h, '\r', false) == Next(e, NOTHING) &&
      Switch(e, '\n', false) == Again(To(t, Payload(MessageDone)), Notifying(ChunkComplete)) &&
      Switch(To(t, Payload(MessageDone)), '\n', false) ==
        if g.upgrade then Exit(Ended(g), Notifying(MessageComplete)) else Next(Ended(g), Notifying(MessageComplete))
  {
    hide NewMessage;
    var t := g.(flags := g.flags.(trailing := true), contentLength := 0);
    SameStart(t);
  }

  lemma SameStart(t: Fields)
    ensures NewMessage(To(t, Payload(MessageDone))) == NewMessage(t)
    ensures NewMessage(t).Start?
  {
  }

  lemma LastStep(f: Fields, d: string, p: nat, g: Fields, evs: seq<Event>, t: Fields)
    requires p < |d| && Reaches(f, d, p, g, evs) && g.state == HeadersEnd(HeadersAlmostDone)
    requires Switch(g, d[p], false) == Again(To(g, Payload(MessageDone)), Notifying(ChunkComplete))
    requires Switch(To(g, Payload(MessageDone)), d[p], false) ==
      if g.upgrade then Exit(t, Notifying(MessageComplete)) else Next(t, Notifying(MessageComplete))
    ensures var r := Single(f, d, p + 1);
      r.f == t && r.m.evs == evs + [Note(ChunkComplete), Note(MessageComplete)] &&
      r.used == p + 1 && r.end == if g.upgrade then Exited else More
  {
    hide Switch, InGeneral, Bytewise, Begin;
    SingleUsed(f, d, p);
    SingleStep(f, d, p);
    var m := Marks(None, 0, evs);
    var h := To(g, Payload(MessageDone));
    var m1 := ApplyAct(m, Notifying(ChunkComplete), d[p]);
    assert RunSwitch(h, m1, d[p], false).m == ApplyAct(m1, Notifying(MessageComplete), d[p]);
  }

  /** The byte that could be hidden from the header check is never met. */
  lemma ReachesUnhidden(f: Fields, d: string, p: nat, g: Fields, evs: seq<Event>)
    requires Reaches(f, d, p, g, evs) && p + 1 == |d|
    ensures !HidesBadByte(f, d)
  {
    hide InGeneral, Bytewise;
  }

  lemma ReachesPlain(f: Fields, d: string, p: nat, g: Fields, evs: seq<Event>)
    requires Reaches(f, d, p, g, evs)
    ensures forall i :: 0 <= i <= p ==> !InGeneral(Single(f, d, i).f)
  {
    hide InGeneral, Bytewise;
  }

  lemma FramedText(chunks: seq<Chunk>, last: Chunk, d: string)
    requires Framed(chunks, last) <= d
    ensures var p, line := |Encode(chunks)|, last.size + last.parameters + "\r";
      var q := p + |line|;
      |Framed(chunks, last)| == q + 1 && Encode(chunks) <= d && d[p..q] == line && d[q] == '\n'
  {
    hide Encode;
    var e, line := Encode(chunks), last.size + last.parameters + "\r";
    var t := Framed(chunks, last);
    assert t == e + line + "\n";
    assert t == d[..|t|] && e == t[..|e|] && line == t[|e|..|e| + |line|];
  }

  /** Any chunks and the last size line are read up to the trailer. */
  lemma ChunksRead(f: Fields, d: string, chunks: seq<Chunk>, last: Chunk)
    requires f.state == ChunkLine(ChunkSizeStart) && f.flags.chunked && Framed(chunks, last) <= d
    requires (forall c :: c in chunks ==> WellFormed(c)) && IsLast(last)
    ensures Reaches(f, d, |Framed(chunks, last)|, InTrailer(f), EventsOf(chunks) + [Note(ChunkHeader)])
  {
    hide Switch, Reaches, HexValue, IsHex, IsParameters, Encode, EventsOf, Framed;
    var p, lf := |Encode(chunks)|, |last.size| + |last.parameters| + 1;
    FramedText(chunks, last, d);
    ManyChunks(f, d, chunks);
    var g, evs := if chunks == [] then f else Line(f, ChunkSizeStart, 0), EventsOf(chunks);
    SizeLine(f, d, p, g, evs, last.size, last.parameters);
    LastSwitches(g);
    NoteStep(f, d, p + lf, Line(g, ChunkSizeAlmostDone, 0), evs, InTrailer(f), ChunkHeader);
  }

  /** What a chunked body is encoded as is what the parser delivers: the run over the
      encoding consumes all of it, delivers every chunk's bytes in order, completes the
      message exactly once, and starts afresh; no cut of it can change that. */
  lemma ChunkedRoundTrip(f: Fields, chunks: seq<Chunk>, last: Chunk)
    requires Inv(f) && f.errno == OK && f.state == ChunkLine(ChunkSizeStart)
    requires (forall c :: c in chunks ==> WellFormed(c)) && IsLast(last)
    ensures var d := Coded(chunks, last);
      var r := Single(f, d, |d|);
      r.f == Ended(f) && r.used == |d| && r.m.evs == EventsOf(chunks) + LAST_EVENTS &&
      r.end == (if f.upgrade then Exited else More) && CutFree(f, d)
  {
    hide Switch, Reaches, Framed, EventsOf, CutFree, HidesBadByte, Bytewise, Begin, NewMessage, IsLast, WellFormed;
    var d, p := Coded(chunks, last), |Framed(chunks, last)|;
    assert d[p] == '\r' && d[p + 1] == '\n' && |d| == p + 2;
    ChunksRead(f, d, chunks, last);
    LastSwitches(f);
    var h, evs := InTrailer(f), EventsOf(chunks) + [Note(ChunkHeader)];
    var e := To(h, HeadersEnd(HeadersAlmostDone));
    QuietStep(f, d, p, h, evs, e);
    ReachesUnhidden(f, d, p + 1, e, evs);
    LastStep(f, d, p + 1, e, evs, Ended(f));
    assert evs + [Note(ChunkComplete), Note(MessageComplete)] == EventsOf(chunks) + LAST_EVENTS;
    CuttingIndependence(f, d);
  }

  // ----- What the application has received

  /** The body bytes among events. */
  function BodyOf(evs: seq<Event>): string {
    if evs == [] then "" else
      var e := evs[|evs| - 1];
      BodyOf(evs[..|evs| - 1]) + if e.Byte? && e.k == Body then [e.b] else ""
  }

  function Times(evs: seq<Event>, n: Notice): nat {
    if evs == [] then 0 else Times(evs[..|evs| - 1], n) + if evs[|evs| - 1] == Note(n) then 1 else 0
  }

  function DataOf(chunks: seq<Chunk>): string {
    if chunks == [] then "" else DataOf(chunks[..|chunks| - 1]) + chunks[|chunks| - 1].data
  }

  lemma {:induction false} BodyOfJoin(x: seq<Event>, y: seq<Event>, n: Notice)
    ensures BodyOf(x + y) == BodyOf(x) + BodyOf(y) && Times(x + y, n) == Times(x, n) + Times(y, n)
    decreases |y|
  {
    if y == [] {
      assert x + y == x;
    } else {
      assert (x + y)[..|x + y| - 1] == x + y[..|y| - 1];
      BodyOfJoin(x, y[..|y| - 1], n);
    }
  }

  lemma {:induction false} BodyOfBytes(s: string, n: Notice)
    ensures BodyOf(Bytes(Body, s)) == s && Times(Bytes(Body, s), n) == 0
  {
    if s != "" {
      var t := s[..|s| - 1];
      BodyOfBytes(t, n);
      assert Bytes(Body, s)[..|s| - 1] == Bytes(Body, t);
    }
  }

  lemma OneNote(e: Event, n: Notice)
    requires e.Note?
    ensures BodyOf([e]) == "" && Times([e], n) == if e == Note(n) then 1 else 0
  {
  }

  lemma OneChunkBody(init: seq<Event>, data: string, n: Notice)
    ensures var evs := init + [Note(ChunkHeader)] + Bytes(Body, data) + [Note(ChunkComplete)];
      BodyOf(evs) == BodyOf(init) + data &&
      Times(evs, n) == Times(init, n) + if n == ChunkHeader || n == ChunkComplete then 1 else 0
  {
    hide BodyOf, Times, Bytes;
    BodyOfBytes(data, n);
    BodyOfJoin(init, [Note(ChunkHeader)], n);
    BodyOfJoin(init + [Note(ChunkHeader)], Bytes(Body, data), n);
    BodyOfJoin(init + [Note(ChunkHeader)] + Bytes(Body, data), [Note(ChunkComplete)], n);
    OneNote(Note(ChunkHeader), n);
    OneNote(Note(ChunkComplete), n);
    var a, b := BodyOf(init), BodyOf([Note(ChunkHeader)]);
    assert a + b == a && a + data + "" == a + data;
  }

  lemma {:induction false} BodyOfEvents(chunks: seq<Chunk>, n: Notice)
    ensures BodyOf(EventsOf(chunks)) == DataOf(chunks)
    ensures Times(EventsOf(chunks), n) == if n == ChunkHeader || n == ChunkComplete then |chunks| else 0
  {
    hide BodyOf, Times, Bytes;
    if chunks == [] {
      BodyOfNone(n);
    } else {
      BodyOfEvents(chunks[..|chunks| - 1], n);
      OneChunkBody(EventsOf(chunks[..|chunks| - 1]), chunks[|chunks| - 1].data, n);
    }
  }

  lemma BodyOfNone(n: Notice)
    ensures BodyOf([]) == "" && Times([], n) == 0
  {
  }

  lemma LastEvents()
    ensures BodyOf(LAST_EVENTS) == "" && Times(LAST_EVENTS, MessageComplete) == 1
  {
    hide BodyOf, Times;
    var e := LAST_EVENTS;
    assert e == [e[0]] + [e[1]] + [e[2]];
    BodyOfJoin([e[0]], [e[1]], MessageComplete);
    BodyOfJoin([e[0]] + [e[1]], [e[2]], MessageComplete);
    OneNote(e[0], MessageComplete);
    OneNote(e[1], MessageComplete);
    OneNote(e[2], MessageComplete);
  }

  /** Every cut of a chunked body delivers exactly the concatenated data and one
      message_complete. */
  lemma ChunkedBody(f: Fields, chunks: seq<Chunk>, last: Chunk, pieces: seq<string>)
    requires Inv(f) && f.errno == OK && f.state == ChunkLine(ChunkSizeStart)
    requires (forall c :: c in chunks ==> WellFormed(c)) && IsLast(last)
    requires Concat(pieces) == Coded(chunks, last) && "" !in pieces
    ensures var r := Feed(Begin(f), pieces);
      BodyOf(r.m.evs) == DataOf(chunks) && Times(r.m.evs, MessageComplete) == 1 && r.used == |Concat(pieces)|
  {
    hide WellFormed, IsLast, Coded, Feed, Begin, Inv, EventsOf, DataOf, Bytewise, Ended;
    ChunkedRoundTrip(f, chunks, last);
    BodyOfEvents(chunks, MessageComplete);
    BodyOfJoin(EventsOf(chunks), LAST_EVENTS, MessageComplete);
    LastEvents();
  }
}
