/** Start lines of http_parser_execute: what a request line and a status line deliver and
    which fields they end in, told from their text. */
module HttpStart {
  import opened HttpTypes
  import opened HttpStep
  import opened HttpRun
  import opened HttpCutting
  import opened HttpJoin
  import opened HttpHeader
  import HttpMethod
  import HttpUrl
  import HttpSplit
  import HttpConnect
  import HttpLine
  import opened HttpValue
  import HttpLength

  // ----- One more byte behind a run

  lemma QuietMore(f: Fields, s: string, g: Fields, x: seq<Event>, ch: char, h: Fields)
    requires Inv(f) && f.errno == OK && Runs(f, s, g, x) && Passes(g, ch)
    requires var m := Switch(g, ch, false);
      m.Next? && m.f == h && m.act.note.None? && !m.act.plus && m.act.mark.None? &&
      (InitialMark(g.state).None? || m.act.flush == InitialMark(g.state))
    ensures Runs(f, s + [ch], h, x)
  {
    hide Inv, Runs, Switch, InitialMark, Passes;
    RunsQuiet(g, ch, h);
    RunsJoin(f, s, g, x, [ch], h, []);
    assert x + [] == x;
  }

  lemma DataMore(f: Fields, s: string, g: Fields, x: seq<Event>, ch: char, h: Fields, k: DataKind)
    requires Inv(f) && f.errno == OK && Runs(f, s, g, x) && Passes(g, ch)
    requires (Switch(g, ch, false) == Next(h, NOTHING) && InitialMark(g.state) == Some(k)) ||
      (Switch(g, ch, false) == Next(h, Marking(k)) && InitialMark(g.state).None?)
    ensures Runs(f, s + [ch], h, x + [Byte(k, ch)])
  {
    hide Inv, Runs, Switch, InitialMark, Passes;
    RunsData(g, ch, h, k);
    RunsJoin(f, s, g, x, [ch], h, [Byte(k, ch)]);
  }

  predicate AllSpaces(s: string) { forall i :: 0 <= i < |s| ==> s[i] == ' ' }

  /** States in which spaces are skipped. */
  predicate SkipsSpaces(s: State) {
    s == Target(ReqSpacesBeforeUrl) || s == Version(ReqHttpStart) || s == StatusLine(ResFirstStatusCode)
  }

  lemma SpaceStays(f: Fields)
    requires SkipsSpaces(f.state)
    ensures Switch(f, ' ', false) == Stay(f) && InitialMark(f.state).None? && !InGeneral(f)
  {
  }

  lemma {:induction false} SpacesMore(f: Fields, t: string, g: Fields, x: seq<Event>, s: string)
    requires Inv(f) && f.errno == OK && Runs(f, t, g, x) && SkipsSpaces(g.state) && AllSpaces(s)
    ensures Runs(f, t + s, g, x)
    decreases |s|
  {
    hide Inv, Runs, Switch, SkipsSpaces, InGeneral;
    if s == "" {
      assert t + s == t;
    } else {
      var k := |s| - 1;
      SpacesMore(f, t, g, x, s[..k]);
      SpaceStays(g);
      QuietMore(f, t + s[..k], g, x, ' ', g);
      assert t + s[..k] + [' '] == t + s;
    }
  }

  // ----- Methods

  /** The fields while the method is read. */
  predicate Begun(f: Fields, g: Fields) {
    g == Fresh(f).(state := g.state, meth := g.meth, index := g.index)
  }

  lemma MethodMoves(g: Fields, ch: char)
    requires g.state == Method
    ensures var s := Switch(g, ch, false);
      s.Fail? || s.Abort? ||
      (s.Next? && s.act == NOTHING && s.f == g.(state := s.f.state, meth := s.f.meth, index := s.f.index))
    ensures !InGeneral(g) && InitialMark(g.state).None?
  {
    hide MethodName, Reguess;
  }

  lemma FirstMoves(f: Fields, ch: char)
    requires f.state == Start(StartReq)
    ensures var s := Switch(f, ch, false);
      s.Fail? || s == Stay(f) || (s.Next? && s.act == Notifying(MessageBegin) && Begun(f, s.f))
    ensures !InGeneral(f) && InitialMark(f.state).None?
  {
    hide FirstMethod;
  }

  lemma SingleMore(f: Fields, d: string, k: nat, g: Fields)
    requires k < |d| && Single(f, d, k).end == More && Single(f, d, k).f == g && Single(f, d, k + 1).end == More
    ensures !Switch(g, d[k], false).Fail? && !Switch(g, d[k], false).Abort?
  {
    hide Switch, InitialMark, Bytewise, Begin, InGeneral;
    SingleStep(f, d, k);
  }

  /** The name of a method is read with one notification. */
  lemma {:induction false} NameRuns(f: Fields, d: string, k: nat) returns (g: Fields)
    requires Inv(f) && f.errno == OK && f.state == Start(StartReq) && 0 < k <= |d| && !IsLineEnd(d[0])
    requires Single(f, d, k).end == More && HttpMethod.InMethod(f, d, k)
    ensures Runs(f, d[..k], g, [Note(MessageBegin)]) && Begun(f, g) && g == Single(f, d, k).f
    decreases k
  {
    hide Inv, Bytewise, Switch, Begin, Runs, InGeneral, InitialMark;
    var ch := d[k - 1];
    if k == 1 {
      BeginMore(f, d);
      BeginFields(f);
      SingleMore(f, d, 0, f);
      FirstMoves(f, ch);
      NotStay(f, ch);
      g := Switch(f, ch, false).f;
      BeginRuns(f, ch, g);
      assert d[..1] == [ch];
    } else {
      var h := NameRuns(f, d, k - 1);
      SingleMore(f, d, k - 1, h);
      MethodMoves(h, ch);
      g := Switch(h, ch, false).f;
      QuietMore(f, d[..k - 1], h, [Note(MessageBegin)], ch, g);
      assert d[..k] == d[..k - 1] + [ch];
    }
    RunsSingle(f, d, k, g, [Note(MessageBegin)]);
  }

  lemma RunsSingle(f: Fields, d: string, k: nat, g: Fields, x: seq<Event>)
    requires k <= |d| && Runs(f, d[..k], g, x)
    ensures Single(f, d, k).f == g
  {
    hide Bytewise, Begin, Plain;
    assert d[..k][..k] == d[..k];
    SinglePrefix(f, d, d[..k], k);
  }

  lemma NotStay(f: Fields, ch: char)
    requires f.state == Start(StartReq) && !IsLineEnd(ch)
    ensures Switch(f, ch, false) != Stay(f)
  {
  }

  lemma BeginRuns(f: Fields, ch: char, g: Fields)
    requires f.state.Start? && Switch(f, ch, false) == Next(g, Notifying(MessageBegin))
    ensures Runs(f, [ch], g, [Note(MessageBegin)])
  {
    hide Switch, Runs;
    RunsByte(f, ch);
    var none: seq<Event> := [];
    assert none + [Note(MessageBegin)] == [Note(MessageBegin)];
  }

  lemma MethodRuns(f: Fields, m: nat) returns (g: Fields)
    requires Inv(f) && f.errno == OK && f.state == Start(StartReq) && m < METHOD_COUNT
    ensures Runs(f, MethodName(m) + " ", g, [Note(MessageBegin)]) && Begun(f, g)
    ensures g.state == Target(ReqSpacesBeforeUrl) && g.meth == m
  {
    hide Inv, Bytewise, Runs, Begun, MethodName, Begin;
    var d := MethodName(m) + " ";
    HttpMethod.NameChars(m, 0);
    assert d[..|d|] == d && d[0] == MethodName(m)[0];
    HttpMethod.Found(f, d, m);
    g := NameRuns(f, d, |d|);
  }

  // ----- Targets

  /** The text of a target: a URL, and for CONNECT what may follow "://" in one. */
  function InUrl(t: string, connect: bool): string { if connect then "a://" + t else t }

  predicate Reaching(u: HttpSplit.Url) { u.server != "" || u.path != "" || u.query.Some? }

  ghost predicate IsTarget(t: string, connect: bool) {
    t != "" && exists u :: HttpSplit.UrlOk(u) && HttpSplit.TextOf(u) == InUrl(t, connect) && Reaching(u)
  }

  /** The states in which a space or a line end may follow the target. */
  predicate MayEnd(s: TargetState) {
    s.ReqServer? || s.ReqServerWithAt? || s.ReqPath? || s.ReqQueryStringStart? || s.ReqQueryString? ||
    s.ReqFragmentStart? || s.ReqFragment?
  }

  /** The state behind some bytes of a target. */
  function After(t: string, connect: bool, n: nat): Option<TargetState>
    requires n <= |t|
  {
    var r := HttpUrl.Scan(t, connect, n);
    if r.None? then None else Some(r.value.s)
  }

  lemma AfterStep(t: string, connect: bool, n: nat)
    requires n < |t|
    ensures After(t, connect, n + 1) ==
      if After(t, connect, n).None? then None else ParseUrlChar(After(t, connect, n).value, t[n])
  {
    hide ParseUrlChar;
  }

  lemma AfterNothing(t: string, connect: bool)
    ensures After(t, connect, 0) == Some(if connect then ReqServerStart else ReqSpacesBeforeUrl)
  {
  }

  lemma {:induction false} AfterConnect(t: string, n: nat)
    requires n <= |t|
    ensures After(t, true, n) == After("a://" + t, false, n + 4)
  {
    hide ParseUrlChar, After;
    var d := "a://" + t;
    if n == 0 {
      AfterNothing(t, true);
      Scheme(d);
    } else {
      AfterConnect(t, n - 1);
      AfterStep(t, true, n - 1);
      AfterStep(d, false, n + 3);
      assert d[n + 3] == t[n - 1];
    }
  }

  lemma Scheme(d: string)
    requires |d| >= 4 && d[0] == 'a' && d[1] == ':' && d[2] == '/' && d[3] == '/'
    ensures After(d, false, 4) == Some(ReqServerStart)
  {
    hide After;
    AfterNothing(d, false);
    AfterStep(d, false, 0);
    AfterStep(d, false, 1);
    AfterStep(d, false, 2);
    AfterStep(d, false, 3);
  }

  lemma ReachingIs(u: HttpSplit.Url)
    requires HttpSplit.UrlOk(u)
    ensures Reaching(u) <==> MayEnd(HttpSplit.StateOf(u))
  {
    hide HttpConnect.ServerText, HttpSplit.IsPath, HttpSplit.Stripped;
  }

  /** The targets are exactly the texts behind which parse_url_char lets a target end. */
  lemma TargetIs(t: string, connect: bool)
    requires t != ""
    ensures IsTarget(t, connect) <==> After(t, connect, |t|).Some? && MayEnd(After(t, connect, |t|).value)
  {
    hide HttpUrl.Scan, HttpSplit.UrlOk, HttpSplit.TextOf, HttpSplit.StateOf, Reaching;
    var d := InUrl(t, connect);
    assert d[..|d|] == d;
    if connect { AfterConnect(t, |t|); }
    if u :| HttpSplit.UrlOk(u) && HttpSplit.TextOf(u) == d && Reaching(u) {
      HttpSplit.FirstPassExact(d, |d|, u);
      ReachingIs(u);
    }
    if After(t, connect, |t|).Some? && MayEnd(After(t, connect, |t|).value) {
      var u := HttpSplit.FirstPassText(d, |d|);
      HttpSplit.FirstPassExact(d, |d|, u);
      ReachingIs(u);
    }
  }

  lemma TargetByte(f: Fields, ch: char, s: TargetState)
    requires f.state.Target? && ParseUrlChar(s, ch).Some?
    requires s == if f.state.target.ReqSpacesBeforeUrl? && f.meth == HTTP_CONNECT then ReqServerStart
                  else f.state.target
    ensures var h := To(f, Target(ParseUrlChar(s, ch).value));
      Switch(f, ch, false) == Next(h, if f.state.target.ReqSpacesBeforeUrl? then Marking(Url) else NOTHING)
    ensures !InGeneral(f) && !ParseUrlChar(s, ch).value.ReqSpacesBeforeUrl?
    ensures InitialMark(f.state) == if f.state.target.ReqSpacesBeforeUrl? then None else Some(Url)
  {
  }

  /** The bytes of a target are delivered, those behind a forbidden one are not reached. */
  lemma {:induction false} TargetBytes(f: Fields, s: string, g: Fields, x: seq<Event>, t: string, n: nat)
    requires Inv(f) && f.errno == OK && Runs(f, s, g, x) && g.state == Target(ReqSpacesBeforeUrl) && 0 < n <= |t|
    requires After(t, g.meth == HTTP_CONNECT, n).Some?
    ensures Runs(f, s + t[..n], To(g, Target(After(t, g.meth == HTTP_CONNECT, n).value)), x + Bytes(Url, t[..n]))
    ensures !After(t, g.meth == HTTP_CONNECT, n).value.ReqSpacesBeforeUrl?
    decreases n
  {
    hide Inv, Runs, Switch, ParseUrlChar, After, InitialMark, InGeneral;
    var connect, ch := g.meth == HTTP_CONNECT, t[n - 1];
    AfterStep(t, connect, n - 1);
    AfterNothing(t, connect);
    var last := After(t, connect, n - 1).value;
    var h := To(g, Target(After(t, connect, n).value));
    if n == 1 {
      TargetByte(g, ch, last);
      DataMore(f, s, g, x, ch, h, Url);
      assert t[..1] == [ch] && Bytes(Url, [ch]) == [Byte(Url, ch)];
    } else {
      TargetBytes(f, s, g, x, t, n - 1);
      var k := To(g, Target(last));
      TargetByte(k, ch, last);
      DataMore(f, s + t[..n - 1], k, x + Bytes(Url, t[..n - 1]), ch, h, Url);
      assert s + t[..n - 1] + [ch] == s + t[..n];
      assert x + Bytes(Url, t[..n - 1]) + [Byte(Url, ch)] == x + Bytes(Url, t[..n]);
    }
  }

  // ----- Versions

  /** "HTTP/" and a digit on either side of a dot. */
  predicate VersionOk(major: char, minor: char) { IsNum(major) && IsNum(minor) }
  function VersionText(major: char, minor: char): string { "HTTP/" + [major] + "." + [minor] }

  function Versioned(f: Fields, major: char, minor: char): Fields
    requires VersionOk(major, minor)
  {
    f.(major := Digit(major), minor := Digit(minor))
  }

  function In(f: Fields, s: VersionState): Fields { To(f, Version(s)) }

  lemma RequestSwitches(f: Fields, major: char, minor: char)
    requires VersionOk(major, minor)
    ensures Switch(In(f, ReqHttpStart), 'H', false) == Next(In(f, ReqHttpH), NOTHING)
    ensures Switch(In(f, ReqHttpH), 'T', false) == Next(In(f, ReqHttpHT), NOTHING)
    ensures Switch(In(f, ReqHttpHT), 'T', false) == Next(In(f, ReqHttpHTT), NOTHING)
    ensures Switch(In(f, ReqHttpHTT), 'P', false) == Next(In(f, ReqHttpHTTP), NOTHING)
    ensures Switch(In(f, ReqHttpHTTP), '/', false) == Next(In(f, ReqHttpMajor), NOTHING)
    ensures Switch(In(f, ReqHttpMajor), major, false) == Next(In(f.(major := Digit(major)), ReqHttpDot), NOTHING)
    ensures Switch(In(f, ReqHttpDot), '.', false) == Next(In(f, ReqHttpMinor), NOTHING)
    ensures Switch(In(f, ReqHttpMinor), minor, false) == Next(In(f.(minor := Digit(minor)), ReqHttpEnd), NOTHING)
  {
  }

  lemma VersionMore(f: Fields, t: string, g: Fields, s: VersionState, x: seq<Event>, ch: char, h: Fields)
    requires Inv(f) && f.errno == OK && Runs(f, t, In(g, s), x) && Switch(In(g, s), ch, false) == Next(h, NOTHING)
    ensures Runs(f, t + [ch], h, x)
  {
    hide Inv, Runs, Switch;
    QuietMore(f, t, In(g, s), x, ch, h);
  }

  lemma RequestVersion(f: Fields, t: string, g: Fields, x: seq<Event>, major: char, minor: char)
    requires Inv(f) && f.errno == OK && Runs(f, t, g, x) && g.state == Version(ReqHttpStart) && VersionOk(major, minor)
    ensures Runs(f, t + VersionText(major, minor), To(Versioned(g, major, minor), Version(ReqHttpEnd)), x)
  {
    hide Inv, Runs, Switch;
    var s, a := t + ['H'] + ['T'] + ['T'] + ['P'], g.(major := Digit(major));
    RequestSwitches(g, major, minor);
    RequestSwitches(a, major, minor);
    VersionMore(f, t, g, ReqHttpStart, x, 'H', In(g, ReqHttpH));
    VersionMore(f, t + ['H'], g, ReqHttpH, x, 'T', In(g, ReqHttpHT));
    VersionMore(f, t + ['H'] + ['T'], g, ReqHttpHT, x, 'T', In(g, ReqHttpHTT));
    VersionMore(f, t + ['H'] + ['T'] + ['T'], g, ReqHttpHTT, x, 'P', In(g, ReqHttpHTTP));
    VersionMore(f, s, g, ReqHttpHTTP, x, '/', In(g, ReqHttpMajor));
    VersionMore(f, s + ['/'], g, ReqHttpMajor, x, major, In(a, ReqHttpDot));
    VersionMore(f, s + ['/'] + [major], a, ReqHttpDot, x, '.', In(a, ReqHttpMinor));
    VersionMore(f, s + ['/'] + [major] + ['.'], a, ReqHttpMinor, x, minor, In(Versioned(g, major, minor), ReqHttpEnd));
    assert s + ['/'] + [major] + ['.'] + [minor] == t + VersionText(major, minor);
  }

  // ----- Request lines

  /** A request line; without a version, as HTTP/0.9 has it, the target ends the line. */
  datatype RequestLine = RequestLine(meth: nat, before: string, target: string, version: Option<(char, char)>,
                                     between: string, eol: string)

  ghost predicate RequestLineOk(l: RequestLine) {
    l.meth < METHOD_COUNT && AllSpaces(l.before) && IsTarget(l.target, l.meth == HTTP_CONNECT) &&
    AllSpaces(l.between) && (l.version.Some? ==> VersionOk(l.version.value.0, l.version.value.1)) && HttpLine.IsEol(l.eol)
  }

  function LineVersion(l: RequestLine): string {
    if l.version.None? then "" else " " + l.between + VersionText(l.version.value.0, l.version.value.1)
  }

  function RequestText(l: RequestLine): string {
    MethodName(l.meth) + " " + l.before + l.target + LineVersion(l) + l.eol
  }

  function RequestEvents(l: RequestLine): seq<Event> { [Note(MessageBegin)] + Bytes(Url, l.target) }

  /** The fields behind a request line: a fresh message with this method and this version. */
  function Requested(f: Fields, l: RequestLine): Fields {
    Fresh(f).(state := Header(HeaderFieldStart), meth := l.meth,
              major := if l.version.Some? && IsNum(l.version.value.0) then Digit(l.version.value.0) else 0,
              minor := if l.version.Some? && IsNum(l.version.value.1) then Digit(l.version.value.1) else 9)
  }

  lemma TargetEnds(g: Fields, s: TargetState)
    requires g.state == Target(s) && MayEnd(s)
    ensures Switch(g, ' ', false) == Next(To(g, Version(ReqHttpStart)), Flushing(Url))
    ensures var plain := g.(major := 0, minor := 9);
      Switch(g, '\r', false) == Next(To(plain, Version(ReqLineAlmostDone)), Flushing(Url)) &&
      Switch(g, '\n', false) == Next(To(plain, Header(HeaderFieldStart)), Flushing(Url))
    ensures InitialMark(g.state) == Some(Url) && !InGeneral(g)
  {
  }

  lemma LineEnds(g: Fields)
    ensures Switch(To(g, Version(ReqHttpEnd)), '\r', false) == Next(To(g, Version(ReqLineAlmostDone)), NOTHING)
    ensures Switch(To(g, Version(ReqHttpEnd)), '\n', false) == Next(To(g, Header(HeaderFieldStart)), NOTHING)
    ensures Switch(To(g, Version(ReqLineAlmostDone)), '\n', false) == Next(To(g, Header(HeaderFieldStart)), NOTHING)
  {
  }

  /** A request line begins one message, delivers its target and sets method and version. */
  lemma RequestLineRuns(f: Fields, l: RequestLine) returns (g: Fields)
    requires Inv(f) && f.errno == OK && f.state == Start(StartReq) && RequestLineOk(l)
    ensures Runs(f, RequestText(l), g, RequestEvents(l)) && HttpLine.Same(g, Requested(f, l))
    ensures g.state == Header(HeaderFieldStart)
  {
    hide Inv, Runs, Switch, IsTarget, MethodName, AllSpaces, VersionText, After, MayEnd, InitialMark;
    var h := MethodRuns(f, l.meth);
    var s, x := MethodName(l.meth) + " ", [Note(MessageBegin)];
    SpacesMore(f, s, h, x, l.before);
    var n := |l.target|;
    TargetThere(l.target, h.meth == HTTP_CONNECT);
    TargetIs(l.target, h.meth == HTTP_CONNECT);
    assert l.target[..n] == l.target;
    TargetBytes(f, s + l.before, h, x, l.target, n);
    var t, y := s + l.before + l.target, x + Bytes(Url, l.target);
    var k := To(h, Target(After(l.target, h.meth == HTTP_CONNECT, n).value));
    TargetEnds(k, k.state.target);
    if l.version.Some? {
      var (major, minor) := l.version.value;
      var v := To(k, Version(ReqHttpStart));
      QuietMore(f, t, k, y, ' ', v);
      SpacesMore(f, t + [' '], v, y, l.between);
      RequestVersion(f, t + [' '] + l.between, v, y, major, minor);
      g := EolMore(f, t + [' '] + l.between + VersionText(major, minor), Versioned(v, major, minor), y, l.eol);
      assert t + [' '] + l.between + VersionText(major, minor) + l.eol == RequestText(l);
    } else {
      g := OldEolMore(f, t, k, y, l.eol);
      assert t + l.eol == RequestText(l);
    }
  }

  lemma TargetThere(t: string, connect: bool)
    ensures IsTarget(t, connect) ==> t != ""
  {
  }

  lemma EolMore(f: Fields, t: string, g: Fields, x: seq<Event>, eol: string) returns (h: Fields)
    requires Inv(f) && f.errno == OK && Runs(f, t, To(g, Version(ReqHttpEnd)), x) && HttpLine.IsEol(eol)
    ensures Runs(f, t + eol, h, x) && h == To(g, Header(HeaderFieldStart))
  {
    hide Inv, Runs, Switch;
    h := To(g, Header(HeaderFieldStart));
    LineEnds(g);
    if eol == "\n" {
      QuietMore(f, t, To(g, Version(ReqHttpEnd)), x, '\n', h);
    } else {
      QuietMore(f, t, To(g, Version(ReqHttpEnd)), x, '\r', To(g, Version(ReqLineAlmostDone)));
      QuietMore(f, t + ['\r'], To(g, Version(ReqLineAlmostDone)), x, '\n', h);
      assert t + ['\r'] + ['\n'] == t + eol;
    }
  }

  lemma OldEolMore(f: Fields, t: string, g: Fields, x: seq<Event>, eol: string) returns (h: Fields)
    requires Inv(f) && f.errno == OK && Runs(f, t, g, x) && HttpLine.IsEol(eol)
    requires g.state.Target? && MayEnd(g.state.target)
    ensures Runs(f, t + eol, h, x) && h == To(g.(major := 0, minor := 9), Header(HeaderFieldStart))
  {
    hide Inv, Runs, Switch, MayEnd;
    var plain := g.(major := 0, minor := 9);
    h := To(plain, Header(HeaderFieldStart));
    TargetEnds(g, g.state.target);
    LineEnds(plain);
    if eol == "\n" {
      QuietMore(f, t, g, x, '\n', h);
    } else {
      QuietMore(f, t, g, x, '\r', To(plain, Version(ReqLineAlmostDone)));
      QuietMore(f, t + ['\r'], To(plain, Version(ReqLineAlmostDone)), x, '\n', h);
      assert t + ['\r'] + ['\n'] == t + eol;
    }
  }

  // ----- Status lines

  datatype ResponseLine = ResponseLine(major: char, minor: char, gap: string, code: string, reason: Option<string>,
                                   eol: string)

  const MAX_STATUS: nat := 999

  predicate IsReason(s: string) { forall i :: 0 <= i < |s| ==> !IsLineEnd(s[i]) }

  predicate StatusLineOk(l: ResponseLine) {
    VersionOk(l.major, l.minor) && AllSpaces(l.gap) && l.code != "" && HttpLength.IsDigits(l.code) &&
    (l.reason.Some? ==> IsReason(l.reason.value)) && HttpLine.IsEol(l.eol)
  }

  function ReasonOf(l: ResponseLine): string { if l.reason.Some? then l.reason.value else "" }

  function CodeFront(l: ResponseLine): string { VersionText(l.major, l.minor) + " " + l.gap }

  function StatusText(l: ResponseLine): string {
    CodeFront(l) + l.code + (if l.reason.Some? then " " + l.reason.value else "") + l.eol
  }

  function StatusEvents(l: ResponseLine): seq<Event> { [Note(MessageBegin)] + Bytes(Status, ReasonOf(l)) }

  /** The fields behind a status line: a fresh message with this version and this code. */
  function Responded(f: Fields, l: ResponseLine): Fields
    requires StatusLineOk(l)
  {
    Versioned(Fresh(f), l.major, l.minor).(state := Header(HeaderFieldStart), statusCode := Decimal(l.code))
  }

  function At(f: Fields, s: StatusLineState): Fields { To(f, StatusLine(s)) }

  lemma VersionSwitches(f: Fields)
    requires f.state == Start(StartRes)
    ensures Switch(f, 'H', false) == Next(At(Fresh(f), ResH), Notifying(MessageBegin))
    ensures Switch(At(f, ResH), 'T', false) == Next(At(f, ResHT), NOTHING)
    ensures Switch(At(f, ResHT), 'T', false) == Next(At(f, ResHTT), NOTHING)
    ensures Switch(At(f, ResHTT), 'P', false) == Next(At(f, ResHTTP), NOTHING)
    ensures Switch(At(f, ResHTTP), '/', false) == Next(At(f, ResHttpMajor), NOTHING)
  {
  }

  lemma DigitSwitches(f: Fields, major: char, minor: char)
    requires VersionOk(major, minor)
    ensures Switch(At(f, ResHttpMajor), major, false) == Next(At(f.(major := Digit(major)), ResHttpDot), NOTHING)
    ensures Switch(At(f, ResHttpDot), '.', false) == Next(At(f, ResHttpMinor), NOTHING)
    ensures Switch(At(f, ResHttpMinor), minor, false) == Next(At(f.(minor := Digit(minor)), ResHttpEnd), NOTHING)
    ensures Switch(At(f, ResHttpEnd), ' ', false) == Next(At(f, ResFirstStatusCode), NOTHING)
  {
  }

  lemma StatusMore(f: Fields, t: string, g: Fields, s: StatusLineState, x: seq<Event>, ch: char, h: Fields)
    requires Inv(f) && f.errno == OK && Runs(f, t, At(g, s), x) && !s.ResStatus?
    requires Switch(At(g, s), ch, false) == Next(h, NOTHING)
    ensures Runs(f, t + [ch], h, x)
  {
    hide Inv, Runs, Switch;
    QuietMore(f, t, At(g, s), x, ch, h);
  }

  lemma StatusVersion(f: Fields, major: char, minor: char)
    requires Inv(f) && f.errno == OK && f.state == Start(StartRes) && VersionOk(major, minor)
    ensures Runs(f, VersionText(major, minor) + " ", At(Versioned(Fresh(f), major, minor), ResFirstStatusCode),
                 [Note(MessageBegin)])
  {
    hide Inv, Runs, Switch, At, Fresh;
    var x, g := [Note(MessageBegin)], Fresh(f);
    var a, b := g.(major := Digit(major)), Versioned(g, major, minor);
    var t := ['H'] + ['T'] + ['T'] + ['P'] + ['/'];
    VersionSwitches(f);
    FreshSwitches(f, major, minor);
    BeginRuns(f, 'H', At(g, ResH));
    StatusMore(f, ['H'], g, ResH, x, 'T', At(g, ResHT));
    StatusMore(f, ['H'] + ['T'], g, ResHT, x, 'T', At(g, ResHTT));
    StatusMore(f, ['H'] + ['T'] + ['T'], g, ResHTT, x, 'P', At(g, ResHTTP));
    StatusMore(f, ['H'] + ['T'] + ['T'] + ['P'], g, ResHTTP, x, '/', At(g, ResHttpMajor));
    StatusMore(f, t, g, ResHttpMajor, x, major, At(a, ResHttpDot));
    StatusMore(f, t + [major], a, ResHttpDot, x, '.', At(a, ResHttpMinor));
    StatusMore(f, t + [major] + ['.'], a, ResHttpMinor, x, minor, At(b, ResHttpEnd));
    StatusMore(f, t + [major] + ['.'] + [minor], b, ResHttpEnd, x, ' ', At(b, ResFirstStatusCode));
    assert t + [major] + ['.'] + [minor] + [' '] == VersionText(major, minor) + " ";
  }

  /** The same for the fields of a fresh message. */
  lemma FreshSwitches(f: Fields, major: char, minor: char)
    requires f.state == Start(StartRes) && VersionOk(major, minor)
    ensures var g := Fresh(f);
      var a, b := g.(major := Digit(major)), Versioned(g, major, minor);
      Switch(At(g, ResH), 'T', false) == Next(At(g, ResHT), NOTHING) &&
      Switch(At(g, ResHT), 'T', false) == Next(At(g, ResHTT), NOTHING) &&
      Switch(At(g, ResHTT), 'P', false) == Next(At(g, ResHTTP), NOTHING) &&
      Switch(At(g, ResHTTP), '/', false) == Next(At(g, ResHttpMajor), NOTHING) &&
      Switch(At(g, ResHttpMajor), major, false) == Next(At(a, ResHttpDot), NOTHING) &&
      Switch(At(a, ResHttpDot), '.', false) == Next(At(a, ResHttpMinor), NOTHING) &&
      Switch(At(a, ResHttpMinor), minor, false) == Next(At(b, ResHttpEnd), NOTHING) &&
      Switch(At(b, ResHttpEnd), ' ', false) == Next(At(b, ResFirstStatusCode), NOTHING)
  {
    hide Switch, At;
    var g := Fresh(f);
    VersionSwitches(g);
    DigitSwitches(g, major, minor);
    DigitSwitches(g.(major := Digit(major)), major, minor);
    DigitSwitches(Versioned(g, major, minor), major, minor);
  }

  /** The fields while a status code is read. */
  function Coded(g: Fields, n: nat): Fields { At(g.(statusCode := n), ResStatusCode) }

  lemma CodeSwitches(g: Fields, n: nat, ch: char)
    requires IsNum(ch)
    ensures Switch(At(g, ResFirstStatusCode), ch, false) == Next(Coded(g, Digit(ch)), NOTHING)
    ensures var m := 10 * n + Digit(ch);
      Switch(Coded(g, n), ch, false) ==
        if m <= MAX_STATUS then Next(Coded(g, m), NOTHING) else Error(Coded(g, m), InvalidStatus)
  {
  }

  lemma {:induction false} CodeMore(f: Fields, t: string, g: Fields, x: seq<Event>, code: string, k: nat)
    requires Inv(f) && f.errno == OK && Runs(f, t, At(g, ResFirstStatusCode), x) && HttpLength.IsDigits(code)
    requires 0 < k <= |code| && Decimal(code[..k]) <= MAX_STATUS
    ensures Runs(f, t + code[..k], Coded(g, Decimal(code[..k])), x)
  {
    hide Inv, Runs, Switch, Decimal;
    var ch := code[k - 1];
    HttpLength.DecimalStep(code, k);
    if k == 1 {
      HttpLength.NoDigits(code);
      CodeSwitches(g, 0, ch);
      StatusMore(f, t, g, ResFirstStatusCode, x, ch, Coded(g, Digit(ch)));
      assert code[..1] == [ch];
    } else {
      var n := Decimal(code[..k - 1]);
      CodeMore(f, t, g, x, code, k - 1);
      CodeSwitches(g, n, ch);
      StatusMore(f, t + code[..k - 1], g.(statusCode := n), ResStatusCode, x, ch, Coded(g, 10 * n + Digit(ch)));
      assert t + code[..k - 1] + [ch] == t + code[..k];
    }
  }

  /** A code above 999 fails at one of its digits. */
  lemma {:induction false} CodeFails(f: Fields, t: string, g: Fields, x: seq<Event>, code: string, k: nat, tail: string)
    requires Inv(f) && f.errno == OK && Runs(f, t, At(g, ResFirstStatusCode), x) && HttpLength.IsDigits(code)
    requires k <= |code| && Decimal(code[..k]) > MAX_STATUS
    ensures var d := t + code + tail; Single(f, d, |d|).end == Failed && Single(f, d, |d|).f.errno == InvalidStatus
  {
    hide Inv, Runs, Switch, Decimal, Bytewise, Begin;
    if k == 0 {
      HttpLength.NoDigits(code);
    } else {
      HttpLength.DecimalStep(code, k);
      var n := Decimal(code[..k - 1]);
      if n > MAX_STATUS {
        CodeFails(f, t, g, x, code, k - 1, tail);
      } else {
        ShortCode(code, k);
        CodeMore(f, t, g, x, code, k - 1);
        CodeSwitches(g, n, code[k - 1]);
        var failed := Coded(g, 10 * n + Digit(code[k - 1])).(errno := InvalidStatus);
        FailsBehind(f, t + code[..k - 1], Coded(g, n), x, code[k - 1], failed, code[k..] + tail);
        assert code == code[..k - 1] + [code[k - 1]] + code[k..];
        assert t + code[..k - 1] + [code[k - 1]] + (code[k..] + tail) == t + code + tail;
      }
    }
  }

  lemma ShortCode(code: string, k: nat)
    requires HttpLength.IsDigits(code) && 0 < k <= |code| && Decimal(code[..k]) > MAX_STATUS
    ensures k > 1
  {
    HttpLength.DecimalStep(code, k);
    HttpLength.NoDigits(code);
  }

  // ----- The reason

  lemma CodeEnds(g: Fields)
    ensures Switch(At(g, ResStatusCode), ' ', false) == Next(At(g, ResStatusStart), NOTHING)
    ensures forall ch :: IsLineEnd(ch) ==>
      Switch(At(g, ResStatusCode), ch, false) == Again(At(g, ResStatusStart), NOTHING)
  {
  }

  function InReason(g: Fields): Fields { At(g, ResStatus).(index := 0) }

  lemma ReasonSwitches(g: Fields, ch: char)
    ensures Switch(At(g, ResStatusStart), ch, false) ==
      if IsLineEnd(ch) then Again(InReason(g), Marking(Status)) else Next(InReason(g), Marking(Status))
    ensures var h := InReason(g);
      Switch(h, ch, false) ==
        if ch == '\r' then Next(At(h, ResLineAlmostDone), Flushing(Status))
        else if ch == '\n' then Next(To(h, Header(HeaderFieldStart)), Flushing(Status)) else Next(h, NOTHING)
    ensures Switch(At(g, ResLineAlmostDone), '\n', false) == Next(To(g, Header(HeaderFieldStart)), NOTHING)
  {
  }

  lemma {:induction false} ReasonMore(f: Fields, t: string, g: Fields, x: seq<Event>, reason: string)
    requires Inv(f) && f.errno == OK && Runs(f, t, At(g, ResStatusStart), x) && IsReason(reason) && reason != ""
    ensures Runs(f, t + reason, InReason(g), x + Bytes(Status, reason))
    decreases |reason|
  {
    hide Inv, Runs, Switch;
    var k, ch := |reason| - 1, reason[|reason| - 1];
    ReasonSwitches(g, ch);
    if k == 0 {
      DataMore(f, t, At(g, ResStatusStart), x, ch, InReason(g), Status);
      assert reason == [ch] && Bytes(Status, reason) == [Byte(Status, ch)];
    } else {
      ReasonMore(f, t, g, x, reason[..k]);
      DataMore(f, t + reason[..k], InReason(g), x + Bytes(Status, reason[..k]), ch, InReason(g), Status);
      assert t + reason[..k] + [ch] == t + reason;
      assert x + Bytes(Status, reason[..k]) + [Byte(Status, ch)] == x + Bytes(Status, reason);
    }
  }

  /** The states in which a status line may end. */
  predicate StatusMayEnd(s: State) {
    s == StatusLine(ResStatusCode) || s == StatusLine(ResStatusStart) || s == StatusLine(ResStatus)
  }

  function ReasonEnd(h: Fields, ch: char): Fields {
    if ch == '\r' then At(h, ResLineAlmostDone) else To(h, Header(HeaderFieldStart))
  }

  lemma ReasonChain(g: Fields, ch: char)
    requires IsLineEnd(ch)
    ensures var marked, none := Marks(Some(Status), 0, []), Marks(None, 0, []);
      (g.state == StatusLine(ResStatus) ==>
        RunSwitch(g, marked, ch, false) == Chain(ReasonEnd(g, ch), none, false, More)) &&
      RunSwitch(At(g, ResStatusStart), none, ch, false) == Chain(ReasonEnd(InReason(g), ch), none, false, More)
  {
    hide Switch;
    if g.state == StatusLine(ResStatus) { StatusSwitch(g, ch); }
    ReasonSwitches(g, ch);
    StatusSwitch(InReason(g), ch);
  }

  lemma ReasonEnds(g: Fields, ch: char)
    requires StatusMayEnd(g.state) && IsLineEnd(ch)
    ensures Runs(g, [ch], ReasonEnd(if g.state == StatusLine(ResStatus) then g else InReason(g), ch), [])
  {
    hide Runs, Switch, ReasonEnd;
    ReasonChain(g, ch);
    CodeEnds(g);
    RunsByte(g, ch);
    ReasonFree(if g.state == StatusLine(ResStatus) then g else InReason(g), ch);
    if g.state == StatusLine(ResStatusCode) {
      assert At(g, ResStatusCode) == g;
    } else if g.state == StatusLine(ResStatusStart) {
      assert At(g, ResStatusStart) == g;
    }
  }

  lemma ReasonFree(h: Fields, ch: char)
    ensures InitialMark(ReasonEnd(h, ch).state).None?
  {
  }

  lemma StatusSwitch(h: Fields, ch: char)
    requires h.state == StatusLine(ResStatus) && IsLineEnd(ch)
    ensures Switch(h, ch, false) ==
      Next(if ch == '\r' then At(h, ResLineAlmostDone) else To(h, Header(HeaderFieldStart)), Flushing(Status))
  {
  }

  lemma StatusEol(f: Fields, t: string, g: Fields, x: seq<Event>, eol: string) returns (h: Fields)
    requires Inv(f) && f.errno == OK && Runs(f, t, g, x) && StatusMayEnd(g.state) && HttpLine.IsEol(eol)
    ensures Runs(f, t + eol, h, x) && h == To(g, Header(HeaderFieldStart)).(index := h.index)
  {
    hide Inv, Runs, Switch, StatusMayEnd;
    ReasonEnds(g, eol[0]);
    var k := if g.state == StatusLine(ResStatus) then g else InReason(g);
    h := To(k, Header(HeaderFieldStart));
    assert x + [] == x;
    if eol == "\n" {
      RunsJoin(f, t, g, x, ['\n'], h, []);
    } else {
      RunsJoin(f, t, g, x, ['\r'], At(k, ResLineAlmostDone), []);
      ReasonSwitches(k, '\n');
      StatusMore(f, t + ['\r'], k, ResLineAlmostDone, x, '\n', h);
      assert t + ['\r'] + ['\n'] == t + eol;
    }
  }

  /** A status line begins one message, delivers its reason and sets version and code. */
  lemma StatusLineRuns(f: Fields, l: ResponseLine) returns (g: Fields)
    requires Inv(f) && f.errno == OK && f.state == Start(StartRes) && StatusLineOk(l) && Decimal(l.code) <= MAX_STATUS
    ensures Runs(f, StatusText(l), g, StatusEvents(l)) && HttpLine.Same(g, Responded(f, l))
    ensures g.state == Header(HeaderFieldStart)
  {
    hide Inv, Runs, Switch, AllSpaces, VersionText, Decimal, IsReason, Fresh;
    var x, b, n := [Note(MessageBegin)], Versioned(Fresh(f), l.major, l.minor), |l.code|;
    StatusVersion(f, l.major, l.minor);
    SpacesMore(f, VersionText(l.major, l.minor) + " ", At(b, ResFirstStatusCode), x, l.gap);
    assert l.code[..n] == l.code;
    CodeMore(f, CodeFront(l), b, x, l.code, n);
    var t, c := CodeFront(l) + l.code, b.(statusCode := Decimal(l.code));
    if l.reason.None? {
      g := StatusEol(f, t, At(c, ResStatusCode), x, l.eol);
      assert t + l.eol == StatusText(l) by { assert t + "" == t; }
      assert StatusEvents(l) == x + Bytes(Status, "") == x;
    } else {
      var r := l.reason.value;
      CodeEnds(c);
      StatusMore(f, t, c, ResStatusCode, x, ' ', At(c, ResStatusStart));
      if r == "" {
        g := StatusEol(f, t + [' '], At(c, ResStatusStart), x, l.eol);
        assert StatusEvents(l) == x + Bytes(Status, r) == x;
        assert t + [' '] + l.eol == StatusText(l);
      } else {
        ReasonMore(f, t + [' '], c, x, r);
        g := StatusEol(f, t + [' '] + r, InReason(c), x + Bytes(Status, r), l.eol);
      }
      assert t + [' '] + r + l.eol == StatusText(l);
      assert StatusEvents(l) == x + Bytes(Status, r);
    }
  }

  /** A status code above 999 is refused. */
  lemma StatusLineFails(f: Fields, l: ResponseLine, tail: string)
    requires Inv(f) && f.errno == OK && f.state == Start(StartRes) && StatusLineOk(l) && Decimal(l.code) > MAX_STATUS
    ensures var d := CodeFront(l) + l.code + tail;
      Single(f, d, |d|).end == Failed && Single(f, d, |d|).f.errno == InvalidStatus
  {
    hide Inv, Runs, Switch, AllSpaces, VersionText, Decimal, IsReason, Fresh, Bytewise, Begin;
    var x, b := [Note(MessageBegin)], Versioned(Fresh(f), l.major, l.minor);
    StatusVersion(f, l.major, l.minor);
    SpacesMore(f, VersionText(l.major, l.minor) + " ", At(b, ResFirstStatusCode), x, l.gap);
    assert l.code[..|l.code|] == l.code;
    CodeFails(f, CodeFront(l), b, x, l.code, |l.code|, tail);
  }
}
