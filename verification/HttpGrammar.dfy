/** The converse of the start-line, header-line and size-line theorems: whatever brings
    http_parser_execute through such a line is a text of its form. */
module HttpGrammar {
  import opened HttpTypes
  import opened HttpStep
  import opened HttpRun
  import opened HttpCutting
  import opened HttpJoin
  import opened HttpHeader
  import opened HttpLine
  import HttpValue
  import opened HttpStart
  import HttpMethod
  import HttpUrl
  import HttpLength
  import HttpChunked

  predicate AllEnds(s: string) { forall i :: 0 <= i < |s| ==> IsLineEnd(s[i]) }

  lemma AllMore(s: string, ch: char)
    ensures AllEnds(s + [ch]) <==> AllEnds(s) && IsLineEnd(ch)
    ensures AllSpaces(s + [ch]) <==> AllSpaces(s) && ch == ' '
    ensures IsReason(s + [ch]) <==> IsReason(s) && !IsLineEnd(ch)
  {
    hide IsLineEnd;
    var t := s + [ch];
    assert t[|s|] == ch && forall i :: 0 <= i < |s| ==> t[i] == s[i];
  }

  // ----- Request lines

  /** How far a request line has been read; `lead` are skipped line ends in front of it. */
  datatype Part =
    | Leading(lead: string)
    | Naming(lead: string, name: string)
    | Spacing(lead: string, line: RequestLine)
    | Targeting(lead: string, line: RequestLine)
    | Behind(lead: string, line: RequestLine)
    | Versioning(lead: string, line: RequestLine, version: string)
    | Ending(lead: string, line: RequestLine)
    | Whole(lead: string, line: RequestLine)

  function TargetText(l: RequestLine): string { MethodName(l.meth) + " " + l.before + l.target }

  function PartText(p: Part): string {
    match p
    case Leading(lead) => lead
    case Naming(lead, name) => lead + name
    case Spacing(lead, l) => lead + TargetText(l)
    case Targeting(lead, l) => lead + TargetText(l)
    case Behind(lead, l) => lead + TargetText(l) + " " + l.between
    case Versioning(lead, l, v) => lead + TargetText(l) + " " + l.between + v
    case Ending(lead, l) => lead + RequestText(l)
    case Whole(lead, l) => lead + RequestText(l)
  }

  /** The bytes of a version up to each state. */
  predicate VersionPart(s: VersionState, v: string) {
    match s
    case ReqHttpH => v == "H"
    case ReqHttpHT => v == "HT"
    case ReqHttpHTT => v == "HTT"
    case ReqHttpHTTP => v == "HTTP"
    case ReqHttpMajor => v == "HTTP/"
    case ReqHttpDot => |v| == 6 && v[..5] == "HTTP/" && IsNum(v[5])
    case ReqHttpMinor => |v| == 7 && v[..5] == "HTTP/" && IsNum(v[5]) && v[6] == '.'
    case ReqHttpEnd => |v| == 8 && v[..5] == "HTTP/" && IsNum(v[5]) && v[6] == '.' && IsNum(v[7])
    case _ => false
  }

  predicate MethodRead(l: RequestLine, g: Fields) { l.meth < METHOD_COUNT && l.meth == g.meth && AllSpaces(l.before) }

  ghost predicate TargetRead(l: RequestLine, g: Fields) {
    MethodRead(l, g) && IsTarget(l.target, l.meth == HTTP_CONNECT) && AllSpaces(l.between)
  }

  /** A request line but for its end. */
  ghost predicate LineRead(l: RequestLine, g: Fields) {
    TargetRead(l, g) && (l.version.Some? ==> VersionOk(l.version.value.0, l.version.value.1))
  }

  /** What the state says about the bytes so far. */
  ghost predicate Shaped(p: Part, g: Fields) {
    AllEnds(p.lead) &&
    match p
    case Leading(_) => g.state == Start(StartReq)
    case Naming(_, name) => HttpMethod.Matched(g, name)
    case Spacing(_, l) => g.state == Target(ReqSpacesBeforeUrl) && MethodRead(l, g) && l.target == ""
    case Targeting(_, l) =>
      g.state.Target? && !g.state.target.ReqSpacesBeforeUrl? && MethodRead(l, g) && l.target != "" &&
      After(l.target, l.meth == HTTP_CONNECT, |l.target|) == Some(g.state.target)
    case Behind(_, l) => g.state == Version(ReqHttpStart) && TargetRead(l, g)
    case Versioning(_, l, v) => g.state.Version? && TargetRead(l, g) && VersionPart(g.state.version, v)
    case Ending(_, l) => g.state == Version(ReqLineAlmostDone) && LineRead(l, g) && l.eol == "\r"
    case Whole(_, l) => g.state == Header(HeaderFieldStart) && LineRead(l, g) && IsEol(l.eol)
  }

  ghost predicate Grows(p: Part, q: Part, ch: char, h: Fields) {
    Shaped(q, h) && PartText(q) == PartText(p) + [ch]
  }

  const NO_LINE: RequestLine := RequestLine(0, "", "", None, "", "")

  lemma LeadStep(p: Part, g: Fields, ch: char) returns (q: Part)
    requires p.Leading? && Shaped(p, g) && Switch(g, ch, false).Next?
    ensures Grows(p, q, ch, Switch(g, ch, false).f)
  {
    hide MethodName, FirstMethod, TargetText;
    AllMore(p.lead, ch);
    if IsLineEnd(ch) {
      q := Leading(p.lead + [ch]);
    } else {
      HttpMethod.FirstByte(g, ch);
      q := Naming(p.lead, [ch]);
    }
  }

  lemma NameStep(p: Part, g: Fields, ch: char) returns (q: Part)
    requires p.Naming? && Shaped(p, g) && Switch(g, ch, false).Next?
    ensures Grows(p, q, ch, Switch(g, ch, false).f)
  {
    hide MethodName, Switch, FirstMethod;
    HttpMethod.MethodByte(g, p.name, ch);
    if HttpMethod.Matched(Switch(g, ch, false).f, p.name + [ch]) {
      q := Naming(p.lead, p.name + [ch]);
      assert p.lead + (p.name + [ch]) == p.lead + p.name + [ch];
    } else {
      var l := NO_LINE.(meth := g.meth);
      q := Spacing(p.lead, l);
      assert TargetText(l) == MethodName(l.meth) + " ";
      assert p.lead + (p.name + " ") == p.lead + p.name + [' '];
    }
  }

  lemma {:induction false} ScanPrefix(s: string, t: string, connect: bool, n: nat)
    requires n <= |s| && n <= |t| && s[..n] == t[..n]
    ensures After(s, connect, n) == After(t, connect, n)
  {
    hide After, ParseUrlChar;
    if n == 0 {
      AfterNothing(s, connect);
      AfterNothing(t, connect);
    } else {
      assert s[n - 1] == s[..n][n - 1] == t[n - 1];
      assert s[..n - 1] == s[..n][..n - 1] == t[..n - 1];
      ScanPrefix(s, t, connect, n - 1);
      AfterStep(s, connect, n - 1);
      AfterStep(t, connect, n - 1);
    }
  }

  lemma AfterMore(t: string, connect: bool, ch: char)
    ensures var u := t + [ch];
      After(u, connect, |u|) ==
      if After(t, connect, |t|).None? then None else ParseUrlChar(After(t, connect, |t|).value, ch)
  {
    hide After, ParseUrlChar;
    var u := t + [ch];
    assert u[..|t|] == t == t[..|t|];
    ScanPrefix(u, t, connect, |t|);
    AfterStep(u, connect, |t|);
  }

  lemma SpaceStep(p: Part, g: Fields, ch: char) returns (q: Part)
    requires p.Spacing? && Shaped(p, g) && Switch(g, ch, false).Next?
    ensures Grows(p, q, ch, Switch(g, ch, false).f)
  {
    hide MethodName, After, ParseUrlChar, AllSpaces;
    var l, connect := p.line, p.line.meth == HTTP_CONNECT;
    AllMore(l.before, ch);
    if ch == ' ' {
      q := Spacing(p.lead, l.(before := l.before + [ch]));
      assert TargetText(q.line) == TargetText(l) + [ch];
    } else {
      q := Targeting(p.lead, l.(target := [ch]));
      AfterMore("", connect, ch);
      AfterNothing("", connect);
      assert "" + [ch] == [ch];
      assert TargetText(q.line) == TargetText(l) + [ch];
      NotBefore(if connect then ReqServerStart else ReqSpacesBeforeUrl, ch);
    }
    assert p.lead + (TargetText(l) + [ch]) == p.lead + TargetText(l) + [ch];
  }

  lemma NotBefore(s: TargetState, ch: char)
    ensures ParseUrlChar(s, ch).Some? ==> !ParseUrlChar(s, ch).value.ReqSpacesBeforeUrl?
  {
  }

  lemma TargetStep(p: Part, g: Fields, ch: char) returns (q: Part)
    requires p.Targeting? && Shaped(p, g) && Switch(g, ch, false).Next?
    ensures Grows(p, q, ch, Switch(g, ch, false).f)
  {
    hide MethodName, After, ParseUrlChar, AllSpaces, IsTarget, TargetText, LineVersion;
    var l, connect, h := p.line, p.line.meth == HTTP_CONNECT, Switch(g, ch, false).f;
    TargetIs(l.target, connect);
    NoSpaces();
    if h.state.Target? {
      q := Targeting(p.lead, l.(target := l.target + [ch]));
      AfterMore(l.target, connect, ch);
      NotBefore(g.state.target, ch);
      TargetMore(l, ch);
      assert p.lead + (TargetText(l) + [ch]) == p.lead + TargetText(l) + [ch];
    } else if ch == ' ' {
      q := Behind(p.lead, l.(between := ""));
      SameTarget(l, q.line);
      assert p.lead + TargetText(l) + " " + "" == p.lead + TargetText(l) + [ch];
    } else {
      var m := l.(version := None, between := "", eol := [ch]);
      q := if ch == '\r' then Ending(p.lead, m) else Whole(p.lead, m);
      SameTarget(l, m);
      OldText(m);
      assert p.lead + (TargetText(l) + [ch]) == p.lead + TargetText(l) + [ch];
    }
  }

  lemma NoSpaces()
    ensures AllSpaces("")
  {
  }

  lemma TargetMore(l: RequestLine, ch: char)
    ensures TargetText(l.(target := l.target + [ch])) == TargetText(l) + [ch]
  {
    hide MethodName;
  }

  lemma SameTarget(l: RequestLine, m: RequestLine)
    requires l.meth == m.meth && l.before == m.before && l.target == m.target
    ensures TargetText(l) == TargetText(m)
  {
  }

  lemma OldText(l: RequestLine)
    requires l.version.None?
    ensures RequestText(l) == TargetText(l) + l.eol
  {
    hide MethodName;
    assert TargetText(l) + "" == TargetText(l);
  }

  lemma BehindStep(p: Part, g: Fields, ch: char) returns (q: Part)
    requires p.Behind? && Shaped(p, g) && Switch(g, ch, false).Next?
    ensures Grows(p, q, ch, Switch(g, ch, false).f)
  {
    hide MethodName, AllSpaces, IsTarget, TargetText;
    var l := p.line;
    AllMore(l.between, ch);
    if ch == ' ' {
      q := Behind(p.lead, l.(between := l.between + [ch]));
      SameTarget(l, q.line);
      assert p.lead + TargetText(l) + " " + (l.between + [ch]) == p.lead + TargetText(l) + " " + l.between + [ch];
    } else {
      q := Versioning(p.lead, l, [ch]);
    }
  }

  lemma VersionPartMore(s: VersionState, v: string, ch: char, f: Fields)
    requires VersionPart(s, v) && f.state == Version(s) && Switch(f, ch, false).Next?
    ensures var h := Switch(f, ch, false).f;
      if s.ReqHttpEnd?
      then IsLineEnd(ch) && h.state == if ch == '\r' then Version(ReqLineAlmostDone) else Header(HeaderFieldStart)
      else h.state.Version? && VersionPart(h.state.version, v + [ch])
    ensures Switch(f, ch, false).f.meth == f.meth
  {
    var u := v + [ch];
    assert u[..|v|] == v && u[|v|] == ch;
    if |v| >= 5 { assert u[..5] == v[..5]; }
  }

  lemma VersionStep(p: Part, g: Fields, ch: char) returns (q: Part)
    requires p.Versioning? && Shaped(p, g) && Switch(g, ch, false).Next?
    ensures Grows(p, q, ch, Switch(g, ch, false).f)
  {
    hide MethodName, AllSpaces, IsTarget, TargetText, Switch, VersionPart, LineVersion;
    var l, v, front := p.line, p.version, p.lead + TargetText(p.line) + " " + p.line.between;
    VersionPartMore(g.state.version, v, ch, g);
    if g.state.version.ReqHttpEnd? {
      VersionWhole(v);
      var m := l.(version := Some((v[5], v[7])), eol := [ch]);
      q := if ch == '\r' then Ending(p.lead, m) else Whole(p.lead, m);
      SameTarget(l, m);
      NewText(m);
      assert p.lead + (TargetText(l) + " " + l.between + v + [ch]) == front + v + [ch];
    } else {
      q := Versioning(p.lead, l, v + [ch]);
      assert front + (v + [ch]) == front + v + [ch];
    }
  }

  lemma VersionWhole(v: string)
    requires VersionPart(ReqHttpEnd, v)
    ensures |v| == 8 && VersionOk(v[5], v[7]) && v == VersionText(v[5], v[7])
  {
    assert v == v[..5] + [v[5]] + [v[6]] + [v[7]];
  }

  lemma NewText(l: RequestLine)
    requires l.version.Some?
    ensures RequestText(l) ==
      TargetText(l) + " " + l.between + VersionText(l.version.value.0, l.version.value.1) + l.eol
  {
    hide MethodName, VersionText;
    var a, b, v := TargetText(l), l.between, VersionText(l.version.value.0, l.version.value.1);
    assert a + (" " + b + v) + l.eol == a + " " + b + v + l.eol;
  }

  lemma EndStep(p: Part, g: Fields, ch: char) returns (q: Part)
    requires p.Ending? && Shaped(p, g) && Switch(g, ch, false).Next?
    ensures Grows(p, q, ch, Switch(g, ch, false).f)
  {
    hide MethodName, AllSpaces, IsTarget, LineVersion;
    var l, front := p.line, MethodName(p.line.meth) + " " + p.line.before + p.line.target + LineVersion(p.line);
    q := Whole(p.lead, l.(eol := "\r\n"));
    SameVersion(l, q.line);
    assert front + "\r\n" == front + "\r" + ['\n'];
    assert p.lead + (front + "\r" + ['\n']) == p.lead + (front + "\r") + ['\n'];
  }

  lemma SameVersion(l: RequestLine, m: RequestLine)
    requires l.version == m.version && l.between == m.between
    ensures LineVersion(l) == LineVersion(m)
  {
  }

  lemma PartStep(p: Part, g: Fields, ch: char) returns (q: Part)
    requires Shaped(p, g) && !p.Whole? && Switch(g, ch, false).Next?
    ensures Grows(p, q, ch, Switch(g, ch, false).f)
  {
    hide Shaped, Switch, PartText;
    match p
    case Leading(_) => q := LeadStep(p, g, ch);
    case Naming(_, _) => q := NameStep(p, g, ch);
    case Spacing(_, _) => q := SpaceStep(p, g, ch);
    case Targeting(_, _) => q := TargetStep(p, g, ch);
    case Behind(_, _) => q := BehindStep(p, g, ch);
    case Versioning(_, _, _) => q := VersionStep(p, g, ch);
    case Ending(_, _) => q := EndStep(p, g, ch);
  }

  /** None of the states of a start line but those of a response jumps. */
  predicate NoJump(s: State) { s == Start(StartReq) || s.Method? || s.Target? || s.Version? }

  lemma NextOnly(f: Fields, ch: char)
    requires NoJump(f.state)
    ensures !Switch(f, ch, false).Again? && !Switch(f, ch, false).Exit? && !InGeneral(f)
  {
    hide Reguess, MethodName, FirstMethod, ParseUrlChar;
  }

  /** A byte that the run goes over. */
  lemma NextTaken(f: Fields, d: string, n: nat)
    requires n < |d| && Single(f, d, n + 1).end == More && NoJump(Single(f, d, n).f.state)
    ensures Single(f, d, n).end == More
    ensures var s := Switch(Single(f, d, n).f, d[n], false); s.Next? && s.f == Single(f, d, n + 1).f
  {
    hide Switch, InGeneral, Bytewise, Begin, InitialMark, ApplyAct, NoJump;
    SingleStep(f, d, n);
    StepStopped(Cut(Single(f, d, n)), d[n]);
    CutEnd(Single(f, d, n));
    NextOnly(Single(f, d, n).f, d[n]);
  }

  lemma CutEnd(r: Run)
    ensures Cut(r).end == r.end && Cut(r).f == r.f
  {
  }

  ghost predicate BeforeHeaders(f: Fields, d: string, n: nat)
    requires n <= |d|
  {
    forall i :: 0 <= i < n ==> Single(f, d, i).f.state != Header(HeaderFieldStart)
  }

  lemma MoreBefore(f: Fields, d: string, n: nat)
    requires n < |d| && Single(f, d, n + 1).end == More
    ensures Single(f, d, n).end == More
  {
    hide RunSwitch, Bytewise, Begin;
    SingleStep(f, d, n);
  }

  lemma PartStates(p: Part, g: Fields)
    requires Shaped(p, g)
    ensures !p.Whole? ==> NoJump(g.state)
    ensures p.Whole? <==> g.state == Header(HeaderFieldStart)
  {
    hide HttpMethod.Matched, TargetRead, LineRead;
    MatchedState(p, g);
  }

  lemma MatchedState(p: Part, g: Fields)
    ensures p.Naming? && HttpMethod.Matched(g, p.name) ==> g.state == Method
  {
  }

  lemma NoneRead(f: Fields)
    requires f.state == Start(StartReq)
    ensures Shaped(Leading(""), f) && PartText(Leading("")) == ""
  {
  }

  lemma {:induction false} RequestShape(f: Fields, d: string, n: nat) returns (p: Part)
    requires f.state == Start(StartReq) && n <= |d| && Single(f, d, n).end == More && BeforeHeaders(f, d, n)
    ensures Shaped(p, Single(f, d, n).f) && PartText(p) == d[..n]
    decreases n
  {
    hide Shaped, Switch, PartText, Bytewise, Begin, NoJump, StepRun;
    if n == 0 {
      p := Leading("");
      BeginMore(f, d);
      BeginFields(f);
      NoneRead(f);
    } else {
      MoreBefore(f, d, n - 1);
      var q := RequestShape(f, d, n - 1);
      var g := Single(f, d, n - 1).f;
      PartStates(q, g);
      NextTaken(f, d, n - 1);
      p := PartStep(q, g, d[n - 1]);
      assert d[..n] == d[..n - 1] + [d[n - 1]];
    }
  }

  lemma {:induction false} BlankLines(f: Fields, s: string)
    requires Inv(f) && f.errno == OK && (f.state == Start(StartReq) || f.state == Start(Dead)) && AllEnds(s)
    ensures Runs(f, s, f, [])
    decreases |s|
  {
    hide Inv, Runs;
    if s == "" {
      RunsNothing(f);
    } else {
      var k := |s| - 1;
      BlankLines(f, s[..k]);
      QuietMore(f, s[..k], f, [], s[k], f);
      assert s[..k] + [s[k]] == s;
    }
  }

  /** The run over a text arrives at the headers behind its last byte. */
  ghost predicate Arrives(f: Fields, d: string) {
    var r := Single(f, d, |d|);
    r.end == More && r.f.state == Header(HeaderFieldStart) && BeforeHeaders(f, d, |d|)
  }

  /** Only request lines, perhaps behind line ends that are skipped, lead a request parser to
      the headers, and they do it with the events and the fields they say. */
  lemma RequestLineOnly(f: Fields, d: string) returns (lead: string, l: RequestLine)
    requires Inv(f) && f.errno == OK && f.state == Start(StartReq) && Arrives(f, d)
    ensures AllEnds(lead) && RequestLineOk(l) && d == lead + RequestText(l)
    ensures Single(f, d, |d|).m.evs == RequestEvents(l) && Same(Single(f, d, |d|).f, Requested(f, l))
  {
    hide Inv, Bytewise, Begin, RequestText, RequestEvents, Requested, IsTarget, AllEnds, AllSpaces, VersionOk, Plain,
      Same;
    var p := RequestShape(f, d, |d|);
    PartStates(p, Single(f, d, |d|).f);
    lead, l := p.lead, p.line;
    assert d[..|d|] == d;
    BlankLines(f, lead);
    var g := RequestLineRuns(f, l);
    RunsJoin(f, lead, f, [], RequestText(l), g, RequestEvents(l));
    assert [] + RequestEvents(l) == RequestEvents(l);
  }

  // ----- Status lines

  /** How far a status line has been read. */
  datatype Reply =
    | Waiting(lead: string)
    | Opening(lead: string, version: string)
    | Coding(lead: string, line: ResponseLine)
    | Counting(lead: string, line: ResponseLine)
    | Turning(lead: string, line: ResponseLine)
    | Reasoning(lead: string, line: ResponseLine)
    | Closing(lead: string, line: ResponseLine)
    | Done(lead: string, line: ResponseLine)

  function ReasonText(l: ResponseLine): string { if l.reason.Some? then " " + l.reason.value else "" }

  function ReplyText(p: Reply): string {
    match p
    case Waiting(lead) => lead
    case Opening(lead, v) => lead + v
    case Coding(lead, l) => lead + CodeFront(l)
    case Counting(lead, l) => lead + (CodeFront(l) + l.code)
    case Turning(lead, l) => lead + (CodeFront(l) + l.code + " ")
    case Reasoning(lead, l) => lead + (CodeFront(l) + l.code + ReasonText(l))
    case Closing(lead, l) => lead + StatusText(l)
    case Done(lead, l) => lead + StatusText(l)
  }

  predicate OpeningPart(s: StatusLineState, v: string) {
    match s
    case ResH => v == "H"
    case ResHT => v == "HT"
    case ResHTT => v == "HTT"
    case ResHTTP => v == "HTTP"
    case ResHttpMajor => v == "HTTP/"
    case ResHttpDot => |v| == 6 && v[..5] == "HTTP/" && IsNum(v[5])
    case ResHttpMinor => |v| == 7 && v[..5] == "HTTP/" && IsNum(v[5]) && v[6] == '.'
    case ResHttpEnd => |v| == 8 && v[..5] == "HTTP/" && IsNum(v[5]) && v[6] == '.' && IsNum(v[7])
    case _ => false
  }

  predicate FrontRead(l: ResponseLine) { VersionOk(l.major, l.minor) && AllSpaces(l.gap) }

  predicate CodeRead(l: ResponseLine) {
    FrontRead(l) && l.code != "" && HttpLength.IsDigits(l.code) && Decimal(l.code) <= MAX_STATUS
  }

  predicate ReasonRead(l: ResponseLine) { CodeRead(l) && (l.reason.Some? ==> IsReason(l.reason.value)) }

  predicate Formed(p: Reply, g: Fields) {
    AllEnds(p.lead) &&
    match p
    case Waiting(_) => g.state == Start(StartRes)
    case Opening(_, v) => g.state.StatusLine? && OpeningPart(g.state.status, v)
    case Coding(_, l) => g.state == StatusLine(ResFirstStatusCode) && FrontRead(l)
    case Counting(_, l) => g.state == StatusLine(ResStatusCode) && CodeRead(l) && g.statusCode == Decimal(l.code)
    case Turning(_, l) => g.state == StatusLine(ResStatusStart) && CodeRead(l)
    case Reasoning(_, l) => g.state == StatusLine(ResStatus) && ReasonRead(l) && l.reason.Some?
    case Closing(_, l) => g.state == StatusLine(ResLineAlmostDone) && ReasonRead(l) && l.eol == "\r"
    case Done(_, l) => g.state == Header(HeaderFieldStart) && ReasonRead(l) && IsEol(l.eol)
  }

  /** The fields behind a byte, jumps included. */
  function Onto(g: Fields, ch: char): Fields { RunSwitch(g, Marks(InitialMark(g.state), 0, []), ch, false).f }

  predicate Goes(g: Fields, ch: char) { RunSwitch(g, Marks(InitialMark(g.state), 0, []), ch, false).end == More }

  predicate Extends(p: Reply, q: Reply, ch: char, h: Fields) {
    Formed(q, h) && ReplyText(q) == ReplyText(p) + [ch]
  }

  const NO_REPLY: ResponseLine := ResponseLine('0', '0', "", "", None, "")

  /** Without a jump. */
  lemma OntoNext(g: Fields, ch: char)
    ensures Switch(g, ch, false).Next? ==> Goes(g, ch) && Onto(g, ch) == Switch(g, ch, false).f
    ensures Goes(g, ch) ==> Switch(g, ch, false).Next? || Switch(g, ch, false).Again?
  {
    hide Switch, ApplyAct, InitialMark;
  }

  lemma OpeningSwitch(g: Fields, v: string, ch: char)
    requires g.state.StatusLine? && OpeningPart(g.state.status, v)
    ensures var s := Switch(g, ch, false);
      s.Fail? ||
      (s.Next? && s.f.state.StatusLine? &&
       if g.state.status.ResHttpEnd? then ch == ' ' && s.f.state.status == ResFirstStatusCode
       else OpeningPart(s.f.state.status, v + [ch]))
  {
    var u := v + [ch];
    assert u[..|v|] == v && u[|v|] == ch;
    if |v| >= 5 { assert u[..5] == v[..5]; }
  }

  lemma WaitStep(p: Reply, g: Fields, ch: char) returns (q: Reply)
    requires p.Waiting? && Formed(p, g) && Goes(g, ch)
    ensures Extends(p, q, ch, Onto(g, ch))
  {
    hide ApplyAct;
    OntoNext(g, ch);
    AllMore(p.lead, ch);
    q := if IsLineEnd(ch) then Waiting(p.lead + [ch]) else Opening(p.lead, [ch]);
  }

  lemma OpenStep(p: Reply, g: Fields, ch: char) returns (q: Reply)
    requires p.Opening? && Formed(p, g) && Goes(g, ch)
    ensures Extends(p, q, ch, Onto(g, ch))
  {
    hide Switch, Onto, Goes, OpeningPart, AllSpaces;
    OntoNext(g, ch);
    OpeningSwitch(g, p.version, ch);
    if g.state.status.ResHttpEnd? {
      OpeningWhole(p.version);
      NoSpaces();
      var l := NO_REPLY.(major := p.version[5], minor := p.version[7]);
      q := Coding(p.lead, l);
      assert CodeFront(l) == p.version + " ";
      assert p.lead + (p.version + " ") == p.lead + p.version + [ch];
    } else {
      q := Opening(p.lead, p.version + [ch]);
      assert p.lead + (p.version + [ch]) == p.lead + p.version + [ch];
    }
  }

  lemma OpeningWhole(v: string)
    requires OpeningPart(ResHttpEnd, v)
    ensures |v| == 8 && VersionOk(v[5], v[7]) && v == VersionText(v[5], v[7])
  {
    assert v == v[..5] + [v[5]] + [v[6]] + [v[7]];
  }

  lemma FirstCode(l: ResponseLine, ch: char)
    requires FrontRead(l) && IsNum(ch)
    ensures CodeRead(l.(code := [ch])) && Decimal([ch]) == Digit(ch)
  {
    assert [ch][..0] == "" && [ch][0] == ch;
    assert Decimal("") == 0;
  }

  lemma CodeStep(p: Reply, g: Fields, ch: char) returns (q: Reply)
    requires p.Coding? && Formed(p, g) && Goes(g, ch)
    ensures Extends(p, q, ch, Onto(g, ch))
  {
    hide AllSpaces, Decimal, VersionText, CodeRead;
    OntoNext(g, ch);
    var l := p.line;
    AllMore(l.gap, ch);
    if ch == ' ' {
      q := Coding(p.lead, l.(gap := l.gap + [ch]));
      assert CodeFront(q.line) == CodeFront(l) + [ch];
    } else {
      FirstCode(l, ch);
      q := Counting(p.lead, l.(code := [ch]));
      assert CodeFront(q.line) == CodeFront(l);
    }
    assert p.lead + (CodeFront(l) + [ch]) == p.lead + CodeFront(l) + [ch];
  }

  lemma CodeMoreRead(l: ResponseLine, ch: char)
    requires CodeRead(l) && IsNum(ch) && 10 * Decimal(l.code) + Digit(ch) <= MAX_STATUS
    ensures var m := l.(code := l.code + [ch]); CodeRead(m) && Decimal(m.code) == 10 * Decimal(l.code) + Digit(ch)
  {
    hide VersionOk, AllSpaces;
    var c := l.code + [ch];
    assert c[..|c| - 1] == l.code && c[|c| - 1] == ch && forall i :: 0 <= i < |l.code| ==> c[i] == l.code[i];
  }

  lemma CountStep(p: Reply, g: Fields, ch: char) returns (q: Reply)
    requires p.Counting? && Formed(p, g) && Goes(g, ch) && !IsLineEnd(ch)
    ensures Extends(p, q, ch, Onto(g, ch))
  {
    hide AllSpaces, Decimal, CodeFront, CodeRead;
    OntoNext(g, ch);
    var l := p.line;
    if ch == ' ' {
      q := Turning(p.lead, l);
    } else {
      CodeMoreRead(l, ch);
      q := Counting(p.lead, l.(code := l.code + [ch]));
      SameFront(l, q.line);
    }
    assert p.lead + (CodeFront(l) + l.code + [ch]) == p.lead + (CodeFront(l) + l.code) + [ch];
    assert CodeFront(l) + (l.code + [ch]) == CodeFront(l) + l.code + [ch];
  }

  lemma SameFront(l: ResponseLine, m: ResponseLine)
    requires l.major == m.major && l.minor == m.minor && l.gap == m.gap
    ensures CodeFront(l) == CodeFront(m) && FrontRead(l) == FrontRead(m)
    ensures l.code == m.code ==> CodeRead(l) == CodeRead(m)
  {
  }

  lemma ReasonStep(p: Reply, g: Fields, ch: char) returns (q: Reply)
    requires (p.Turning? || p.Reasoning?) && Formed(p, g) && Goes(g, ch) && !IsLineEnd(ch)
    ensures Extends(p, q, ch, Onto(g, ch))
  {
    hide AllSpaces, CodeFront, CodeRead;
    OntoNext(g, ch);
    var l := p.line;
    var r := if p.Turning? then "" else l.reason.value;
    var m := l.(reason := Some(r + [ch]));
    q := Reasoning(p.lead, m);
    SameFront(l, m);
    AllMore(r, ch);
    NoReason();
    var c := CodeFront(l) + l.code;
    assert ReasonText(m) == " " + r + [ch];
    assert c + (" " + r + [ch]) == c + (" " + r) + [ch];
    assert c + " " + [ch] == c + (" " + [ch]);
    assert " " + ("" + [ch]) == " " + [ch];
    assert p.lead + (c + (" " + r) + [ch]) == p.lead + (c + (" " + r)) + [ch];
    assert p.lead + (c + " " + [ch]) == p.lead + (c + " ") + [ch];
  }

  lemma NoReason()
    ensures IsReason("")
  {
  }

  /** The line end behind the code or the reason. */
  lemma StopStep(p: Reply, g: Fields, ch: char) returns (q: Reply)
    requires (p.Counting? || p.Turning? || p.Reasoning?) && Formed(p, g) && IsLineEnd(ch)
    ensures Goes(g, ch) && Extends(p, q, ch, Onto(g, ch))
  {
    hide AllSpaces, CodeFront, CodeRead, Switch, IsReason, Decimal;
    var l := p.line;
    var m := l.(eol := [ch], reason := if p.Counting? then None else if p.Turning? then Some("") else l.reason);
    q := if ch == '\r' then Closing(p.lead, m) else Done(p.lead, m);
    StopChain(g, ch);
    NoReason();
    SameFront(l, m);
    var c := CodeFront(l) + l.code;
    assert StatusText(m) == c + ReasonText(m) + [ch];
    assert c + "" == c && " " + "" == " ";
    assert p.lead + (c + ReasonText(m) + [ch]) == p.lead + (c + ReasonText(m)) + [ch];
  }

  lemma StopChain(g: Fields, ch: char)
    requires StatusMayEnd(g.state) && IsLineEnd(ch)
    ensures Goes(g, ch)
    ensures Onto(g, ch).state == if ch == '\r' then StatusLine(ResLineAlmostDone) else Header(HeaderFieldStart)
  {
    hide Switch;
    ReasonChain(g, ch);
    CodeEnds(g);
    if g.state == StatusLine(ResStatusCode) {
      assert At(g, ResStatusCode) == g;
    } else if g.state == StatusLine(ResStatusStart) {
      assert At(g, ResStatusStart) == g;
    }
  }

  lemma CloseStep(p: Reply, g: Fields, ch: char) returns (q: Reply)
    requires p.Closing? && Formed(p, g) && Goes(g, ch)
    ensures Extends(p, q, ch, Onto(g, ch))
  {
    hide AllSpaces, CodeFront, CodeRead, IsReason;
    OntoNext(g, ch);
    var l := p.line;
    var m := l.(eol := "\r\n");
    q := Done(p.lead, m);
    SameFront(l, m);
    var c := CodeFront(l) + l.code + ReasonText(l);
    assert StatusText(l) == c + "\r" && StatusText(m) == c + "\r\n" == c + "\r" + ['\n'];
    assert p.lead + (c + "\r" + ['\n']) == p.lead + (c + "\r") + ['\n'];
  }

  lemma ReplyStep(p: Reply, g: Fields, ch: char) returns (q: Reply)
    requires Formed(p, g) && !p.Done? && Goes(g, ch)
    ensures Extends(p, q, ch, Onto(g, ch))
  {
    hide Formed, Goes, Onto, ReplyText;
    match p
    case Waiting(_) => q := WaitStep(p, g, ch);
    case Opening(_, _) => q := OpenStep(p, g, ch);
    case Coding(_, _) => q := CodeStep(p, g, ch);
    case Counting(_, _) => if IsLineEnd(ch) { q := StopStep(p, g, ch); } else { q := CountStep(p, g, ch); }
    case Turning(_, _) => if IsLineEnd(ch) { q := StopStep(p, g, ch); } else { q := ReasonStep(p, g, ch); }
    case Reasoning(_, _) => if IsLineEnd(ch) { q := StopStep(p, g, ch); } else { q := ReasonStep(p, g, ch); }
    case Closing(_, _) => q := CloseStep(p, g, ch);
  }

  /** A byte of the run, jumps included. */
  lemma OntoSingle(f: Fields, d: string, n: nat)
    requires n < |d| && Single(f, d, n + 1).end == More && Inv(f) && f.errno == OK
    ensures var g := Single(f, d, n).f; Goes(g, d[n]) && Onto(g, d[n]) == Single(f, d, n + 1).f
  {
    hide InGeneral, Bytewise, Begin, InitialMark, RunSwitch, Inv, HeldOk;
    MoreBefore(f, d, n);
    var r := Single(f, d, n);
    SingleStep(f, d, n);
    SingleOk(f, d, n);
    CutFacts(r);
    CutMarks(r);
    var m := Marks(InitialMark(r.f.state), 0, []);
    SingleOk(f, d, n);
    ChainBehind(r.m.evs, r.f, m, d[n], false);
    assert r.m.evs + [] == r.m.evs;
  }

  lemma CutMarks(r: Run)
    requires r.end == More
    ensures Cut(r).m == Marks(InitialMark(r.f.state), 0, r.m.evs)
  {
  }

  lemma ReplyStates(p: Reply, g: Fields)
    requires Formed(p, g)
    ensures p.Done? <==> g.state == Header(HeaderFieldStart)
  {
    hide FrontRead, CodeRead, ReasonRead;
  }

  lemma NothingRead(f: Fields)
    requires f.state == Start(StartRes)
    ensures Formed(Waiting(""), f) && ReplyText(Waiting("")) == ""
  {
  }

  lemma {:induction false} ReplyShape(f: Fields, d: string, n: nat) returns (p: Reply)
    requires Inv(f) && f.errno == OK && f.state == Start(StartRes) && n <= |d|
    requires Single(f, d, n).end == More && BeforeHeaders(f, d, n)
    ensures Formed(p, Single(f, d, n).f) && ReplyText(p) == d[..n]
    decreases n
  {
    hide Formed, Switch, ReplyText, Bytewise, Begin, StepRun, Inv, Onto, Goes, InGeneral;
    if n == 0 {
      p := Waiting("");
      BeginMore(f, d);
      BeginFields(f);
      NothingRead(f);
    } else {
      MoreBefore(f, d, n - 1);
      var q := ReplyShape(f, d, n - 1);
      var g := Single(f, d, n - 1).f;
      ReplyStates(q, g);
      OntoSingle(f, d, n - 1);
      p := ReplyStep(q, g, d[n - 1]);
      assert d[..n] == d[..n - 1] + [d[n - 1]];
    }
  }

  /** So many messages are announced. */
  function Begins(n: nat): seq<Event> { seq(n, i => Note(MessageBegin)) }

  lemma {:induction false} BlankReplies(f: Fields, s: string) returns (g: Fields)
    requires Inv(f) && f.errno == OK && f.state == Start(StartRes) && AllEnds(s)
    ensures Runs(f, s, g, Begins(|s|)) && g == if s == "" then f else Fresh(f)
    decreases |s|
  {
    hide Inv, Runs;
    if s == "" {
      g := f;
      RunsNothing(f);
      assert Begins(0) == [];
    } else {
      var k := |s| - 1;
      var h := BlankReplies(f, s[..k]);
      g := Fresh(f);
      BeginRuns(h, s[k], g);
      RunsJoin(f, s[..k], h, Begins(k), [s[k]], g, [Note(MessageBegin)]);
      assert s[..k] + [s[k]] == s && Begins(k) + [Note(MessageBegin)] == Begins(|s|);
    }
  }

  lemma FreshResponded(f: Fields, l: ResponseLine)
    requires StatusLineOk(l)
    ensures Responded(Fresh(f), l) == Responded(f, l)
  {
  }

  /** Only status lines lead a response parser to the headers; each line end in front of one
      announces a message of its own. */
  lemma StatusLineOnly(f: Fields, d: string) returns (lead: string, l: ResponseLine)
    requires Inv(f) && f.errno == OK && f.state == Start(StartRes) && Arrives(f, d)
    ensures AllEnds(lead) && StatusLineOk(l) && Decimal(l.code) <= MAX_STATUS && d == lead + StatusText(l)
    ensures Single(f, d, |d|).m.evs == Begins(|lead|) + StatusEvents(l) && Same(Single(f, d, |d|).f, Responded(f, l))
  {
    hide Inv, Bytewise, Begin, StatusText, StatusEvents, Responded, AllEnds, AllSpaces, VersionOk, Plain, Same, Decimal,
      IsReason, Fresh, Begins;
    var p := ReplyShape(f, d, |d|);
    ReplyStates(p, Single(f, d, |d|).f);
    lead, l := p.lead, p.line;
    assert d[..|d|] == d;
    var h := BlankReplies(f, lead);
    RunsInv(f, lead, h, Begins(|lead|));
    BlankState(f, h);
    var g := StatusLineRuns(h, l);
    RunsJoin(f, lead, h, Begins(|lead|), StatusText(l), g, StatusEvents(l));
    FreshResponded(f, l);
  }

  lemma BlankState(f: Fields, h: Fields)
    ensures h == f || h == Fresh(f) ==> h.state == f.state
  {
  }

  // ----- Header lines

  /** How far a header line has been read. */
  datatype Piece =
    | Blank
    | Name(name: string)
    | Gap(line: Line)
    | GapEnd(line: Line)
    | InValue(line: Line)
    | ValueEnd(line: Line)
    | Ended(line: Line)

  function PieceText(p: Piece): string {
    match p
    case Blank => ""
    case Name(name) => name
    case Gap(l) => l.name + ":" + l.gap
    case GapEnd(l) => l.name + ":" + l.gap + "\r"
    case InValue(l) => l.name + ":" + l.gap + l.value
    case ValueEnd(l) => l.name + ":" + l.gap + l.value + "\r"
    case Ended(l) => TextOf(l)
  }

  predicate Read(l: Line, lenient: bool) { IsName(l.name) && AllWhite(l.gap) && HttpValue.IsValue(l.value, lenient) }

  predicate Written(p: Piece, g: Fields) {
    match p
    case Blank => g.state == Header(HeaderFieldStart)
    case Name(name) => g.state == Header(HeaderField) && IsName(name)
    case Gap(l) => g.state == Header(HeaderValueDiscardWs) && Read(l, g.lenient) && l.value == ""
    case GapEnd(l) => g.state == Header(HeaderValueDiscardWsAlmostDone) && Read(l, g.lenient) && l.value == ""
    case InValue(l) => g.state == Header(HeaderValue) && Read(l, g.lenient) && l.value != ""
    case ValueEnd(l) => g.state == Header(HeaderAlmostDone) && Read(l, g.lenient)
    case Ended(l) => Pending(g) && LineOk(l, g.lenient)
  }

  predicate Adds(p: Piece, q: Piece, ch: char, g: Fields, h: Fields) {
    Written(q, h) && PieceText(q) == PieceText(p) + [ch] && h.lenient == g.lenient
  }

  lemma NameMore(s: string, ch: char)
    ensures s == "" || IsName(s) ==> (IsName(s + [ch]) <==> Token(ch) != '\0')
    ensures AllWhite(s + [ch]) <==> AllWhite(s) && IsWhite(ch)
    ensures AllWhite("")
  {
    hide Token;
    var t := s + [ch];
    assert t[|s|] == ch && forall i :: 0 <= i < |s| ==> t[i] == s[i];
  }

  lemma ValueGrows(v: string, ch: char, lenient: bool)
    ensures v != "" && HttpValue.IsValue(v, lenient) && HttpValue.IsValueByte(ch, lenient) ==>
      HttpValue.IsValue(v + [ch], lenient)
    ensures ch != ' ' && ch != '\t' && !IsLineEnd(ch) ==> HttpValue.IsValue([ch], lenient)
  {
    hide HttpValue.IsValueByte;
    var t := v + [ch];
    assert t[|v|] == ch && forall i :: 0 <= i < |v| ==> t[i] == v[i];
  }

  lemma FieldStep(p: Piece, g: Fields, ch: char) returns (q: Piece)
    requires (p.Blank? || p.Name?) && Written(p, g) && Goes(g, ch) && !IsLineEnd(ch)
    ensures Adds(p, q, ch, g, Onto(g, ch))
  {
    hide Onto, Goes, Token, FieldByte, IsName;
    OntoNext(g, ch);
    var s := if p.Blank? then "" else p.name;
    NameMore(s, ch);
    FieldMoves(g, ch);
    assert "" + [ch] == [ch];
    if ch == ':' {
      q := Gap(Line.Line(s, "", "", ""));
      assert s + ":" + "" == s + [ch];
    } else {
      q := Name(s + [ch]);
    }
  }

  lemma FieldMoves(g: Fields, ch: char)
    requires (g.state == Header(HeaderFieldStart) || g.state == Header(HeaderField)) && !IsLineEnd(ch)
    ensures var s := Switch(g, ch, false);
      s.Next? ==>
        s.f.lenient == g.lenient &&
        if ch == ':' then g.state == Header(HeaderField) && s.f.state == Header(HeaderValueDiscardWs)
        else s.f.state == Header(HeaderField) && Token(ch) != '\0'
    ensures !Switch(g, ch, false).Again?
  {
  }

  lemma GapMoves(g: Fields, ch: char)
    requires g.state == Header(HeaderValueDiscardWs)
    ensures var s := Switch(g, ch, false);
      !s.Again? &&
      (s.Next? ==>
        s.f.lenient == g.lenient &&
        if IsWhite(ch) then s.f.state == g.state
        else if ch == '\r' then s.f.state == Header(HeaderValueDiscardWsAlmostDone)
        else if ch == '\n' then s.f.state == Header(HeaderValueDiscardLws)
        else s.f.state == Header(HeaderValue))
  {
  }

  lemma GapStep(p: Piece, g: Fields, ch: char) returns (q: Piece)
    requires p.Gap? && Written(p, g) && Goes(g, ch)
    ensures Adds(p, q, ch, g, Onto(g, ch))
  {
    hide Onto, Goes, IsName, AllWhite, HttpValue.IsValueByte;
    OntoNext(g, ch);
    GapMoves(g, ch);
    var l := p.line;
    var front := l.name + ":" + l.gap;
    NameMore(l.gap, ch);
    ValueGrows("", ch, g.lenient);
    if IsWhite(ch) {
      q := Gap(l.(gap := l.gap + [ch]));
      assert l.name + ":" + (l.gap + [ch]) == front + [ch];
    } else if ch == '\r' {
      q := GapEnd(l);
    } else if ch == '\n' {
      q := Ended(l.(eol := "\n"));
      assert front + "" + "\n" == front + [ch];
    } else {
      q := InValue(l.(value := [ch]));
    }
  }

  lemma GapEndStep(p: Piece, g: Fields, ch: char) returns (q: Piece)
    requires p.GapEnd? && Written(p, g) && Goes(g, ch)
    ensures Adds(p, q, ch, g, Onto(g, ch))
  {
    hide IsName, AllWhite, HttpValue.IsValueByte;
    OntoNext(g, ch);
    var l := p.line;
    var front := l.name + ":" + l.gap;
    q := Ended(l.(eol := "\r\n"));
    assert front + "" + "\r\n" == front + "\r" + ['\n'];
  }

  lemma ValueMoves(g: Fields, ch: char)
    requires g.state == Header(HeaderValue)
    ensures var s := Switch(g, ch, false);
      var a := To(g, Header(HeaderAlmostDone));
      (ch == '\r' ==> s == Next(a, Flushing(HttpTypes.Value))) &&
      (ch == '\n' ==> s == Again(a, Flushing(HttpTypes.Value))) &&
      (!IsLineEnd(ch) ==> !s.Again?) &&
      (!IsLineEnd(ch) && s.Next? ==>
        s.f.state == g.state && s.f.lenient == g.lenient && HttpValue.IsValueByte(ch, g.lenient))
    ensures Switch(To(g, Header(HeaderAlmostDone)), '\n', false) == Next(To(g, Header(HeaderValueLws)), NOTHING)
  {
    hide ValueByte;
    if !IsLineEnd(ch) { ValueByteKeeps(g, ch); }
  }

  lemma ValueByteKeeps(g: Fields, ch: char)
    ensures var r := ValueByte(g, ch); r.Scanned? ==> r.f.state == g.state && r.f.lenient == g.lenient
  {
    hide Lower, Token;
  }

  lemma ValueStop(g: Fields)
    requires g.state == Header(HeaderValue)
    ensures Onto(g, '\n') == To(g, Header(HeaderValueLws))
  {
    hide Switch, ApplyAct;
    ValueMoves(g, '\n');
    var a, m := To(g, Header(HeaderAlmostDone)), Marks(InitialMark(g.state), 0, []);
    assert RunSwitch(a, ApplyAct(m, Flushing(HttpTypes.Value), '\n'), '\n', false).f == To(a, Header(HeaderValueLws));
  }

  lemma ValueStep(p: Piece, g: Fields, ch: char) returns (q: Piece)
    requires p.InValue? && Written(p, g) && Goes(g, ch)
    ensures Adds(p, q, ch, g, Onto(g, ch))
  {
    hide Switch, IsName, AllWhite, HttpValue.IsValue, HttpValue.IsValueByte;
    OntoNext(g, ch);
    ValueMoves(g, ch);
    var l := p.line;
    var front := l.name + ":" + l.gap;
    if ch == '\r' {
      q := ValueEnd(l);
    } else if ch == '\n' {
      q := Ended(l.(eol := "\n"));
      ValueStop(g);
    } else {
      ValueGrows(l.value, ch, g.lenient);
      q := InValue(l.(value := l.value + [ch]));
      assert front + (l.value + [ch]) == front + l.value + [ch];
    }
  }

  lemma ValueEndStep(p: Piece, g: Fields, ch: char) returns (q: Piece)
    requires p.ValueEnd? && Written(p, g) && Goes(g, ch)
    ensures Adds(p, q, ch, g, Onto(g, ch))
  {
    hide IsName, AllWhite, HttpValue.IsValue;
    OntoNext(g, ch);
    var l := p.line;
    q := Ended(l.(eol := "\r\n"));
    var front := l.name + ":" + l.gap + l.value;
    assert front + "\r\n" == front + "\r" + ['\n'];
  }

  /** The run is inside a header line, or at its start. */
  predicate InLine(g: Fields) { g.state.Header? && !Pending(g) && g.state != Header(HeaderValueStart) }

  lemma FieldStartEnds(g: Fields, ch: char)
    requires g.state == Header(HeaderFieldStart) && IsLineEnd(ch) && Goes(g, ch)
    ensures !Onto(g, ch).state.Header?
  {
    hide ApplyAct, NewMessage;
    if ch == '\n' {
      var a := To(g, HeadersEnd(HeadersAlmostDone));
      assert Switch(g, ch, false) == Again(a, NOTHING);
      LeavesHeader(a, ApplyAct(Marks(None, 0, []), NOTHING, ch), ch);
    }
  }

  lemma LeavesHeader(a: Fields, m: Marks, ch: char)
    requires a.state.HeadersEnd? || a.state.Payload?
    ensures RunSwitch(a, m, ch, false).end == More ==> !RunSwitch(a, m, ch, false).f.state.Header?
    decreases Rank(a.state)
  {
    hide ApplyAct, NewMessage;
    EndMoves(a, ch);
    var s := Switch(a, ch, false);
    if s.Again? && Rank(s.f.state) < Rank(a.state) {
      LeavesHeader(s.f, ApplyAct(m, s.act, ch), ch);
    }
  }

  lemma EndMoves(a: Fields, ch: char)
    requires a.state.HeadersEnd? || a.state.Payload?
    ensures var s := Switch(a, ch, false);
      (s.Next? ==> !s.f.state.Header?) && (s.Again? ==> s.f.state.HeadersEnd? || s.f.state.Payload?)
  {
    hide ShouldKeepAlive;
  }

  lemma PieceStep(p: Piece, g: Fields, ch: char) returns (q: Piece)
    requires Written(p, g) && !p.Ended? && Goes(g, ch) && Onto(g, ch).state.Header?
    ensures Adds(p, q, ch, g, Onto(g, ch))
  {
    hide Goes, Onto, PieceText;
    match p
    case Blank =>
      if IsLineEnd(ch) { FieldStartEnds(g, ch); }
      q := FieldStep(p, g, ch);
    case Name(_) =>
      NoNameEnd(g, ch);
      q := FieldStep(p, g, ch);
    case Gap(_) => q := GapStep(p, g, ch);
    case GapEnd(_) => q := GapEndStep(p, g, ch);
    case InValue(_) => q := ValueStep(p, g, ch);
    case ValueEnd(_) => q := ValueEndStep(p, g, ch);
  }

  lemma NoNameEnd(g: Fields, ch: char)
    requires g.state == Header(HeaderField) && Goes(g, ch)
    ensures !IsLineEnd(ch)
  {
    hide FieldByte, ApplyAct;
  }

  lemma PieceStates(p: Piece, g: Fields)
    requires Written(p, g)
    ensures p.Ended? <==> Pending(g)
  {
    hide Read, LineOk, IsName;
  }

  ghost predicate InLineUntil(f: Fields, d: string, n: nat)
    requires n <= |d|
  {
    forall i :: 0 <= i < n ==> InLine(Single(f, d, i).f)
  }

  lemma {:induction false} PieceShape(f: Fields, d: string, n: nat) returns (p: Piece)
    requires Inv(f) && f.errno == OK && f.state == Header(HeaderFieldStart) && n <= |d|
    requires Single(f, d, n).end == More && InLineUntil(f, d, n) && Single(f, d, n).f.state.Header?
    ensures Written(p, Single(f, d, n).f) && PieceText(p) == d[..n] && Single(f, d, n).f.lenient == f.lenient
    decreases n
  {
    hide Written, Switch, PieceText, Bytewise, Begin, StepRun, Inv, Onto, Goes, Pending;
    if n == 0 {
      p := Blank;
      BeginMore(f, d);
      BeginFields(f);
      BlankWritten(f);
    } else {
      MoreBefore(f, d, n - 1);
      assert InLine(Single(f, d, n - 1).f);
      var q := PieceShape(f, d, n - 1);
      var g := Single(f, d, n - 1).f;
      PieceStates(q, g);
      OntoSingle(f, d, n - 1);
      p := PieceStep(q, g, d[n - 1]);
      assert d[..n] == d[..n - 1] + [d[n - 1]];
    }
  }

  lemma BlankWritten(f: Fields)
    requires f.state == Header(HeaderFieldStart)
    ensures Written(Blank, f) && PieceText(Blank) == ""
  {
  }

  /** Only header lines that are not refused lead to the end of a header line, and they do it
      with the events and the fields they say. */
  lemma HeaderLineOnly(f: Fields, d: string) returns (l: Line)
    requires Inv(f) && f.errno == OK && f.state == Header(HeaderFieldStart) && InLineUntil(f, d, |d|)
    requires Single(f, d, |d|).end == More && HttpLine.Pending(Single(f, d, |d|).f)
    ensures LineOk(l, f.lenient) && d == TextOf(l) && Refusal(f, l).None?
    ensures Single(f, d, |d|).m.evs == EventsOf(l) && Same(Settle(Single(f, d, |d|).f), Effect(f, l))
  {
    hide Inv, Bytewise, Begin, LineOk, TextOf, EventsOf, Refusal, Effect, Settle, Plain, Same;
    var p := PieceShape(f, d, |d|);
    PieceStates(p, Single(f, d, |d|).f);
    l := p.line;
    assert d[..|d|] == d;
    NotRefused(f, l);
    var g := LineRuns(f, l);
  }

  lemma NotRefused(f: Fields, l: Line)
    requires Inv(f) && f.errno == OK && f.state == Header(HeaderFieldStart) && LineOk(l, f.lenient)
    requires Single(f, TextOf(l), |TextOf(l)|).end == More
    ensures Refusal(f, l).None?
  {
    hide Inv, Bytewise, Begin, LineOk, TextOf, Refusal;
    assert TextOf(l) + "" == TextOf(l);
    if Refusal(f, l).Some? { LineFails(f, l, ""); }
  }

  /** Only an empty line leads from the start of a header line out of the headers. */
  lemma EmptyLineOnly(f: Fields, d: string)
    requires Inv(f) && f.errno == OK && f.state == Header(HeaderFieldStart) && d != "" && Single(f, d, |d|).end == More
    requires forall i :: 0 < i < |d| ==> Single(f, d, i).f.state == HeadersEnd(HeadersAlmostDone)
    requires !Single(f, d, |d|).f.state.Header? && !Single(f, d, |d|).f.state.HeadersEnd?
    ensures IsEol(d)
  {
    hide Bytewise, Begin, Inv, Onto, Goes;
    BeginMore(f, d);
    BeginFields(f);
    MoreAt(f, d, 1);
    OntoSingle(f, d, 0);
    StartOnto(f, d[0]);
    if |d| > 1 {
      MoreAt(f, d, 2);
      OntoSingle(f, d, 1);
      OnlyLf(Single(f, d, 1).f, d[1]);
      assert |d| == 2;
      assert d == [d[0]] + [d[1]];
    } else {
      assert d == [d[0]];
    }
  }

  lemma {:induction false} MoreAt(f: Fields, d: string, n: nat)
    requires n <= |d| && Single(f, d, |d|).end == More
    ensures Single(f, d, n).end == More
    decreases |d| - n
  {
    hide Bytewise, Begin;
    if n < |d| {
      MoreAt(f, d, n + 1);
      MoreBefore(f, d, n);
    }
  }

  lemma StartOnto(g: Fields, ch: char)
    requires g.state == Header(HeaderFieldStart) && Goes(g, ch)
    ensures ch == '\r' ==> Onto(g, ch).state == HeadersEnd(HeadersAlmostDone)
    ensures ch == '\n' ==> !Onto(g, ch).state.Header? && !Onto(g, ch).state.HeadersEnd?
    ensures !IsLineEnd(ch) ==> Onto(g, ch).state.Header?
  {
    hide ApplyAct, NewMessage;
    if ch == '\n' {
      var a := To(g, HeadersEnd(HeadersAlmostDone));
      assert Switch(g, ch, false) == Again(a, NOTHING);
      OutOfHeaders(a, ApplyAct(Marks(None, 0, []), NOTHING, ch), ch);
    }
  }

  lemma OnlyLf(g: Fields, ch: char)
    requires g.state == HeadersEnd(HeadersAlmostDone) && Goes(g, ch)
    ensures ch == '\n' && !Onto(g, ch).state.Header? && !Onto(g, ch).state.HeadersEnd?
  {
    hide ApplyAct, NewMessage;
    OutOfHeaders(g, Marks(None, 0, []), ch);
  }

  lemma OutOfHeaders(a: Fields, m: Marks, ch: char)
    requires a.state.HeadersEnd? || a.state == Payload(MessageDone)
    ensures var c := RunSwitch(a, m, ch, false); c.end == More ==> !c.f.state.Header? && !c.f.state.HeadersEnd?
    ensures a.state.HeadersEnd? && ch != '\n' ==> RunSwitch(a, m, ch, false).end != More
    decreases Rank(a.state)
  {
    hide ApplyAct, NewMessage;
    OutMoves(a, ch);
    var s := Switch(a, ch, false);
    if s.Again? && Rank(s.f.state) < Rank(a.state) {
      OutOfHeaders(s.f, ApplyAct(m, s.act, ch), ch);
    }
  }

  lemma OutMoves(a: Fields, ch: char)
    requires a.state.HeadersEnd? || a.state == Payload(MessageDone)
    ensures var s := Switch(a, ch, false);
      (s.Next? ==> !s.f.state.Header? && !s.f.state.HeadersEnd?) &&
      (s.Again? ==> s.f.state.HeadersEnd? || s.f.state == Payload(MessageDone)) &&
      (a.state.HeadersEnd? && ch != '\n' ==> s.Fail?)
  {
    hide ShouldKeepAlive;
  }

  // ----- Chunk framing

  /** How much of a size line has been read. */
  predicate Sized(f: Fields, g: Fields, size: string, parameters: string) {
    HttpChunked.IsHex(size) && HttpChunked.IsParameters(parameters) &&
    HttpChunked.HexValue(size) < HttpChunked.SIZE_LIMIT &&
    match g.state
    case ChunkLine(ChunkSize) => parameters == "" && g == HttpChunked.Line(f, ChunkSize, HttpChunked.HexValue(size))
    case ChunkLine(ChunkParameters) =>
      parameters != "" && g == HttpChunked.Line(f, ChunkParameters, HttpChunked.HexValue(size))
    case ChunkLine(ChunkSizeAlmostDone) => g == HttpChunked.Line(f, ChunkSizeAlmostDone, HttpChunked.HexValue(size))
    case _ => false
  }

  lemma HexMore(s: string, ch: char)
    ensures s == "" || HttpChunked.IsHex(s) ==> (HttpChunked.IsHex(s + [ch]) <==> Unhex(ch) >= 0)
    ensures Unhex(ch) >= 0 ==> HttpChunked.HexValue(s + [ch]) == 16 * HttpChunked.HexValue(s) + Unhex(ch)
    ensures HttpChunked.HexValue("") == 0
  {
    hide Unhex;
    var t := s + [ch];
    assert t[..|t| - 1] == s && t[|s|] == ch && forall i :: 0 <= i < |s| ==> t[i] == s[i];
  }

  lemma ParametersMore(s: string, ch: char)
    ensures HttpChunked.IsParameters(s) && ch != '\r' && (s == "" ==> ch == ';' || ch == ' ') ==>
      HttpChunked.IsParameters(s + [ch])
    ensures HttpChunked.IsParameters("")
  {
    var t := s + [ch];
    assert t[|s|] == ch && forall i :: 0 <= i < |s| ==> t[i] == s[i];
  }

  lemma SizeMoves(f: Fields, n: nat, s: ChunkLineState, ch: char)
    requires f.flags.chunked && n < HttpChunked.SIZE_LIMIT && (s.ChunkSize? || s.ChunkParameters?)
    requires Switch(HttpChunked.Line(f, s, n), ch, false).Next?
    ensures var h := Switch(HttpChunked.Line(f, s, n), ch, false).f;
      if ch == '\r' then h == HttpChunked.Line(f, ChunkSizeAlmostDone, n)
      else if s.ChunkSize? && Unhex(ch) >= 0
      then h == HttpChunked.Line(f, ChunkSize, 16 * n + Unhex(ch)) && 16 * n + Unhex(ch) < HttpChunked.SIZE_LIMIT
      else h == HttpChunked.Line(f, ChunkParameters, n) && (s.ChunkSize? ==> ch == ';' || ch == ' ')
  {
    if s.ChunkSize? && Unhex(ch) >= 0 { HttpChunked.NextDigitSwitch(f, n, ch); }
  }

  lemma SizeStep(f: Fields, g: Fields, size: string, parameters: string, ch: char) returns (s: string, p: string)
    requires f.flags.chunked && Sized(f, g, size, parameters) && g.state != ChunkLine(ChunkSizeAlmostDone)
    requires Switch(g, ch, false).Next?
    ensures var h := Switch(g, ch, false).f;
      Sized(f, h, s, p) &&
      (if h.state == ChunkLine(ChunkSizeAlmostDone) then s + p + "\r" else s + p) == size + parameters + [ch]
  {
    hide Switch, HttpChunked.IsHex, HttpChunked.HexValue, HttpChunked.IsParameters, Unhex;
    SizeMoves(f, HttpChunked.HexValue(size), g.state.line, ch);
    HexMore(size, ch);
    ParametersMore(parameters, ch);
    s, p := size, parameters;
    if ch == '\r' {
    } else if g.state.line.ChunkSize? && Unhex(ch) >= 0 {
      s := size + [ch];
      assert s + "" == size + "" + [ch];
    } else {
      p := parameters + [ch];
      assert size + p == size + parameters + [ch];
    }
  }

  lemma FirstSize(f: Fields, ch: char)
    requires f.flags.chunked && f.state == ChunkLine(ChunkSizeStart) && Switch(f, ch, false).Next?
    ensures Sized(f, Switch(f, ch, false).f, [ch], "") && Switch(f, ch, false).f.state == ChunkLine(ChunkSize)
  {
    hide HttpChunked.IsHex, HttpChunked.HexValue;
    HexMore("", ch);
    assert "" + [ch] == [ch];
  }

  /** The line feed ends the line, and nothing else does. */
  lemma LineFeed(f: Fields, g: Fields, size: string, parameters: string, ch: char)
    requires f.flags.chunked && Sized(f, g, size, parameters) && Switch(g, ch, false).Next?
    ensures var h, n := Switch(g, ch, false).f, HttpChunked.HexValue(size);
      if g.state == ChunkLine(ChunkSizeAlmostDone)
      then ch == '\n' && h == if n == 0 then HttpChunked.InTrailer(f) else HttpChunked.Inside(f, n)
      else h.state.ChunkLine?
  {
    hide HttpChunked.IsHex, HttpChunked.IsParameters, HttpChunked.HexValue, Unhex;
  }

  ghost predicate InSizeLine(f: Fields, d: string, n: nat)
    requires n <= |d|
  {
    forall i :: 0 < i < n ==> Single(f, d, i).f.state.ChunkLine?
  }

  lemma SizeNext(f: Fields, d: string, n: nat)
    requires n < |d| && Single(f, d, n + 1).end == More && Single(f, d, n).f.state.ChunkLine?
    ensures Single(f, d, n).end == More
    ensures var s := Switch(Single(f, d, n).f, d[n], false); s.Next? && s.f == Single(f, d, n + 1).f
  {
    hide Switch, InGeneral, Bytewise, Begin, InitialMark, ApplyAct;
    MoreBefore(f, d, n);
    SingleStep(f, d, n);
    CutEnd(Single(f, d, n));
    SizeOnly(Single(f, d, n).f, d[n]);
  }

  lemma SizeOnly(g: Fields, ch: char)
    requires g.state.ChunkLine?
    ensures !Switch(g, ch, false).Again? && !Switch(g, ch, false).Exit? && !InGeneral(g)
  {
  }

  lemma {:induction false} SizeShape(f: Fields, d: string, n: nat) returns (size: string, parameters: string)
    requires f.state == ChunkLine(ChunkSizeStart) && f.flags.chunked && 0 < n < |d|
    requires Single(f, d, n).end == More && InSizeLine(f, d, n + 1)
    ensures var g := Single(f, d, n).f;
      Sized(f, g, size, parameters) &&
      (if g.state == ChunkLine(ChunkSizeAlmostDone) then size + parameters + "\r" else size + parameters) == d[..n]
    decreases n
  {
    hide Switch, Sized, Bytewise, Begin, StepRun;
    if n == 1 {
      BeginMore(f, d);
      BeginFields(f);
      SizeNext(f, d, 0);
      FirstSize(f, d[0]);
      size, parameters := [d[0]], "";
      assert d[..1] == [d[0]] + "";
    } else {
      MoreBefore(f, d, n - 1);
      var s, p := SizeShape(f, d, n - 1);
      SizeNext(f, d, n - 1);
      LineFeed(f, Single(f, d, n - 1).f, s, p, d[n - 1]);
      size, parameters := SizeStep(f, Single(f, d, n - 1).f, s, p, d[n - 1]);
      assert d[..n] == d[..n - 1] + [d[n - 1]];
    }
  }

  /** Only size lines that the parser can hold lead to a chunk's data, or to the trailer. */
  lemma SizeLineOnly(f: Fields, d: string) returns (size: string, parameters: string)
    requires f.state == ChunkLine(ChunkSizeStart) && f.flags.chunked && |d| > 1 && Single(f, d, |d|).end == More
    requires InSizeLine(f, d, |d|) && !Single(f, d, |d|).f.state.ChunkLine?
    ensures HttpChunked.IsHex(size) && HttpChunked.IsParameters(parameters) && d == size + parameters + "\r\n"
    ensures var n := HttpChunked.HexValue(size);
      n < HttpChunked.SIZE_LIMIT &&
      Single(f, d, |d|).f == if n == 0 then HttpChunked.InTrailer(f) else HttpChunked.Inside(f, n)
  {
    hide Switch, Bytewise, Begin, StepRun, HttpChunked.IsHex, HttpChunked.HexValue, HttpChunked.IsParameters;
    var k := |d| - 1;
    MoreBefore(f, d, k);
    size, parameters := SizeShape(f, d, k);
    SizeNext(f, d, k);
    LineFeed(f, Single(f, d, k).f, size, parameters, d[k]);
    assert d == d[..k] + [d[k]];
    assert size + parameters + "\r" + ['\n'] == size + parameters + "\r\n";
  }

  /** Only CR LF leads from the end of a chunk's data to the next size line. */
  lemma ChunkEndOnly(f: Fields, d: string)
    requires f.state == Payload(ChunkDataAlmostDone) && |d| == 2 && Single(f, d, 2).end == More
    ensures d == "\r\n" && Single(f, d, 2).f == To(f, ChunkLine(ChunkSizeStart))
  {
    hide Switch, Bytewise, Begin, InitialMark, ApplyAct;
    BeginMore(f, d);
    BeginFields(f);
    MoreBefore(f, d, 1);
    SingleStep(f, d, 0);
    SingleStep(f, d, 1);
    CutEnd(Single(f, d, 0));
    CutEnd(Single(f, d, 1));
    ChunkEnds(f, d[0]);
    ChunkEnds(To(f, Payload(ChunkDataDone)), d[1]);
    assert d == [d[0]] + [d[1]];
  }

  lemma ChunkEnds(g: Fields, ch: char)
    requires g.state == Payload(ChunkDataAlmostDone) || g.state == Payload(ChunkDataDone)
    ensures var s := Switch(g, ch, false);
      !s.Again? && !s.Exit? &&
      (s.Next? ==>
        if g.state == Payload(ChunkDataAlmostDone) then ch == '\r' && s.f == To(g, Payload(ChunkDataDone))
        else ch == '\n' && s.f == To(g, ChunkLine(ChunkSizeStart)))
  {
  }
}
