/** Whole runs: REEXECUTE chains, marks, and folds of the switch over a stream. */
module HttpRun {
  import opened HttpTypes
  import opened HttpStep

  // ----- Marks and events

  /** The open mark, how many events since it was set are not yet delivered, and
      every event up to now (the `held` undelivered ones last). */
  datatype Marks = Marks(open: Option<DataKind>, held: nat, evs: seq<Event>)

  /** MARK */
  function ApplyMark(m: Marks, a: Act): Marks {
    if a.mark.Some? && m.open.None? then Marks(a.mark, 0, m.evs) else m
  }

  /** CALLBACK_DATA, which hands over everything since the mark. */
  function ApplyFlush(m: Marks, a: Act, ch: char): Marks {
    if a.flush.Some? && m.open == a.flush
    then Marks(None, 0, if a.plus then m.evs + [Byte(a.flush.value, ch)] else m.evs) else m
  }

  /** CALLBACK_NOTIFY */
  function ApplyNote(m: Marks, a: Act): Marks {
    if a.note.Some? then m.(evs := m.evs + [Note(a.note.value)]) else m
  }

  function ApplyAct(m: Marks, a: Act, ch: char): Marks {
    ApplyNote(ApplyFlush(ApplyMark(m, a), a, ch), a)
  }

  /** The byte lies behind an open mark. */
  function EndByte(m: Marks, ch: char): Marks {
    if m.open.Some? then m.(held := m.held + 1, evs := m.evs + [Byte(m.open.value, ch)]) else m
  }

  /** `goto error` returns without running the callback of an open mark. */
  function Lose(m: Marks): Marks {
    Marks(None, 0, if m.held <= |m.evs| then m.evs[..|m.evs| - m.held] else m.evs)
  }

  // ----- REEXECUTE chains

  datatype End = More | Failed | Exited | Aborted

  datatype Chain = Chain(f: Fields, m: Marks, reset: bool, end: End)

  /** How many REEXECUTEs a state can still cause on one byte. */
  function Rank(s: State): nat {
    match s
    case Start(StartReqOrRes) => 1
    case StatusLine(ResStatusCode) => 2
    case StatusLine(ResStatusStart) => 1
    case Header(HeaderFieldStart) => 2
    case Header(HeaderValue) => 1
    case Header(HeaderValueLws) | Header(HeaderValueDiscardLws) => 3
    case HeadersEnd(HeadersAlmostDone) => 1
    case Payload(BodyIdentity) => 1
    case _ => 0
  }

  function RunSwitch(f: Fields, m: Marks, ch: char, u: bool): Chain
    decreases Rank(f.state)
  {
    match Switch(f, ch, u)
    case Next(g, a) => Chain(g, ApplyAct(m, a, ch), a.reset, More)
    case Exit(g, a) => Chain(g, ApplyAct(m, a, ch), a.reset, Exited)
    case Fail(g) => Chain(g, m, false, Failed)
    case Abort => Chain(f, m, false, Aborted)
    case Again(g, a) =>
      if Rank(g.state) >= Rank(f.state) then Chain(f, m, false, Aborted) else // never: see Good
      var c := RunSwitch(g, ApplyAct(m, a, ch), ch, u);
      c.(reset := a.reset || c.reset)
  }

  // ----- Runs

  datatype Run = Run(f: Fields, used: nat, m: Marks, unchecked: bool, end: End)

  predicate InGeneral(f: Fields) { f.state == Header(HeaderValue) && f.hs.General? }

  /** One byte of a piece.  Behind a byte of a general header value in the same piece
      the memchr skip does not look at bytes again, hence `unchecked`. */
  function StepRun(r: Run, ch: char): Run {
    if r.end != More then r else
    var c := RunSwitch(r.f, r.m, ch, r.unchecked && InGeneral(r.f));
    match c.end
    case More => Run(c.f, r.used + 1, EndByte(c.m, ch), InGeneral(r.f), More)
    case Exited => Run(c.f, r.used + 1, c.m, false, Exited)
    case _ => Run(c.f, r.used, Lose(c.m), false, c.end)
  }

  /** The first n bytes of one piece. */
  function Scan(r: Run, data: string, n: nat): Run
    requires n <= |data|
  {
    if n == 0 then r else StepRun(Scan(r, data, n - 1), data[n - 1])
  }

  /** A piece begins: marks are rebuilt from the state, all held events are delivered. */
  function Cut(r: Run): Run {
    if r.end != More then r else r.(m := Marks(InitialMark(r.f.state), 0, r.m.evs), unchecked := false)
  }

  /** One call of http_parser_execute per piece, until one fails or exits. */
  function Feed(r: Run, pieces: seq<string>): Run {
    if pieces == [] then r else
      var last := pieces[|pieces| - 1];
      Scan(Cut(Feed(r, pieces[..|pieces| - 1])), last, |last|)
  }

  /** One call per byte. */
  function Bytewise(r: Run, data: string, n: nat): Run
    requires n <= |data|
  {
    if n == 0 then r else StepRun(Cut(Bytewise(r, data, n - 1)), data[n - 1])
  }

  function Begin(f: Fields): Run { Run(f, 0, Marks(InitialMark(f.state), 0, []), false, More) }

  // ----- The run invariant

  predicate FieldHs(hs: HeaderState) {
    hs.General? || hs.HC? || hs.HCO? || hs.HCON? || hs.MatchingConnection? || hs.MatchingProxyConnection? ||
    hs.MatchingContentLength? || hs.MatchingTransferEncoding? || hs.MatchingUpgrade? ||
    hs.HConnection? || hs.HContentLength? || hs.HTransferEncoding? || hs.HUpgrade?
  }

  predicate ValueHs(hs: HeaderState) {
    hs.HContentLength? || hs.General? || !FieldHs(hs)
  }

  /** The matcher index stays inside the word being matched. */
  predicate IndexInWord(f: Fields) {
    match f.hs
    case HC => f.index == 0
    case HCO => f.index == 1
    case HCON => f.index == 2
    case MatchingConnection => f.index < 9
    case MatchingProxyConnection => f.index < 15
    case MatchingContentLength => f.index < 13
    case MatchingTransferEncoding => f.index < 16
    case MatchingUpgrade | MatchingConnectionUpgrade | MatchingTransferEncodingChunked => f.index < 6
    case MatchingConnectionKeepAlive => f.index < 9
    case MatchingConnectionTokenStart => f.index == 0
    case MatchingConnectionClose => f.index < 4
    case _ => true
  }

  predicate IndexInMethod(f: Fields) { 1 <= f.index <= |MethodName(f.meth)| }

  /** What http_parser.c asserts, and what those assertions rest on. */
  predicate Inv(f: Fields) {
    && f.index <= 17 && f.meth < METHOD_COUNT && f.contentLength <= NO_LENGTH
    && match f.state
       case Method => IndexInMethod(f)
       case Header(s) => HeaderInv(f, s)
       case ChunkLine(s) => f.flags.chunked && (s.ChunkSizeStart? || f.contentLength < NO_LENGTH)
       case Payload(s) => PayloadInv(f, s)
       case _ => true
  }

  predicate HeaderInv(f: Fields, s: HeaderPosition) {
    match s
    case HeaderFieldStart => true
    case HeaderField => FieldHs(f.hs) && IndexInWord(f)
    case HeaderValueDiscardWs | HeaderValueDiscardWsAlmostDone | HeaderValueDiscardLws => FieldHs(f.hs)
    case HeaderValue => ValueHs(f.hs) && IndexInWord(f) && (f.hs.HContentLength? ==> f.contentLength < NO_LENGTH)
    case HeaderAlmostDone | HeaderValueLws | HeaderValueStart => ValueHs(f.hs)
  }

  predicate PayloadInv(f: Fields, s: PayloadState) {
    match s
    case ChunkData => f.flags.chunked && 0 < f.contentLength < NO_LENGTH
    case ChunkDataAlmostDone => f.flags.chunked && f.contentLength == 0
    case ChunkDataDone => f.flags.chunked
    case BodyIdentity => 0 < f.contentLength < NO_LENGTH
    case BodyIdentityEof | MessageDone => true
  }

  predicate BodyOpen(s: State) {
    s.Payload? && !s.payload.ChunkDataDone? && !s.payload.MessageDone?
  }

  /** Which mark may be open in a state, before the switch runs. */
  predicate MarkFits(s: State, open: Option<DataKind>) {
    open == InitialMark(s) || (BodyOpen(s) && open == Some(Body))
  }

  /** No act sets a second mark or flushes a foreign one. */
  predicate Legal(open: Option<DataKind>, a: Act) {
    (a.mark.Some? ==> open == None || open == a.mark) &&
    (a.flush.Some? ==> a.flush == (if a.mark.Some? then a.mark else open) ||
                       (a.mark.None? && open.None?))
  }

  function OpenAfter(open: Option<DataKind>, a: Act): Option<DataKind> {
    if a.flush.Some? then None else if a.mark.Some? then a.mark else open
  }

  predicate MarkStep(open: Option<DataKind>, a: Act, t: State) {
    Legal(open, a) && MarkFits(t, OpenAfter(open, a)) && (a.note.Some? ==> OpenAfter(open, a).None?)
  }

  /** What one run of the switch guarantees from a state that satisfies Inv. */
  predicate Good(f: Fields, m: Micro) {
    match m
    case Abort => false
    case Fail(g) => g.errno != OK && g.errno != HeaderOverflow
    case Next(g, a) => Inv(g) && g.errno == OK && GoodMark(f.state, a, g.state)
    case Again(g, a) => Inv(g) && g.errno == OK && GoodMark(f.state, a, g.state) && Rank(g.state) < Rank(f.state)
    case Exit(g, a) => Inv(g) && g.errno == OK && GoodMark(f.state, a, g.state) && g.state.Start?
  }

  /** The acts set no second mark, and `nread` restarts before every chunk-size line. */
  predicate GoodMark(s: State, a: Act, t: State) {
    MarkStep(InitialMark(s), a, t) &&
    (BodyOpen(s) ==> MarkStep(Some(Body), a, t) && (a.mark == Some(Body) || a.flush == Some(Body))) &&
    (a.plus ==> a.mark.Some? && a.mark == a.flush) &&
    (t == ChunkLine(ChunkSizeStart) ==> a.reset)
  }

  lemma StatusLineGood(f: Fields, s: StatusLineState, ch: char)
    requires Inv(f) && f.errno == OK && f.state == StatusLine(s)
    ensures Good(f, StatusLineSwitch(f, s, ch))
  {
    hide IndexInMethod, IndexInWord;
  }

  lemma VersionGood(f: Fields, s: VersionState, ch: char)
    requires Inv(f) && f.errno == OK && f.state == Version(s)
    ensures Good(f, VersionSwitch(f, s, ch))
  {
    hide IndexInMethod, IndexInWord;
  }

  lemma TargetGood(f: Fields, s: TargetState, ch: char)
    requires Inv(f) && f.errno == OK && f.state == Target(s)
    ensures Good(f, TargetSwitch(f, s, ch))
  {
    hide IndexInMethod, IndexInWord;
  }

  lemma HeadersEndGood(f: Fields, s: HeadersEndState, ch: char)
    requires Inv(f) && f.errno == OK && f.state == HeadersEnd(s)
    ensures Good(f, HeadersEndSwitch(f, s, ch))
  {
    hide IndexInMethod, IndexInWord;
  }

  lemma ChunkLineGood(f: Fields, s: ChunkLineState, ch: char)
    requires Inv(f) && f.errno == OK && f.state == ChunkLine(s)
    ensures Good(f, ChunkLineSwitch(f, s, ch))
  {
    hide IndexInMethod, IndexInWord;
  }

  lemma PayloadGood(f: Fields, s: PayloadState, ch: char)
    requires Inv(f) && f.errno == OK && f.state == Payload(s)
    ensures Good(f, PayloadSwitch(f, s, ch))
  {
    hide IndexInMethod, IndexInWord;
  }

  lemma StartGood(f: Fields, s: StartState, ch: char)
    requires Inv(f) && f.errno == OK && f.state == Start(s)
    ensures Good(f, StartSwitch(f, s, ch))
  {
    hide IndexInWord, MethodName;
  }

  /** A byte that changes the guessed method keeps the bytes matched so far. */
  lemma ReguessKeepsPrefix(m: nat, pos: nat, ch: char)
    requires Reguess(m, pos, ch).Some?
    ensures var v := Reguess(m, pos, ch).value;
      v < METHOD_COUNT && m < METHOD_COUNT && pos < |MethodName(v)| && pos <= |MethodName(m)| &&
      MethodName(v)[pos] == ch && MethodName(v)[..pos] == MethodName(m)[..pos]
  {
  }

  lemma MethodGood(f: Fields, ch: char)
    requires Inv(f) && f.errno == OK && f.state == Method
    ensures Good(f, MethodSwitch(f, ch))
  {
    hide IndexInWord, MethodName, Reguess;
    if Reguess(f.meth, f.index, ch).Some? {
      ReguessKeepsPrefix(f.meth, f.index, ch);
    }
  }

  lemma MatchWordMoves(f: Fields, word: string, c: char, stay: HeaderState, hit: HeaderState, miss: HeaderState)
    requires f.index + 2 <= |word| <= 17
    ensures var g := MatchWord(f, word, c, stay, hit, miss);
      g == f.(hs := g.hs, index := f.index + 1) &&
      (g.hs == miss || (g.hs == hit && f.index + 2 == |word|) || (g.hs == stay && f.index + 2 < |word|))
  {
  }

  lemma FieldByteGood(f: Fields, ch: char)
    requires Inv(f) && f.errno == OK && f.state == Header(HeaderField)
    ensures FieldByte(f, ch).Some?
    ensures var g := FieldByte(f, ch).value; Inv(g) && g == f.(hs := g.hs, index := g.index)
  {
    hide IndexInMethod, Token, MatchWord;
    var c := Token(ch);
    match f.hs
    case MatchingConnection => MatchWordMoves(f, "connection", c, f.hs, HConnection, General);
    case MatchingProxyConnection => MatchWordMoves(f, "proxy-connection", c, f.hs, HConnection, General);
    case MatchingContentLength => MatchWordMoves(f, "content-length", c, f.hs, HContentLength, General);
    case MatchingTransferEncoding => MatchWordMoves(f, "transfer-encoding", c, f.hs, HTransferEncoding, General);
    case MatchingUpgrade => MatchWordMoves(f, "upgrade", c, f.hs, HUpgrade, General);
    case _ =>
  }

  lemma FieldGood(f: Fields, s: HeaderPosition, ch: char)
    requires Inv(f) && f.errno == OK && f.state == Header(s) && (s.HeaderFieldStart? || s.HeaderField?)
    ensures Good(f, FieldSwitch(f, s, ch))
  {
    hide IndexInMethod, FieldByte, Token;
    if s.HeaderField? {
      FieldByteGood(f, ch);
    }
  }

  /** A byte against one of the known words of a header value. */
  lemma ValueWordGood(f: Fields, ch: char)
    requires Inv(f) && f.errno == OK && f.state == Header(HeaderValue)
    requires f.hs.MatchingTransferEncodingChunked? || f.hs.MatchingConnectionKeepAlive? ||
      f.hs.MatchingConnectionClose? || f.hs.MatchingConnectionUpgrade?
    ensures ValueByte(f, ch).Scanned?
    ensures var g := ValueByte(f, ch).f; Inv(g) && g.state == f.state && g.errno == OK
  {
    hide IndexInMethod, Lower, Token, MatchWord;
    var c := Lower(ch);
    match f.hs
    case MatchingTransferEncodingChunked => MatchWordMoves(f, "chunked", c, f.hs, TransferEncodingChunked, General);
    case MatchingConnectionKeepAlive => MatchWordMoves(f, "keep-alive", c, f.hs, ConnectionKeepAlive, MatchingConnectionToken);
    case MatchingConnectionClose => MatchWordMoves(f, "close", c, f.hs, ConnectionClose, MatchingConnectionToken);
    case _ => MatchWordMoves(f, "upgrade", c, f.hs, ConnectionUpgrade, MatchingConnectionToken);
  }

  lemma ValueByteGood(f: Fields, ch: char)
    requires Inv(f) && f.errno == OK && f.state == Header(HeaderValue)
    ensures !ValueByte(f, ch).Unreachable?
    ensures ValueByte(f, ch).Scanned? ==>
      var g := ValueByte(f, ch).f; Inv(g) && g.state == f.state && g.errno == OK
  {
    if f.hs.MatchingTransferEncodingChunked? || f.hs.MatchingConnectionKeepAlive? ||
       f.hs.MatchingConnectionClose? || f.hs.MatchingConnectionUpgrade? {
      hide *;
      ValueWordGood(f, ch);
    } else {
      hide IndexInMethod, Lower, Token, MatchWord;
    }
  }

  lemma ValueStartGood(f: Fields, ch: char)
    requires Inv(f) && f.errno == OK
    requires f.state == Header(HeaderValueStart) || f.state == Header(HeaderValueDiscardWs)
    ensures Good(f, ValueStart(f, ch))
  {
    hide IndexInMethod, Lower;
  }

  lemma InValueGood(f: Fields, ch: char, u: bool)
    requires Inv(f) && f.errno == OK && f.state == Header(HeaderValue)
    ensures Good(f, ValueSwitch(f, HeaderValue, ch, u))
  {
    hide IndexInMethod, IndexInWord, ValueByte, ValueStart, IsHeaderChar;
    ValueByteGood(f, ch);
  }

  lemma FinishedGood(f: Fields)
    ensures Finished(f) == f.(flags := Finished(f).flags)
  {
  }

  lemma BetweenValuesGood(f: Fields, s: HeaderPosition, ch: char)
    requires Inv(f) && f.errno == OK && f.state == Header(s)
    requires s.HeaderAlmostDone? || s.HeaderValueLws? || s.HeaderValueDiscardWsAlmostDone? || s.HeaderValueDiscardLws?
    ensures Good(f, ValueSwitch(f, s, ch, false)) && ValueSwitch(f, s, ch, true) == ValueSwitch(f, s, ch, false)
  {
    hide IndexInMethod, IndexInWord, ValueByte, ValueStart, IsHeaderChar, Finished;
    FinishedGood(f);
  }

  lemma ValueGood(f: Fields, s: HeaderPosition, ch: char, u: bool)
    requires Inv(f) && f.errno == OK && f.state == Header(s) && !(s.HeaderFieldStart? || s.HeaderField?)
    ensures Good(f, ValueSwitch(f, s, ch, u))
  {
    hide IndexInMethod, IndexInWord, ValueByte, ValueStart, IsHeaderChar;
    if s.HeaderValueStart? || s.HeaderValueDiscardWs? {
      ValueStartGood(f, ch);
    } else {
      hide Good, ValueSwitch, Inv;
      if s.HeaderValue? {
        InValueGood(f, ch, u);
      } else {
        BetweenValuesGood(f, s, ch);
      }
    }
  }

  /** Every run of the switch keeps the invariant, reaches no failing assertion, keeps
      at most one mark set, and lets REEXECUTE only move to states of smaller rank. */
  lemma SwitchGood(f: Fields, ch: char, u: bool)
    requires Inv(f) && f.errno == OK
    ensures Good(f, Switch(f, ch, u))
  {
    hide Inv, Good, StartSwitch, StatusLineSwitch, MethodSwitch, TargetSwitch, VersionSwitch, FieldSwitch, ValueSwitch,
      HeadersEndSwitch, ChunkLineSwitch, PayloadSwitch;
    match f.state
    case Start(s) => StartGood(f, s, ch);
    case StatusLine(s) => StatusLineGood(f, s, ch);
    case Method => MethodGood(f, ch);
    case Target(s) => TargetGood(f, s, ch);
    case Version(s) => VersionGood(f, s, ch);
    case Header(s) =>
      if s.HeaderFieldStart? || s.HeaderField? { FieldGood(f, s, ch); } else { ValueGood(f, s, ch, u); }
    case HeadersEnd(s) => HeadersEndGood(f, s, ch);
    case ChunkLine(s) => ChunkLineGood(f, s, ch);
    case Payload(s) => PayloadGood(f, s, ch);
  }
}
