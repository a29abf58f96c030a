/** http_parser_execute itself: marks into the caller's buffer, block skips,
    header-size counting, and the callbacks it runs. */
module HttpParserModel {
  import opened HttpTypes
  import opened HttpStep
  import opened HttpRun
  import opened HttpCutting

  // ----- How marks into a buffer stand for held events

  function Pending(open: Option<DataKind>, held: nat, data: string, p: nat): seq<Event>
    requires held <= p <= |data|
  {
    if open.Some? then Bytes(open.value, data[p - held..p]) else []
  }

  /** The marks set and the callbacks run so far say what `m` says. */
  ghost predicate Shows(m: Marks, marks: map<DataKind, nat>, log: seq<Callback>, data: string, p: nat) {
    p <= |data| && m.held <= p &&
    marks == (match m.open case Some(k) => map[k := p - m.held] case None => map[]) &&
    m.evs == Flat(log) + Pending(m.open, m.held, data, p)
  }

  lemma FlatSnoc(log: seq<Callback>, c: Callback)
    ensures Flat(log + [c]) == Flat(log) + match c case DataCb(k, s) => Bytes(k, s) case NoticeCb(n) => [Note(n)]
  {
    assert (log + [c])[..|log|] == log;
  }

  lemma BytesSnoc(k: DataKind, data: string, i: nat, p: nat)
    requires i <= p < |data|
    ensures Bytes(k, data[i..p + 1]) == Bytes(k, data[i..p]) + [Byte(k, data[p])]
  {
    assert data[i..p + 1] == data[i..p] + [data[p]];
  }

  /** The next byte lies behind an open mark. */
  lemma ShowsNext(m: Marks, marks: map<DataKind, nat>, log: seq<Callback>, data: string, p: nat)
    requires Shows(m, marks, log, data, p) && p < |data|
    ensures Shows(EndByte(m, data[p]), marks, log, data, p + 1)
  {
    hide Flat;
    if m.open.Some? {
      BytesSnoc(m.open.value, data, p - m.held, p);
    }
  }

  lemma FlushShows(m: Marks, a: Act, log: seq<Callback>, data: string, p: nat)
    requires p < |data| && m.held <= p && a.flush.Some? && (m.open.None? || m.open == a.flush)
    requires m.evs == Flat(log) + Pending(m.open, m.held, data, p)
    ensures var k, end := a.flush.value, p + if a.plus then 1 else 0;
      m.open.Some? ==> ApplyFlush(m, a, data[p]) == Marks(None, 0, Flat(log + [DataCb(k, data[p - m.held..end])]))
    ensures m.open.None? ==> ApplyFlush(m, a, data[p]) == m
  {
    hide Flat;
    if m.open.Some? {
      FlatSnoc(log, DataCb(a.flush.value, data[p - m.held..p + if a.plus then 1 else 0]));
      BytesSnoc(a.flush.value, data, p - m.held, p);
    }
  }

  predicate InField(f: Fields) { f.state == Header(HeaderField) }

  /** A header-name byte only moves the matcher. */
  lemma FieldStep(r: Run, ch: char)
    requires RunOk(r) && r.end == More && InField(r.f) && Token(ch) != '\0'
    ensures FieldByte(r.f, ch).Some?
    ensures StepRun(r, ch) == Run(FieldByte(r.f, ch).value, r.used + 1, EndByte(r.m, ch), false, More) && !Resets(r, ch)
  {
    hide FieldByte, Inv, Token, MarkFits;
    FieldByteGood(r.f, ch);
  }

  predicate InValue(f: Fields) { f.state == Header(HeaderValue) }

  /** A header-value byte the check lets pass, or does not look at, only moves the matcher. */
  lemma ValueStep(r: Run, ch: char)
    requires RunOk(r) && r.end == More && InValue(r.f) && !IsLineEnd(ch)
    requires r.f.lenient || IsHeaderChar(ch) || (r.unchecked && InGeneral(r.f))
    requires ValueByte(r.f, ch).Scanned?
    ensures StepRun(r, ch) == Run(ValueByte(r.f, ch).f, r.used + 1, EndByte(r.m, ch), InGeneral(r.f), More)
    ensures !Resets(r, ch)
  {
    hide ValueByte, Inv, MarkFits;
    ValueByteGood(r.f, ch);
  }

  /** The body states that swallow blocks of bytes. */
  predicate Swallows(f: Fields, k: nat) {
    f.state == Payload(BodyIdentityEof) || (f.state == Payload(BodyIdentity) && k < f.contentLength) ||
    (f.state == Payload(ChunkData) && k <= f.contentLength)
  }

  function Swallow(f: Fields, k: nat): Fields
    requires Swallows(f, k)
  {
    if f.state == Payload(BodyIdentityEof) || k == 0 then f
    else if f.state == Payload(ChunkData) && k == f.contentLength
    then f.(state := Payload(ChunkDataAlmostDone), contentLength := 0)
    else f.(contentLength := f.contentLength - k)
  }

  lemma SwallowStep(r: Run, ch: char)
    requires RunOk(r) && r.end == More && Swallows(r.f, 1)
    ensures StepRun(r, ch) ==
      Run(Swallow(r.f, 1), r.used + 1,
          Marks(Some(Body), (if r.m.open.Some? then r.m.held else 0) + 1, r.m.evs + [Byte(Body, ch)]), false, More)
    ensures !Resets(r, ch)
  {
    hide IndexInMethod, HeaderInv;
    assert InitialMark(r.f.state) == None;
  }

  lemma NoBytes(k: DataKind, data: string, p: nat)
    requires p <= |data|
    ensures Bytes(k, data[p..p]) == []
  {
  }

  /** What a block skip over a body does in one go is what its bytes do one by one. */
  lemma {:induction false} SwallowRun(start: Run, data: string, p: nat, k: nat)
    requires RunOk(start) && p + k <= |data|
    requires var r := Scan(start, data, p); r.end == More && Swallows(r.f, k)
    ensures var r := Scan(start, data, p);
      k > 0 ==>
        Scan(start, data, p + k) ==
        Run(Swallow(r.f, k), r.used + k,
            Marks(Some(Body), (if r.m.open.Some? then r.m.held else 0) + k, r.m.evs + Bytes(Body, data[p..p + k])),
            false, More)
    ensures forall c: nat :: HeaderBytes(start, data, p + k, c) == HeaderBytes(start, data, p, c)
  {
    hide StepRun, RunOk, Resets, HeaderBytes, Scan, Bytes;
    var r := Scan(start, data, p);
    if k > 0 {
      SwallowRun(start, data, p, k - 1);
      ScanKeeps(start, data, p + k - 1);
      ScanStep(start, data, p + k - 1);
      SwallowStep(Scan(start, data, p + k - 1), data[p + k - 1]);
      forall c: nat ensures HeaderBytes(start, data, p + k, c) == HeaderBytes(start, data, p, c) {
        HeaderStep(start, data, p + k - 1, c);
      }
      BytesSnoc(Body, data, p, p + k - 1);
      NoBytes(Body, data, p);
    }
  }

  /** Parser fields, but for `header_state` after a refused header-value byte: the
      source then returns without storing its local copy. */
  function Observe(f: Fields): Fields {
    if f.errno == InvalidHeaderToken && InValue(f) then f.(hs := General) else f
  }

  /** A call that is still inside its piece, at byte p. */
  ghost predicate At(start: Run, f: Fields, marks: map<DataKind, nat>, log: seq<Callback>, data: string, p: nat) {
    p <= |data| && RunOk(start) &&
    var r := Scan(start, data, p);
    r.end == More && r.f == f && r.used == start.used + p && Shows(r.m, marks, log, data, p)
  }

  /** A call that is over, having consumed n bytes: it failed, it took the upgrade
      exit, or it reached the end of its piece. */
  ghost predicate Over(start: Run, f: Fields, log: seq<Callback>, data: string, n: nat, end: End) {
    var r := Scan(start, data, |data|);
    Observe(f) == Observe(r.f) && r.used == start.used + n && Flat(log) == r.m.evs && r.end == end
  }

  lemma {:induction false} OverStays(start: Run, data: string, p: nat)
    requires p < |data| && Scan(start, data, p + 1).end != More
    ensures Scan(start, data, |data|) == Scan(start, data, p + 1)
  {
    ScanStays(start, data, p + 1, |data|);
  }

  lemma {:induction false} ScanStays(start: Run, data: string, p: nat, n: nat)
    requires p <= n <= |data| && Scan(start, data, p).end != More
    ensures Scan(start, data, n) == Scan(start, data, p)
    decreases n
  {
    hide RunSwitch;
    if p < n { ScanStays(start, data, p, n - 1); }
  }

  /** After a failing call the callbacks run are the delivered events. */
  lemma LoseShows(m: Marks, marks: map<DataKind, nat>, log: seq<Callback>, data: string, p: nat)
    requires Shows(m, marks, log, data, p) && HeldOk(m)
    ensures Lose(m).evs == Flat(log)
  {
    hide Flat;
  }

  lemma ShowsAll(m: Marks, marks: map<DataKind, nat>, log: seq<Callback>, data: string, p: nat)
    requires Shows(m, marks, log, data, p) && m.open.None?
    ensures m.evs == Flat(log)
  {
  }

  /** One REEXECUTE further, the rest of the chain is the same. */
  lemma ChainUnfolds(f: Fields, m: Marks, ch: char)
    requires Inv(f) && f.errno == OK
    ensures var c, micro := RunSwitch(f, m, ch, false), Switch(f, ch, false);
      (micro.Next? ==>
        c.f == micro.f && c.m == ApplyAct(m, micro.act, ch) && c.end == More && c.reset == micro.act.reset) &&
      (micro.Exit? ==>
        c.f == micro.f && c.m == ApplyAct(m, micro.act, ch) && c.end == Exited && c.reset == micro.act.reset) &&
      (micro.Fail? ==> c.f == micro.f && c.m == m && c.end == Failed && !c.reset) &&
      (micro.Again? ==>
        var d := RunSwitch(micro.f, ApplyAct(m, micro.act, ch), ch, false);
        c.f == d.f && c.m == d.m && c.end == d.end && c.reset == (micro.act.reset || d.reset))
  {
    hide Switch, Inv, ApplyAct, Rank;
    SwitchGood(f, ch, false);
  }

  /** A chain does not overflow, and resets `nread` before a chunk-size line. */
  lemma {:induction false} ChainResets(f: Fields, m: Marks, ch: char)
    requires Inv(f) && f.errno == OK
    ensures var c := RunSwitch(f, m, ch, false);
      c.f.errno != HeaderOverflow && c.end != Aborted &&
      (c.f.state == ChunkLine(ChunkSizeStart) && c.end == More ==> c.reset) && (c.end == Exited ==> c.f.state.Start?)
    decreases Rank(f.state)
  {
    hide Switch, Inv, ApplyAct, Rank, MarkStep, InitialMark;
    SwitchGood(f, ch, false);
    match Switch(f, ch, false)
    case Again(g, a) => ChainResets(g, ApplyAct(m, a, ch), ch);
    case _ =>
  }

  /** What the memchr skip of a general header value does in one go. */
  lemma {:induction false} SkipRun(start: Run, f: Fields, marks: map<DataKind, nat>, log: seq<Callback>,
                                   data: string, q: nat, e: nat)
    requires q < e <= |data| && At(start, f, marks, log, data, q) && InGeneral(f)
    requires f.lenient || IsHeaderChar(data[q])
    requires forall j :: q <= j < e ==> !IsLineEnd(data[j])
    ensures At(start, f, marks, log, data, e) && Scan(start, data, e).unchecked
    ensures forall c: nat :: HeaderBytes(start, data, e, c) == HeaderBytes(start, data, q, c) + (e - q)
    decreases e
  {
    hide StepRun, RunOk, Shows, EndByte, IsHeaderChar, Resets, HeaderBytes;
    if q + 1 < e {
      SkipRun(start, f, marks, log, data, q, e - 1);
    }
    var r := Scan(start, data, e - 1);
    ScanKeeps(start, data, e - 1);
    ScanStep(start, data, e - 1);
    ValueStep(r, data[e - 1]);
    ShowsNext(r.m, marks, log, data, e - 1);
    forall c: nat ensures HeaderBytes(start, data, e, c) == HeaderBytes(start, data, q, c) + (e - q) {
      HeaderStep(start, data, e - 1, c);
    }
  }

  lemma RefusedFails(r: Run, ch: char)
    requires r.end == More && InValue(r.f) && !IsLineEnd(ch) && !(r.unchecked && InGeneral(r.f))
    requires (!r.f.lenient && !IsHeaderChar(ch)) || ValueByte(r.f, ch).BadLength?
    ensures StepRun(r, ch).end == Failed
  {
    hide ValueByte, IsHeaderChar, ApplyAct;
  }

  lemma BodyMarks(r: Run)
    requires RunOk(r) && r.end == More && Swallows(r.f, 0)
    ensures r.m.open.None? || r.m.open == Some(Body)
    ensures r.f.state != Payload(BodyIdentityEof) ==> 0 < r.f.contentLength
  {
  }

  lemma SwallowShowsOpen(m: Marks, marks: map<DataKind, nat>, log: seq<Callback>, data: string, p: nat, k: nat)
    requires Shows(m, marks, log, data, p) && m.open == Some(Body) && p + k <= |data|
    ensures Shows(Marks(Some(Body), m.held + k, m.evs + Bytes(Body, data[p..p + k])), marks, log, data, p + k)
  {
    hide Flat, Bytes;
    BytesJoin(Body, data, p - m.held, p, p + k);
  }

  lemma SwallowShowsNew(m: Marks, marks: map<DataKind, nat>, log: seq<Callback>, data: string, p: nat, k: nat)
    requires Shows(m, marks, log, data, p) && m.open.None? && p + k <= |data|
    ensures Body !in marks
    ensures Shows(Marks(Some(Body), k, m.evs + Bytes(Body, data[p..p + k])), marks[Body := p], log, data, p + k)
  {
    hide Flat, Bytes;
  }

  lemma BytesJoin(k: DataKind, data: string, a: nat, p: nat, q: nat)
    requires a <= p <= q <= |data|
    ensures Bytes(k, data[a..q]) == Bytes(k, data[a..p]) + Bytes(k, data[p..q])
  {
    assert data[a..q] == data[a..p] + data[p..q];
  }

  lemma LineEndLeavesValue(r: Run, ch: char)
    requires r.end == More && InValue(r.f) && IsLineEnd(ch)
    ensures StepRun(r, ch).end == More ==>
      (StepRun(r, ch).f.state == Header(HeaderAlmostDone) || StepRun(r, ch).f.state == Header(HeaderValueLws)) &&
      !Resets(r, ch)
  {
    hide ApplyAct;
    if ch == '\n' {
      var g := r.f.(state := Header(HeaderAlmostDone));
      var u := r.unchecked && InGeneral(r.f);
      assert Switch(r.f, ch, u) == Again(g, Flushing(Value));
      assert Switch(g, ch, u) == Next(g.(state := Header(HeaderValueLws)), NOTHING);
      assert RunSwitch(g, ApplyAct(r.m, Flushing(Value), ch), ch, u).f.state == Header(HeaderValueLws);
    }
  }

  /** A call starts where the run so far ended. */
  ghost predicate Resumes(sofar: Run, f: Fields, log: seq<Callback>) {
    RunOk(sofar) && sofar.end == More && sofar.f == f && sofar.m.evs == Flat(log)
  }

  lemma StartOk(sofar: Run, f: Fields, log: seq<Callback>, data: string)
    requires Resumes(sofar, f, log)
    ensures var k := InitialMark(f.state);
      At(Cut(sofar), f, if k.Some? then map[k.value := 0] else map[], log, data, 0) &&
      !Scan(Cut(sofar), data, 0).unchecked
  {
    hide Inv, InitialMark, Flat;
    CutKeeps(sofar);
    assert data[0..0] == "";
  }

  /** Where a stream may end: between messages, or in a body that ends with the stream. */
  predicate AtEnd(f: Fields) {
    (f.state.Start? && !f.state.start.ResOrRespH?) || f.state == Payload(BodyIdentityEof)
  }

  /** Such a body is complete then. */
  function Ending(f: Fields): seq<Callback> {
    if f.state == Payload(BodyIdentityEof) then [NoticeCb(MessageComplete)] else []
  }

  // ----- Header bytes

  /** The switch on this byte starts the count of header bytes anew. */
  predicate Resets(r: Run, ch: char) {
    RunSwitch(r.f, r.m, ch, r.unchecked && InGeneral(r.f)).reset
  }

  /** The header bytes counted before byte n of a piece, c of them before the piece: body
      bytes do not count, and the end of a header starts anew. */
  function HeaderBytes(start: Run, data: string, n: nat, c: nat): nat
    requires n <= |data|
  {
    if n == 0 then c else
      var r := Scan(start, data, n - 1);
      if Resets(r, data[n - 1]) then 0
      else HeaderBytes(start, data, n - 1, c) + if ParsingHeader(r.f.state) then 1 else 0
  }

  /** A header of the piece comes within one byte of the limit. */
  ghost predicate Crowded(start: Run, data: string, c: nat) {
    exists n: nat :: n <= |data| && HeaderBytes(start, data, n, c) >= HTTP_MAX_HEADER_SIZE
  }

  lemma NothingCounted(start: Run, data: string, c: nat)
    ensures HeaderBytes(start, data, 0, c) == c
  {
  }

  lemma HeaderStep(start: Run, data: string, n: nat, c: nat)
    requires n < |data|
    ensures var r := Scan(start, data, n);
      HeaderBytes(start, data, n + 1, c) ==
      if Resets(r, data[n]) then 0
      else HeaderBytes(start, data, n, c) + if ParsingHeader(r.f.state) then 1 else 0
  {
    hide Scan, Resets;
  }

  lemma CountedStep(start: Run, data: string, p: nat, q: nat)
    requires p <= q < |data| && !Resets(Scan(start, data, q), data[q]) && ParsingHeader(Scan(start, data, q).f.state)
    requires forall c: nat :: HeaderBytes(start, data, q, c) == HeaderBytes(start, data, p, c) + (q - p)
    ensures forall c: nat :: HeaderBytes(start, data, q + 1, c) == HeaderBytes(start, data, p, c) + (q + 1 - p)
  {
    hide Scan, Resets, HeaderBytes;
    forall c: nat ensures HeaderBytes(start, data, q + 1, c) == HeaderBytes(start, data, p, c) + (q + 1 - p) {
      HeaderStep(start, data, q, c);
    }
  }

  lemma {:induction false} HeaderBytesBound(start: Run, data: string, n: nat, c: nat, d: nat)
    requires n <= |data| && c <= d
    ensures HeaderBytes(start, data, n, c) <= c + n && HeaderBytes(start, data, n, c) <= HeaderBytes(start, data, n, d)
  {
    hide Scan, Resets;
    if n > 0 { HeaderBytesBound(start, data, n - 1, c, d); }
  }

  /** Up to byte n of the piece no header has more bytes than the limit. */
  ghost predicate Within(start: Run, data: string, n: nat, c: nat) {
    n <= |data| && forall m: nat :: m <= n ==> HeaderBytes(start, data, m, c) <= HTTP_MAX_HEADER_SIZE
  }

  lemma WithinStart(start: Run, data: string, c: nat)
    requires c <= HTTP_MAX_HEADER_SIZE
    ensures Within(start, data, 0, c)
  {
  }

  lemma WithinNext(start: Run, data: string, n: nat, c: nat)
    requires Within(start, data, n, c) && n < |data| && HeaderBytes(start, data, n + 1, c) <= HTTP_MAX_HEADER_SIZE
    ensures Within(start, data, n + 1, c)
  {
    hide HeaderBytes;
  }

  lemma {:induction false} HeaderBytesGrow(start: Run, data: string, p: nat, m: nat, c: nat)
    requires p <= m <= |data|
    ensures HeaderBytes(start, data, m, c) <= HeaderBytes(start, data, p, c) + (m - p)
    decreases m
  {
    hide HeaderBytes, Scan, Resets;
    if p < m {
      HeaderBytesGrow(start, data, p, m - 1, c);
      HeaderStep(start, data, m - 1, c);
    }
  }

  /** A block all of whose bytes count. */
  lemma WithinBlock(start: Run, data: string, p: nat, q: nat, c: nat)
    requires Within(start, data, p, c) && p <= q <= |data|
    requires HeaderBytes(start, data, q, c) == HeaderBytes(start, data, p, c) + (q - p) <= HTTP_MAX_HEADER_SIZE
    ensures Within(start, data, q, c)
  {
    hide HeaderBytes;
    forall m: nat | m <= q ensures HeaderBytes(start, data, m, c) <= HTTP_MAX_HEADER_SIZE {
      if p <= m { HeaderBytesGrow(start, data, p, m, c); }
    }
  }

  /** A block none of whose bytes counts. */
  lemma WithinBody(start: Run, data: string, p: nat, k: nat, c: nat)
    requires RunOk(start) && Within(start, data, p, c) && p + k <= |data|
    requires var r := Scan(start, data, p); r.end == More && Swallows(r.f, k)
    ensures Within(start, data, p + k, c)
  {
    hide HeaderBytes, Scan, RunOk;
    forall m: nat | m <= p + k ensures HeaderBytes(start, data, m, c) <= HTTP_MAX_HEADER_SIZE {
      if p <= m {
        SwallowRun(start, data, p, m - p);
        assert HeaderBytes(start, data, p + (m - p), c) == HeaderBytes(start, data, p, c);
      }
    }
  }

  lemma CrowdedAt(start: Run, data: string, n: nat)
    requires n <= |data| && forall c: nat :: HeaderBytes(start, data, n, c) >= HTTP_MAX_HEADER_SIZE
    ensures forall c: nat :: Crowded(start, data, c)
  {
    hide HeaderBytes;
    forall c: nat ensures Crowded(start, data, c) {
      assert HeaderBytes(start, data, n, c) >= HTTP_MAX_HEADER_SIZE;
    }
  }

  lemma NotCrowded(start: Run, data: string, c: nat)
    requires Crowded(start, data, c)
    ensures c + |data| >= HTTP_MAX_HEADER_SIZE
  {
    hide HeaderBytes;
    var n: nat :| n <= |data| && HeaderBytes(start, data, n, c) >= HTTP_MAX_HEADER_SIZE;
    HeaderBytesBound(start, data, n, c, c);
  }

  lemma StillCrowded(start: Run, data: string, c: nat, d: nat)
    requires Crowded(start, data, c) && c <= d
    ensures Crowded(start, data, d)
  {
    hide HeaderBytes;
    var n: nat :| n <= |data| && HeaderBytes(start, data, n, c) >= HTTP_MAX_HEADER_SIZE;
    HeaderBytesBound(start, data, n, c, d);
  }

  /** The header bytes counted after some pieces, at most one of each counted twice. */
  function FedHeaderBytes(r: Run, pieces: seq<string>, c: nat): nat {
    if pieces == [] then c else
      var last := pieces[|pieces| - 1];
      HeaderBytes(Cut(Feed(r, pieces[..|pieces| - 1])), last, |last|,
                  FedHeaderBytes(r, pieces[..|pieces| - 1], c)) + 1
  }

  /** No header of the stream comes within one byte for each piece of the limit. */
  ghost predicate Roomy(r: Run, pieces: seq<string>, c: nat) {
    forall i :: 0 <= i < |pieces| ==>
      !Crowded(Cut(Feed(r, pieces[..i])), pieces[i], FedHeaderBytes(r, pieces[..i], c))
  }

  /** The header bytes counted after some pieces, each of them once. */
  function FedOnce(r: Run, pieces: seq<string>, c: nat): nat {
    if pieces == [] then c else
      var last := pieces[|pieces| - 1];
      HeaderBytes(Cut(Feed(r, pieces[..|pieces| - 1])), last, |last|, FedOnce(r, pieces[..|pieces| - 1], c))
  }

  /** No header of the stream has more bytes than the limit. */
  ghost predicate WithinLimit(r: Run, pieces: seq<string>, c: nat) {
    forall i :: 0 <= i < |pieces| ==>
      Within(Cut(Feed(r, pieces[..i])), pieces[i], |pieces[i]|, FedOnce(r, pieces[..i], c))
  }

  lemma WithinLess(start: Run, data: string, n: nat, c: nat, d: nat)
    requires Within(start, data, n, d) && c <= d
    ensures Within(start, data, n, c)
  {
    hide HeaderBytes;
    forall m: nat | m <= n ensures HeaderBytes(start, data, m, c) <= HTTP_MAX_HEADER_SIZE {
      HeaderBytesBound(start, data, m, c, d);
    }
  }

  lemma OnceNothing(r: Run, pieces: seq<string>, c: nat)
    ensures FedOnce(r, pieces[..0], c) == c && WithinLimit(r, pieces[..0], c)
  {
  }

  lemma OnceStep(r: Run, pieces: seq<string>, i: nat, c: nat, was: nat)
    requires i < |pieces| && FedOnce(r, pieces[..i], c) <= was && WithinLimit(r, pieces[..i], c)
    requires Within(Cut(Feed(r, pieces[..i])), pieces[i], |pieces[i]|, was)
    ensures WithinLimit(r, pieces[..i + 1], c)
    ensures FedOnce(r, pieces[..i + 1], c) <= HeaderBytes(Cut(Feed(r, pieces[..i])), pieces[i], |pieces[i]|, was)
  {
    hide Feed, HeaderBytes, Cut, Within;
    var more := pieces[..i + 1];
    assert more[..i] == pieces[..i] && more[i] == pieces[i];
    var once := FedOnce(r, pieces[..i], c);
    HeaderBytesBound(Cut(Feed(r, pieces[..i])), pieces[i], |pieces[i]|, once, was);
    WithinLess(Cut(Feed(r, pieces[..i])), pieces[i], |pieces[i]|, once, was);
    forall j | 0 <= j < |more| ensures Within(Cut(Feed(r, more[..j])), more[j], |more[j]|, FedOnce(r, more[..j], c)) {
      if j < i {
        assert more[..j] == pieces[..i][..j] && more[j] == pieces[..i][j];
      }
    }
  }

  const KINDS: seq<DataKind> := [Field, Value, Url, Body, Status]

  ghost function KindIndex(k: DataKind): (i: nat)
    ensures i < |KINDS| && KINDS[i] == k
  {
    match k case Field => 0 case Value => 1 case Url => 2 case Body => 3 case Status => 4
  }

  class HttpParser {
    var f: Fields
    var nread: nat
    /** The callbacks run so far; all of them return 0 and leave the parser alone. */
    var log: seq<Callback>

    /** `nread` is the count of header bytes, but for one counted twice at the end of a piece. */
    ghost predicate Counted(start: Run, data: string, p: nat, c: nat)
      reads this`nread
    {
      p <= |data| && var n := HeaderBytes(start, data, p, c); nread == n || (p == |data| && nread == n + 1)
    }

    predicate Valid()
      reads this
    {
      f.errno == OK ==> Inv(f) && nread <= HTTP_MAX_HEADER_SIZE && (f.state == ChunkLine(ChunkSizeStart) ==> nread == 0)
    }

    /** http_parser_init */
    constructor (kind: Kind, lenient: bool)
      ensures Valid() && f == Init(kind, lenient) && log == [] && nread == 0
    {
      f, nread, log := Init(kind, lenient), 0, [];
    }

    /** COUNT_HEADER_SIZE */
    method CountHeaderSize(v: nat) returns (ok: bool)
      requires nread <= HTTP_MAX_HEADER_SIZE && v + HTTP_MAX_HEADER_SIZE < U32
      modifies this`nread, this`f
      ensures ok == (old(nread) + v <= HTTP_MAX_HEADER_SIZE)
      ensures ok ==> f == old(f) && nread == old(nread) + v
      ensures !ok ==> f == old(f).(errno := HeaderOverflow)
    {
      nread := (nread + v) % U32;
      ok := nread <= HTTP_MAX_HEADER_SIZE;
      if !ok {
        f := f.(errno := HeaderOverflow);
      }
    }

    /** CALLBACK_DATA: `plus` includes the current byte. */
    method RunDataCallback(a: Act, marks: map<DataKind, nat>, data: string, p: nat, ghost m: Marks)
      returns (marks': map<DataKind, nat>)
      requires p < |data| && Shows(m, marks, log, data, p) && a.flush.Some?
      requires m.open.None? || m.open == a.flush
      modifies this`log
      ensures Shows(ApplyFlush(m, a, data[p]), marks', log, data, p)
    {
      hide Flat, ApplyFlush;
      var k := a.flush.value;
      marks' := marks;
      FlushShows(m, a, log, data, p);
      if k in marks {
        var end := p + if a.plus then 1 else 0;
        log := log + [DataCb(k, data[marks[k]..end])];
        marks' := marks - {k};
        assert marks' == map[];
      }
    }

    /** Everything one run of the switch asks for at byte p. */
    method Perform(a: Act, marks: map<DataKind, nat>, data: string, p: nat, ghost m: Marks)
      returns (marks': map<DataKind, nat>)
      requires p < |data| && Shows(m, marks, log, data, p) && HeldOk(m)
      requires Legal(m.open, a) && (a.note.Some? ==> OpenAfter(m.open, a).None?)
      modifies this`log, this`nread
      ensures Shows(ApplyAct(m, a, data[p]), marks', log, data, p)
      ensures nread == if a.reset then 0 else old(nread)
    {
      hide Flat;
      marks' := marks;
      if a.mark.Some? && a.mark.value !in marks {
        marks' := marks[a.mark.value := p];
        assert marks' == map[a.mark.value := p];
      }
      ghost var m1 := ApplyMark(m, a);
      assert Shows(m1, marks', log, data, p);
      if a.flush.Some? {
        marks' := RunDataCallback(a, marks', data, p, m1);
      }
      if a.reset {
        nread := 0;
      }
      if a.note.Some? {
        FlatSnoc(log, NoticeCb(a.note.value));
        log := log + [NoticeCb(a.note.value)];
      }
    }

    /** The switch and its REEXECUTE jumps on byte p. */
    method Jumps(data: string, p: nat, marks: map<DataKind, nat>, ghost m: Marks)
      returns (marks': map<DataKind, nat>, end: End)
      requires p < |data| && Shows(m, marks, log, data, p) && HeldOk(m)
      requires Inv(f) && f.errno == OK && MarkFits(f.state, m.open)
      modifies this
      ensures var c := RunSwitch(old(f), m, data[p], false);
        f == c.f && end == c.end && nread == (if c.reset then 0 else old(nread)) &&
        if end == Failed then Lose(c.m).evs == Flat(log) else Shows(c.m, marks', log, data, p)
    {
      hide Switch, RunSwitch, Inv, MarkFits, HeldOk, Legal, OpenAfter, Rank, Shows, ApplyAct, Lose, Flat, InitialMark;
      var ch := data[p];
      ghost var c, now, reset := RunSwitch(f, m, ch, false), m, false;
      marks' := marks;
      while true
        invariant Inv(f) && f.errno == OK && MarkFits(f.state, now.open) && HeldOk(now)
        invariant Shows(now, marks', log, data, p) && nread == if reset then 0 else old(nread)
        invariant var d := RunSwitch(f, now, ch, false);
          c.f == d.f && c.m == d.m && c.end == d.end && c.reset == (reset || d.reset)
        decreases Rank(f.state)
      {
        SwitchGood(f, ch, false);
        ChainUnfolds(f, now, ch);
        var micro := Switch(f, ch, false);
        if micro.Fail? {
          f := micro.f;
          LoseShows(now, marks', log, data, p);
          return marks', Failed;
        }
        ActKeepsMarks(f.state, micro.act, micro.f.state, now, ch);
        marks' := Perform(micro.act, marks', data, p, now);
        now := ApplyAct(now, micro.act, ch);
        reset := reset || micro.act.reset;
        f := micro.f;
        if !micro.Again? {
          return marks', if micro.Next? then More else Exited;
        }
      }
    }

    /** One run of the switch, with its jumps, on a byte of the piece. */
    method Reexecute(data: string, p: nat, marks: map<DataKind, nat>, ghost start: Run)
      returns (marks': map<DataKind, nat>, more: bool, n: nat)
      requires p < |data| && At(start, f, marks, log, data, p)
      requires var r := Scan(start, data, p); r.unchecked && InGeneral(f) ==> f.lenient || IsHeaderChar(data[p])
      requires nread <= HTTP_MAX_HEADER_SIZE && (f.state == ChunkLine(ChunkSizeStart) ==> nread == 1)
      modifies this
      ensures more ==> At(start, f, marks', log, data, p + 1) && Valid()
      ensures more ==> Scan(start, data, p + 1).unchecked == InGeneral(old(f))
      ensures !more ==> Over(start, f, log, data, n, if f.errno == OK then Exited else Failed) && Valid()
      ensures more ==> nread == if Resets(Scan(start, data, p), data[p]) then 0 else old(nread)
      ensures nread <= old(nread) && f.errno != HeaderOverflow
    {
      hide RunSwitch, Inv, MarkFits, HeldOk, InGeneral, Shows, EndByte, Lose, Flat;
      var ch := data[p];
      ghost var r := Scan(start, data, p);
      ScanKeeps(start, data, p);
      if r.unchecked && InGeneral(f) {
        UncheckedSame(f, r.m, ch);
      }
      ghost var c := RunSwitch(f, r.m, ch, false);
      ScanStep(start, data, p);
      ScanKeeps(start, data, p + 1);
      ChainResets(f, r.m, ch);
      var end;
      marks', end := Jumps(data, p, marks, r.m);
      more, n := end == More, if end == Exited then p + 1 else p;
      if more {
        ShowsNext(c.m, marks', log, data, p);
      } else {
        OverStays(start, data, p);
        if end == Exited {
          ShowsAll(c.m, marks', log, data, p);
        }
      }
    }

    /** The loop of s_header_field: to the first byte that is no token character. */
    method ScanField(data: string, p: nat, marks: map<DataKind, nat>, ghost start: Run) returns (q: nat)
      requires p < |data| && At(start, f, marks, log, data, p) && InField(f)
      modifies this`f
      ensures p <= q <= |data| && (q < |data| ==> Token(data[q]) == '\0')
      ensures At(start, f, marks, log, data, q) && InField(f)
      ensures forall c: nat :: HeaderBytes(start, data, q, c) == HeaderBytes(start, data, p, c) + (q - p)
    {
      hide StepRun, Inv, MarkFits, Token, Shows, FieldByte, EndByte, Resets, HeaderBytes;
      q := p;
      while q < |data| && Token(data[q]) != '\0'
        invariant p <= q <= |data|
        invariant At(start, f, marks, log, data, q) && InField(f)
        invariant forall c: nat :: HeaderBytes(start, data, q, c) == HeaderBytes(start, data, p, c) + (q - p)
      {
        ghost var r := Scan(start, data, q);
        ScanKeeps(start, data, q);
        ScanStep(start, data, q);
        FieldStep(r, data[q]);
        CountedStep(start, data, p, q);
        FieldByteGood(f, data[q]);
        ShowsNext(r.m, marks, log, data, q);
        f := FieldByte(f, data[q]).value;
        q := q + 1;
      }
    }

    /** Two memchr calls over at most HTTP_MAX_HEADER_SIZE bytes: to the first CR or LF,
        or else to the end of the piece. */
    method FindLineEnd(data: string, q: nat) returns (e: nat)
      requires q < |data| && !IsLineEnd(data[q])
      ensures q < e <= |data|
      ensures e - q <= HTTP_MAX_HEADER_SIZE ==>
        (forall j :: q <= j < e ==> !IsLineEnd(data[j])) && (e < |data| ==> IsLineEnd(data[e]))
      ensures e - q > HTTP_MAX_HEADER_SIZE ==>
        e == |data| && forall j :: q <= j < q + HTTP_MAX_HEADER_SIZE ==> !IsLineEnd(data[j])
    {
      e := q;
      while e < |data| && e - q < HTTP_MAX_HEADER_SIZE && !IsLineEnd(data[e])
        invariant q <= e <= |data| && e - q <= HTTP_MAX_HEADER_SIZE
        invariant forall j :: q <= j < e ==> !IsLineEnd(data[j])
      {
        e := e + 1;
      }
      if e - q == HTTP_MAX_HEADER_SIZE {
        e := |data|;
      }
    }

    /** The loop of s_header_value: to a line end, a refused byte, or the end.  `far`
        tells that the skip ran over more bytes than a header may have. */
    method ScanValue(data: string, p: nat, marks: map<DataKind, nat>, ghost start: Run) returns (q: nat, far: bool)
      requires p < |data| && At(start, f, marks, log, data, p) && InValue(f) && !Scan(start, data, p).unchecked
      modifies this`f
      ensures p <= q <= |data| && (far ==> q - p > HTTP_MAX_HEADER_SIZE && q == |data| && f.errno == OK && Inv(f))
      ensures far ==> forall c: nat :: Crowded(start, data, c)
      ensures !far ==> At(start, f, marks, log, data, q) && InValue(f)
      ensures !far ==> forall c: nat :: HeaderBytes(start, data, q, c) == HeaderBytes(start, data, p, c) + (q - p)
      ensures !far && q < |data| && Scan(start, data, q).unchecked && InGeneral(f) ==> IsLineEnd(data[q])
      ensures !far && q < |data| && !IsLineEnd(data[q]) ==>
        (!f.lenient && !IsHeaderChar(data[q])) || ValueByte(f, data[q]).BadLength?
    {
      hide StepRun, Inv, MarkFits, Shows, ValueByte, EndByte, IsHeaderChar, IsLineEnd, Resets, HeaderBytes, Crowded;
      q, far := p, false;
      while q < |data| && !IsLineEnd(data[q]) && (f.lenient || IsHeaderChar(data[q]))
        invariant p <= q <= |data|
        invariant At(start, f, marks, log, data, q) && InValue(f)
        invariant forall c: nat :: HeaderBytes(start, data, q, c) == HeaderBytes(start, data, p, c) + (q - p)
        invariant q < |data| && Scan(start, data, q).unchecked ==> IsLineEnd(data[q])
      {
        ghost var r := Scan(start, data, q);
        ScanKeeps(start, data, q);
        if f.hs.General? {
          var e := FindLineEnd(data, q);
          if e - q > HTTP_MAX_HEADER_SIZE {
            SkipRun(start, f, marks, log, data, q, q + HTTP_MAX_HEADER_SIZE);
            CrowdedAt(start, data, q + HTTP_MAX_HEADER_SIZE);
            return e, true;
          }
          SkipRun(start, f, marks, log, data, q, e);
          q := e;
        } else {
          var b := ValueByte(f, data[q]);
          ValueByteGood(f, data[q]);
          if b.BadLength? {
            return;
          }
          ScanStep(start, data, q);
          ValueStep(r, data[q]);
          CountedStep(start, data, p, q);
          ShowsNext(r.m, marks, log, data, q);
          f := b.f;
          q := q + 1;
        }
      }
    }

    /** The block forms of the body states; q is the next byte to look at. */
    method SwallowBlock(data: string, p: nat, marks: map<DataKind, nat>, ghost start: Run)
      returns (q: nat, marks': map<DataKind, nat>)
      requires p < |data| && At(start, f, marks, log, data, p) && Swallows(f, 0)
      modifies this`f
      ensures p <= q <= |data| && At(start, f, marks', log, data, q)
      ensures q < |data| ==> q > p || f.state == Payload(BodyIdentity)
      ensures q == p ==> f == old(f)
      ensures forall c: nat :: HeaderBytes(start, data, q, c) == HeaderBytes(start, data, p, c)
      ensures forall c: nat :: Within(start, data, p, c) ==> Within(start, data, q, c)
      ensures f.state.Payload?
    {
      hide StepRun, Inv, MarkFits, Flat, HeaderBytes, RunOk, Bytes, Scan, Within;
      ScanKeeps(start, data, p);
      ghost var r := Scan(start, data, p);
      BodyMarks(r);
      var left := |data| - p;
      // Of s_body_identity the last byte is left to the switch, which also completes the message.
      var k := if f.state == Payload(BodyIdentityEof) then left
               else if f.state == Payload(ChunkData) then (if f.contentLength < left then f.contentLength else left)
               else (if f.contentLength <= left then f.contentLength - 1 else left);
      SwallowRun(start, data, p, k);
      forall c: nat | Within(start, data, p, c) ensures Within(start, data, p + k, c) {
        WithinBody(start, data, p, k, c);
      }
      marks' := marks;
      if k > 0 {
        if Body !in marks {
          marks' := marks[Body := p];
          SwallowShowsNew(r.m, marks, log, data, p, k);
        } else {
          SwallowShowsOpen(r.m, marks, log, data, p, k);
        }
        f := Swallow(f, k);
      }
      q := p + k;
    }

    /** s_header_value: scan, then the switch on the byte that stopped the scan. */
    method TurnInValue(data: string, p: nat, marks: map<DataKind, nat>, ghost start: Run, ghost c: nat)
      returns (q: nat, marks': map<DataKind, nat>, more: bool)
      requires p < |data| && |data| + HTTP_MAX_HEADER_SIZE < U32
      requires At(start, f, marks, log, data, p) && InValue(f) && !Scan(start, data, p).unchecked
      requires nread <= HTTP_MAX_HEADER_SIZE && nread == HeaderBytes(start, data, p, c) + 1 && Within(start, data, p, c)
      modifies this
      ensures Valid()
      ensures more ==> p < q <= |data| && At(start, f, marks', log, data, q)
      ensures more && q < |data| && InValue(f) ==> !Scan(start, data, q).unchecked
      ensures more ==> Counted(start, data, q, c) && Within(start, data, q, c)
      ensures f.errno == HeaderOverflow ==> Crowded(start, data, c)
      ensures !more && f.errno != HeaderOverflow ==>
        Over(start, f, log, data, q, if f.errno == OK then Exited else Failed)
    {
      hide StepRun, Inv, MarkFits, Shows, Scan, Resets, HeaderBytes, Within;
      var stored := f.hs;
      var far, ok, consumed;
      marks' := marks;
      q, far := ScanValue(data, p, marks, start);
      ScanKeeps(start, data, p);
      ScanKeeps(start, data, q);
      if q == |data| {
        more := CountHeaderSize(q - p);
        if more { WithinBlock(start, data, p, q, c); }
        return;
      }
      var ch := data[q];
      if ch == '\n' {
        ok := CountHeaderSize(q - p);
        if !ok {
          f := f.(state := Header(HeaderAlmostDone));
          more := false;
          return;
        }
      }
      ScanStep(start, data, q);
      HeaderStep(start, data, q, c);
      if IsLineEnd(ch) {
        LineEndLeavesValue(Scan(start, data, q), ch);
      } else {
        RefusedFails(Scan(start, data, q), ch);
      }
      marks', more, consumed := Reexecute(data, q, marks', start);
      ScanKeeps(start, data, q + 1);
      if ch == '\r' && more {
        more := CountHeaderSize(q - p);
      }
      if more {
        WithinBlock(start, data, p, q, c);
        WithinNext(start, data, q, c);
      }
      if f.errno == InvalidHeaderToken && InValue(f) {
        f := f.(hs := stored);
      }
      q := if more then q + 1 else consumed;
    }

    /** One iteration of the byte loop, which may consume a block. */
    method Turn(data: string, p: nat, marks: map<DataKind, nat>, ghost start: Run, ghost c: nat)
      returns (q: nat, marks': map<DataKind, nat>, more: bool)
      requires p < |data| && |data| + HTTP_MAX_HEADER_SIZE < U32
      requires At(start, f, marks, log, data, p) && Valid()
      requires InValue(f) ==> !Scan(start, data, p).unchecked
      requires nread == HeaderBytes(start, data, p, c) && Within(start, data, p, c)
      modifies this
      ensures Valid()
      ensures more ==> p < q <= |data| && At(start, f, marks', log, data, q)
      ensures more && q < |data| && InValue(f) ==> !Scan(start, data, q).unchecked
      ensures more ==> Counted(start, data, q, c) && Within(start, data, q, c)
      ensures f.errno == HeaderOverflow ==> Crowded(start, data, c)
      ensures !more && f.errno != HeaderOverflow ==>
        Over(start, f, log, data, q, if f.errno == OK then Exited else Failed)
    {
      hide StepRun, Inv, MarkFits, Shows, Scan, Resets, HeaderBytes, Within;
      ScanKeeps(start, data, p);
      q, marks', more := p, marks, true;
      if ParsingHeader(f.state) {
        var ok := CountHeaderSize(1);
        if !ok {
          return p, marks, false;
        }
      }
      if InField(f) {
        q := ScanField(data, p, marks, start);
        ScanKeeps(start, data, q);
        var ok := CountHeaderSize(q - p);
        if ok { WithinBlock(start, data, p, q, c); }
        if !ok || q == |data| {
          more := ok;
          return;
        }
      } else if Swallows(f, 0) {
        q, marks' := SwallowBlock(data, p, marks, start);
        ScanKeeps(start, data, q);
        if q == |data| || q > p {
          return;
        }
      } else if InValue(f) {
        q, marks', more := TurnInValue(data, p, marks, start, c);
        return;
      }
      HeaderStep(start, data, q, c);
      var consumed;
      marks', more, consumed := Reexecute(data, q, marks', start);
      if more { WithinNext(start, data, q, c); }
      q := if more then q + 1 else consumed;
    }

    /** The data callbacks of marks left over at the end of a piece. */
    method RunCallbacksLeft(data: string, marks: map<DataKind, nat>, ghost m: Marks)
      requires Shows(m, marks, log, data, |data|)
      modifies this`log
      ensures Flat(log) == m.evs
    {
      hide Flat, Bytes;
      assert marks.Keys == if m.open.Some? then {m.open.value} else {}; // so at most one is set
      ghost var which := if m.open.Some? then KindIndex(m.open.value) else 0;
      var left := marks;
      for i := 0 to |KINDS|
        invariant left == marks || left == map[]
        invariant left == marks ==> log == old(log) && forall j :: 0 <= j < i ==> KINDS[j] !in marks
        invariant left == map[] ==> Flat(log) == m.evs
      {
        var k := KINDS[i];
        if k in left {
          FlatSnoc(log, DataCb(k, data[left[k]..]));
          log := log + [DataCb(k, data[left[k]..])];
          left := left - {k};
        }
      }
    }

    /** http_parser_execute with len == 0: the end of the stream. */
    method Finish() returns (n: nat)
      requires Valid() && f.errno == OK
      modifies this`f, this`log
      ensures Valid()
      ensures f.errno == OK <==> AtEnd(old(f))
      ensures f == if f.errno == OK then old(f) else old(f).(errno := InvalidEofState)
      ensures log == old(log) + Ending(old(f))
      ensures n == if f.errno == OK then 0 else 1
    {
      n := 0;
      match f.state
      case Payload(BodyIdentityEof) => log := log + [NoticeCb(MessageComplete)];
      case Start(Dead) | Start(StartReqOrRes) | Start(StartRes) | Start(StartReq) =>
      case _ =>
        f := f.(errno := InvalidEofState);
        n := 1;
    }

    /** http_parser_execute on a piece.  Pieces so long that the 32-bit `nread` could
        wrap past the overflow check are outside the model.  `exited` tells of the
        upgrade exit, which the source reports through `parser->upgrade`.

        A call can count one byte of a header twice, where its piece ends.  The limit stops
        it only if the bytes counted for one header come within one byte of the limit, and lets
        no header pass that has more; body bytes do not count.  Unless the limit stops it, the
        call ends in the state, at the byte and with the callbacks that the run so far reaches byte by byte on the
        piece. */
    method Execute(data: string, ghost sofar: Run) returns (n: nat, exited: bool)
      requires Valid() && |data| + HTTP_MAX_HEADER_SIZE < U32
      requires f.errno == OK ==> Resumes(sofar, f, log)
      modifies this
      ensures Valid()
      ensures old(f.errno) != OK ==> n == 0 && f == old(f) && log == old(log) && !exited
      ensures old(f.errno) == OK && data != "" && f.errno != HeaderOverflow ==>
        Over(Cut(sofar), f, log, data, n, if f.errno != OK then Failed else if exited then Exited else More)
      ensures exited ==> f.errno == OK
      ensures old(f.errno) == OK && data != "" ==>
        (f.errno == OK && !exited ==>
          Counted(Cut(sofar), data, |data|, old(nread)) && Within(Cut(sofar), data, |data|, old(nread))) &&
        (f.errno == HeaderOverflow ==> Crowded(Cut(sofar), data, old(nread)))
      ensures old(f.errno) == OK && data == "" ==>
        !exited && nread == old(nread) && (f.errno == OK <==> AtEnd(old(f))) && n == (if f.errno == OK then 0 else 1) &&
        f == (if f.errno == OK then old(f) else old(f).(errno := InvalidEofState)) && log == old(log) + Ending(old(f))
    {
      hide StepRun, Inv, Flat, Scan, InitialMark, Bytes, Cut, HeaderBytes, Crowded, Within;
      exited := false;
      if f.errno != OK {
        return 0, false;
      }
      if data == "" {
        n := Finish();
        return;
      }
      ghost var start := Cut(sofar);
      StartOk(sofar, f, log, data);
      NothingCounted(start, data, nread);
      WithinStart(start, data, nread);
      var k := InitialMark(f.state);
      var marks: map<DataKind, nat> := if k.Some? then map[k.value := 0] else map[];
      var p, more := 0, true;
      while p < |data|
        invariant p <= |data| && At(start, f, marks, log, data, p) && Valid()
        invariant p < |data| && InValue(f) ==> !Scan(start, data, p).unchecked
        invariant Counted(start, data, p, old(nread)) && Within(start, data, p, old(nread))
      {
        p, marks, more := Turn(data, p, marks, start, old(nread));
        if !more {
          return p, f.errno == OK;
        }
      }
      ScanKeeps(start, data, |data|);
      RunCallbacksLeft(data, marks, Scan(start, data, |data|).m);
      return |data|, false;
    }

    /** An application that hands over a stream piece by piece and stops when a call
        fails or takes the upgrade exit: how it cuts the stream does not show. */
    method ExecuteAll(pieces: seq<string>) returns (consumed: nat, exited: bool)
      requires Valid() && f.errno == OK && log == []
      requires forall piece :: piece in pieces ==> piece != "" && |piece| + HTTP_MAX_HEADER_SIZE < U32
      modifies this
      ensures Valid()
      ensures f.errno != HeaderOverflow ==>
        var r := Feed(Begin(old(f)), pieces);
        Observe(f) == Observe(r.f) && Flat(log) == r.m.evs && consumed == r.used && (exited <==> r.end == Exited)
      ensures Roomy(Begin(old(f)), pieces, old(nread)) ==> f.errno != HeaderOverflow
      ensures old(nread) + |Concat(pieces)| + |pieces| <= HTTP_MAX_HEADER_SIZE ==> f.errno != HeaderOverflow
      ensures f.errno == OK && !exited ==> WithinLimit(Begin(old(f)), pieces, old(nread))
      ensures f.errno != HeaderOverflow && !HidesBadByte(old(f), Concat(pieces)) ==>
        Agree(Feed(Begin(old(f)), pieces), Single(old(f), Concat(pieces), |Concat(pieces)|)) &&
        (LosesTail(old(f), Concat(pieces), |Concat(pieces)|) ||
         Flat(log) == Single(old(f), Concat(pieces), |Concat(pieces)|).m.evs)
    {
      hide StepRun, Inv, Scan, InitialMark, Bytes, Cut, Bytewise, HiddenAt, Flat, Feed, HeaderBytes, FedHeaderBytes,
        Crowded, Roomy, LosesTail, Concat, FedOnce, Within, WithinLimit;
      consumed, exited := 0, false;
      ghost var start := Begin(f);
      StartFeed(f, pieces);
      FedNothing(start, pieces, nread);
      OnceNothing(start, pieces, nread);
      if !HidesBadByte(f, Concat(pieces)) {
        CuttingIndependence(f, Concat(pieces));
        EventsIndependence(f, Concat(pieces));
        if !LosesTail(f, Concat(pieces), |Concat(pieces)|) {
          assert SameResult(Feed(start, pieces), Single(f, Concat(pieces), |Concat(pieces)|));
        }
      }
      var i := 0;
      while i < |pieces|
        invariant i <= |pieces| && Valid() && !exited
        invariant FedOnce(start, pieces[..i], old(nread)) <= nread <= FedHeaderBytes(start, pieces[..i], old(nread))
        invariant WithinLimit(start, pieces[..i], old(nread))
        invariant Resumes(Feed(start, pieces[..i]), f, log) && consumed == Feed(start, pieces[..i]).used
      {
        ghost var sofar := Feed(start, pieces[..i]);
        ghost var was := nread;
        FeedStep(start, pieces, i);
        FedStep(start, pieces, i, old(nread), was);
        FeedKeeps(start, pieces[..i + 1]);
        var n;
        n, exited := Execute(pieces[i], sofar);
        consumed := consumed + n;
        if f.errno != OK || exited {
          if f.errno == HeaderOverflow {
            Overflowed(start, pieces, i, old(nread), was);
          } else {
            FeedStopped(start, pieces, i + 1);
          }
          assert pieces[..|pieces|] == pieces;
          return;
        }
        OnceStep(start, pieces, i, old(nread), was);
        i := i + 1;
      }
      assert pieces[..|pieces|] == pieces;
    }
  }

  lemma FedNothing(r: Run, pieces: seq<string>, c: nat)
    ensures FedHeaderBytes(r, pieces[..0], c) == c
  {
  }

  lemma FedStep(r: Run, pieces: seq<string>, i: nat, c: nat, was: nat)
    requires i < |pieces| && was <= FedHeaderBytes(r, pieces[..i], c)
    ensures FedHeaderBytes(r, pieces[..i + 1], c) ==
            HeaderBytes(Cut(Feed(r, pieces[..i])), pieces[i], |pieces[i]|, FedHeaderBytes(r, pieces[..i], c)) + 1
    ensures HeaderBytes(Cut(Feed(r, pieces[..i])), pieces[i], |pieces[i]|, was) + 1 <=
            FedHeaderBytes(r, pieces[..i + 1], c)
  {
    hide Feed, HeaderBytes, Cut;
    assert pieces[..i + 1][..i] == pieces[..i];
    HeaderBytesBound(Cut(Feed(r, pieces[..i])), pieces[i], |pieces[i]|, was, FedHeaderBytes(r, pieces[..i], c));
  }

  lemma {:induction false} FedBound(r: Run, pieces: seq<string>, i: nat, c: nat)
    requires i <= |pieces|
    ensures FedHeaderBytes(r, pieces[..i], c) <= c + |Concat(pieces[..i])| + i
  {
    hide FedHeaderBytes, HeaderBytes, Concat;
    if i == 0 {
      FedNothing(r, pieces, c);
    } else {
      FedBound(r, pieces, i - 1, c);
      var was := FedHeaderBytes(r, pieces[..i - 1], c);
      FedStep(r, pieces, i - 1, c, was);
      ConcatStep(pieces, i - 1);
      HeaderBytesBound(Cut(Feed(r, pieces[..i - 1])), pieces[i - 1], |pieces[i - 1]|, was, was);
    }
  }

  lemma Overflowed(r: Run, pieces: seq<string>, i: nat, c: nat, was: nat)
    requires i < |pieces| && was <= FedHeaderBytes(r, pieces[..i], c)
    requires Crowded(Cut(Feed(r, pieces[..i])), pieces[i], was)
    ensures !Roomy(r, pieces, c) && c + |Concat(pieces)| + |pieces| > HTTP_MAX_HEADER_SIZE
  {
    hide Crowded, FedHeaderBytes, Cut, Feed, Concat;
    StillCrowded(Cut(Feed(r, pieces[..i])), pieces[i], was, FedHeaderBytes(r, pieces[..i], c));
    NotCrowded(Cut(Feed(r, pieces[..i])), pieces[i], FedHeaderBytes(r, pieces[..i], c));
    FedBound(r, pieces, i, c);
    ConcatStep(pieces, i);
  }

  lemma ConcatStep(pieces: seq<string>, i: nat)
    requires i < |pieces|
    ensures |Concat(pieces[..i + 1])| == |Concat(pieces[..i])| + |pieces[i]| <= |Concat(pieces)|
  {
    assert pieces[..i + 1][..i] == pieces[..i];
    ConcatGrows(pieces, i + 1);
  }

  lemma {:induction false} ConcatGrows(pieces: seq<string>, i: nat)
    requires i <= |pieces|
    ensures |Concat(pieces[..i])| <= |Concat(pieces)|
    decreases |pieces|
  {
    var k := |pieces| - 1;
    if i <= k {
      ConcatGrows(pieces[..k], i);
      assert pieces[..k][..i] == pieces[..i];
    } else {
      assert pieces[..i] == pieces;
    }
  }

  lemma StartFeed(f: Fields, pieces: seq<string>)
    requires Inv(f) && f.errno == OK
    ensures Feed(Begin(f), pieces[..0]) == Begin(f) && Resumes(Begin(f), f, []) && Begin(f).used == 0
  {
    hide Inv;
  }

  lemma FeedStep(r: Run, pieces: seq<string>, i: nat)
    requires i < |pieces|
    ensures Feed(r, pieces[..i + 1]) == Scan(Cut(Feed(r, pieces[..i])), pieces[i], |pieces[i]|)
    ensures Cut(Feed(r, pieces[..i])).used == Feed(r, pieces[..i]).used
  {
    hide Scan;
    assert pieces[..i + 1][..i] == pieces[..i];
  }

  lemma {:induction false} FeedStopped(r: Run, pieces: seq<string>, i: nat)
    requires i <= |pieces| && Feed(r, pieces[..i]).end != More
    ensures Feed(r, pieces[..|pieces|]) == Feed(r, pieces[..i])
    decreases |pieces| - i
  {
    hide Feed, Scan;
    if i < |pieces| {
      FeedStep(r, pieces, i);
      ScanStopped(Cut(Feed(r, pieces[..i])), pieces[i], |pieces[i]|);
      FeedStopped(r, pieces, i + 1);
    }
  }
}
