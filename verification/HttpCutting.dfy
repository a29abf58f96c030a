/** How a stream is cut into pieces does not matter to http_parser_execute,
    except where its memchr skip hides a forbidden header byte. */
module HttpCutting {
  import opened HttpTypes
  import opened HttpStep
  import opened HttpRun

  // ----- What every reachable run keeps

  /** The undelivered events are bytes of the open mark. */
  predicate HeldOk(m: Marks) {
    m.held <= |m.evs| && (m.open.None? ==> m.held == 0) &&
    forall i :: |m.evs| - m.held <= i < |m.evs| ==> m.evs[i].Byte? && m.open == Some(m.evs[i].k)
  }

  predicate RunOk(r: Run) {
    match r.end
    case More => Inv(r.f) && r.f.errno == OK && MarkFits(r.f.state, r.m.open) && HeldOk(r.m)
    case Failed => r.f.errno != OK
    case Exited => Inv(r.f) && r.f.errno == OK && r.m.open.None?
    case Aborted => false
  }

  lemma ActKeepsMarks(s: State, a: Act, t: State, m: Marks, ch: char)
    requires GoodMark(s, a, t) && MarkFits(s, m.open) && HeldOk(m)
    ensures MarkFits(t, ApplyAct(m, a, ch).open) && HeldOk(ApplyAct(m, a, ch))
    ensures ApplyAct(m, a, ch).open == OpenAfter(m.open, a)
    ensures m.held == 0 ==> ApplyAct(m, a, ch).held == 0
    ensures Legal(m.open, a) && (a.note.Some? ==> OpenAfter(m.open, a).None?)
  {
  }

  lemma StartHasNoMark(s: State, open: Option<DataKind>)
    requires s.Start? && MarkFits(s, open)
    ensures open.None?
  {
  }

  lemma {:induction false} ChainKeeps(f: Fields, m: Marks, ch: char, u: bool)
    requires Inv(f) && f.errno == OK && MarkFits(f.state, m.open) && HeldOk(m)
    ensures var c := RunSwitch(f, m, ch, u);
      HeldOk(c.m) && RunOk(Run(c.f, 0, c.m, false, c.end)) && (m.held == 0 ==> c.m.held == 0)
    decreases Rank(f.state)
  {
    hide Switch, Inv, MarkFits, GoodMark, HeldOk, ApplyAct, Rank, InitialMark;
    SwitchGood(f, ch, u);
    match Switch(f, ch, u)
    case Next(g, a) => ActKeepsMarks(f.state, a, g.state, m, ch);
    case Exit(g, a) =>
      ActKeepsMarks(f.state, a, g.state, m, ch);
      StartHasNoMark(g.state, ApplyAct(m, a, ch).open);
    case Again(g, a) =>
      ActKeepsMarks(f.state, a, g.state, m, ch);
      ChainKeeps(g, ApplyAct(m, a, ch), ch, u);
    case Fail(g) =>
    case Abort =>
  }

  lemma StepKeeps(r: Run, ch: char)
    requires RunOk(r)
    ensures RunOk(StepRun(r, ch))
    ensures r.used <= StepRun(r, ch).used
  {
    hide RunSwitch, Inv, MarkFits, HeldOk, InGeneral, Lose;
    if r.end == More {
      ChainKeeps(r.f, r.m, ch, r.unchecked && InGeneral(r.f));
      EndByteHeld(RunSwitch(r.f, r.m, ch, r.unchecked && InGeneral(r.f)).m, ch);
    }
  }

  lemma EndByteHeld(m: Marks, ch: char)
    requires HeldOk(m)
    ensures HeldOk(EndByte(m, ch)) && EndByte(m, ch).open == m.open
  {
  }

  lemma {:induction false} ScanKeeps(r: Run, data: string, n: nat)
    requires RunOk(r) && n <= |data|
    ensures RunOk(Scan(r, data, n)) && r.used <= Scan(r, data, n).used
  {
    hide StepRun, RunOk;
    if n > 0 {
      ScanKeeps(r, data, n - 1);
      StepKeeps(Scan(r, data, n - 1), data[n - 1]);
    }
  }

  lemma CutKeeps(r: Run)
    requires RunOk(r)
    ensures RunOk(Cut(r))
  {
    hide Inv;
  }

  /** Over every run, in any number of pieces: the invariant holds, no assertion of
      http_parser.c fails, and the pending bytes belong to the one open mark. */
  lemma {:induction false} FeedKeeps(r: Run, pieces: seq<string>)
    requires RunOk(r)
    ensures RunOk(Feed(r, pieces))
  {
    hide Scan, RunOk, Cut;
    if pieces != [] {
      FeedKeeps(r, pieces[..|pieces| - 1]);
      CutKeeps(Feed(r, pieces[..|pieces| - 1]));
      var last := pieces[|pieces| - 1];
      ScanKeeps(Cut(Feed(r, pieces[..|pieces| - 1])), last, |last|);
    }
  }

  lemma {:induction false} BytewiseKeeps(r: Run, data: string, n: nat)
    requires RunOk(r) && n <= |data|
    ensures RunOk(Bytewise(r, data, n))
  {
    hide StepRun, RunOk, Cut;
    if n > 0 {
      BytewiseKeeps(r, data, n - 1);
      CutKeeps(Bytewise(r, data, n - 1));
      StepKeeps(Cut(Bytewise(r, data, n - 1)), data[n - 1]);
    }
  }

  lemma InitOk(kind: Kind, lenient: bool)
    ensures RunOk(Cut(Begin(Init(kind, lenient))))
  {
  }

  // ----- Two runs that differ only in where the stream was cut

  /** x has delivered all of y's events but a tail of bytes of one callback. */
  predicate LostTail(x: seq<Event>, y: seq<Event>) {
    x <= y &&
    (|x| < |y| ==> y[|x|].Byte? && forall i :: |x| <= i < |y| ==> y[i].Byte? && y[i].k == y[|x|].k)
  }

  /** The same parser state at the same byte with the same events.  A failing call
      drops the pending bytes of its open mark, and how many are pending depends
      on the last cut. */
  predicate Agree(x: Run, y: Run) {
    x.f == y.f && x.used == y.used && x.end == y.end &&
    (if x.end == Failed then LostTail(x.m.evs, y.m.evs) else x.m.evs == y.m.evs)
  }

  lemma ActSame(s: State, a: Act, t: State, m: Marks, w: Marks, ch: char)
    requires GoodMark(s, a, t) && MarkFits(s, m.open) && MarkFits(s, w.open) && m.evs == w.evs
    ensures ApplyAct(m, a, ch).open == ApplyAct(w, a, ch).open
    ensures ApplyAct(m, a, ch).evs == ApplyAct(w, a, ch).evs
  {
  }

  lemma {:induction false} ChainSame(f: Fields, m: Marks, w: Marks, ch: char, u: bool)
    requires Inv(f) && f.errno == OK && MarkFits(f.state, m.open) && MarkFits(f.state, w.open)
    requires HeldOk(m) && HeldOk(w) && m.evs == w.evs
    ensures var c, d := RunSwitch(f, m, ch, u), RunSwitch(f, w, ch, u);
      c.f == d.f && c.end == d.end && c.m.evs == d.m.evs && (c.end == More ==> c.m.open == d.m.open)
    decreases Rank(f.state)
  {
    hide Switch, Inv, MarkFits, GoodMark, HeldOk, ApplyAct, Rank;
    SwitchGood(f, ch, u);
    match Switch(f, ch, u)
    case Next(g, a) => ActSame(f.state, a, g.state, m, w, ch);
    case Exit(g, a) => ActSame(f.state, a, g.state, m, w, ch);
    case Again(g, a) =>
      ActSame(f.state, a, g.state, m, w, ch);
      ActKeepsMarks(f.state, a, g.state, m, ch);
      ActKeepsMarks(f.state, a, g.state, w, ch);
      ChainSame(g, ApplyAct(m, a, ch), ApplyAct(w, a, ch), ch, u);
    case Fail(g) =>
    case Abort =>
  }

  /** Where the check is allowed to look, it would not have refused. */
  lemma UncheckedSame(f: Fields, m: Marks, ch: char)
    requires InGeneral(f) && (f.lenient || IsHeaderChar(ch))
    ensures RunSwitch(f, m, ch, true) == RunSwitch(f, m, ch, false)
  {
    hide ApplyAct;
    if ch == '\n' {
      var g := f.(state := Header(HeaderAlmostDone));
      assert Switch(f, ch, true) == Again(g, Flushing(Value)) == Switch(f, ch, false);
      assert Switch(g, ch, true) == Switch(g, ch, false);
    } else {
      assert Switch(f, ch, true) == Switch(f, ch, false);
    }
  }

  /** What a REEXECUTE may ask for before the byte fails in its new state: nothing, or a
      callback for an empty header value. */
  predicate Harmless(s: State, a: Act) {
    a == NOTHING || (s == Header(HeaderValueDiscardLws) && a == Act(Some(Value), Some(Value), false, false, None))
  }

  /** States a REEXECUTE enters with a byte that they accept at once. */
  predicate Accepts(g: Fields, ch: char) {
    (g.state == StatusLine(ResStatus) && IsLineEnd(ch)) || g.state == Payload(MessageDone) ||
    (ch == '\n' && (g.state == Header(HeaderAlmostDone) || g.state == HeadersEnd(HeadersDone)))
  }

  predicate AgainOk(s: State, m: Micro, ch: char) {
    m.Again? ==> Harmless(s, m.act) || Accepts(m.f, ch)
  }

  lemma AgainIs(f: Fields, ch: char, u: bool)
    ensures AgainOk(f.state, Switch(f, ch, u), ch)
  {
    hide AgainOk, StartSwitch, StatusLineSwitch, MethodSwitch, TargetSwitch, VersionSwitch, FieldSwitch, ValueSwitch,
      HeadersEndSwitch, ChunkLineSwitch, PayloadSwitch;
    if f.state.Header? {
      AgainInHeader(f, ch, u);
    } else {
      AgainElsewhere(f, ch);
    }
  }

  lemma AgainInHeader(f: Fields, ch: char, u: bool)
    requires f.state.Header?
    ensures AgainOk(f.state, FieldSwitch(f, f.state.header, ch), ch)
    ensures (!f.state.header.HeaderFieldStart? && !f.state.header.HeaderField?) ==>
      AgainOk(f.state, ValueSwitch(f, f.state.header, ch, u), ch)
  {
    hide FieldByte, ValueByte, Token, Finished;
  }

  lemma AgainElsewhere(f: Fields, ch: char)
    ensures match f.state
            case Start(s) => AgainOk(f.state, StartSwitch(f, s, ch), ch)
            case StatusLine(s) => AgainOk(f.state, StatusLineSwitch(f, s, ch), ch)
            case Method => AgainOk(f.state, MethodSwitch(f, ch), ch)
            case Target(s) => AgainOk(f.state, TargetSwitch(f, s, ch), ch)
            case Version(s) => AgainOk(f.state, VersionSwitch(f, s, ch), ch)
            case Header(_) => true
            case HeadersEnd(s) => AgainOk(f.state, HeadersEndSwitch(f, s, ch), ch)
            case ChunkLine(s) => AgainOk(f.state, ChunkLineSwitch(f, s, ch), ch)
            case Payload(s) => AgainOk(f.state, PayloadSwitch(f, s, ch), ch)
  {
    hide Reguess, MethodName, ParseUrlChar, NewMessage, NeedsEof;
  }

  lemma Accepted(g: Fields, ch: char, u: bool)
    requires Accepts(g, ch)
    ensures Switch(g, ch, u).Next? || Switch(g, ch, u).Exit?
  {
    hide NewMessage, NeedsEof;
  }

  /** A failing chain has handed over nothing: the pending bytes are those before it. */
  lemma {:induction false} ChainFails(f: Fields, m: Marks, ch: char, u: bool)
    requires Inv(f) && f.errno == OK && MarkFits(f.state, m.open) && HeldOk(m)
    requires RunSwitch(f, m, ch, u).end == Failed
    ensures RunSwitch(f, m, ch, u).m.evs == m.evs && RunSwitch(f, m, ch, u).m.held == m.held
    decreases Rank(f.state)
  {
    hide Switch, Inv, GoodMark, Rank, InitialMark, Accepts, HeldOk, ApplyAct, MarkFits;
    SwitchGood(f, ch, u);
    match Switch(f, ch, u)
    case Again(g, a) =>
      AgainIs(f, ch, u);
      ActKeepsMarks(f.state, a, g.state, m, ch);
      if Harmless(f.state, a) {
        HarmlessAct(f.state, a, m, ch);
        ChainFails(g, ApplyAct(m, a, ch), ch, u);
      } else {
        Accepted(g, ch, u);
      }
    case _ =>
  }

  lemma HarmlessAct(s: State, a: Act, m: Marks, ch: char)
    requires Harmless(s, a) && MarkFits(s, m.open) && HeldOk(m)
    ensures ApplyAct(m, a, ch).evs == m.evs && ApplyAct(m, a, ch).held == m.held
  {
  }

  lemma LoseHeld(m: Marks)
    requires HeldOk(m)
    ensures Lose(m).evs == m.evs[..|m.evs| - m.held]
  {
  }

  /** One byte later two agreeing runs still agree. */
  lemma StepAgree(x: Run, y: Run, ch: char)
    requires RunOk(x) && RunOk(y) && Agree(x, y)
    requires y.end == More ==> y.m.held == 0
    requires x.end == More && x.unchecked && InGeneral(x.f) ==> x.f.lenient || IsHeaderChar(ch)
    requires y.end == More ==> !y.unchecked
    ensures Agree(StepRun(x, ch), StepRun(y, ch))
    ensures x.end == More ==>
      match StepRun(x, ch).end
      case More => StepRun(x, ch).m.open == StepRun(y, ch).m.open
      case Failed =>
        StepRun(y, ch).m.evs == y.m.evs && x.m.held <= |x.m.evs| &&
        StepRun(x, ch).m.evs == x.m.evs[..|x.m.evs| - x.m.held]
      case _ => true
  {
    hide RunSwitch, Inv, MarkFits, HeldOk, Lose;
    if x.end == More {
      var u := x.unchecked && InGeneral(x.f);
      if u { UncheckedSame(x.f, x.m, ch); }
      var c, d := RunSwitch(x.f, x.m, ch, u), RunSwitch(y.f, y.m, ch, false);
      assert c == RunSwitch(x.f, x.m, ch, false);
      ChainSame(x.f, x.m, y.m, ch, false);
      ChainKeeps(x.f, x.m, ch, false);
      ChainKeeps(y.f, y.m, ch, false);
      if c.end == Failed {
        ChainFails(x.f, x.m, ch, false);
        ChainFails(y.f, y.m, ch, false);
        LoseHeld(c.m);
        LoseHeld(d.m);
        HeldBytes(x.m);
      }
    }
  }

  /** The pending events are the last ones, and bytes of one callback. */
  lemma HeldBytes(m: Marks)
    requires HeldOk(m)
    ensures m.held <= |m.evs| && LostTail(m.evs[..|m.evs| - m.held], m.evs)
  {
  }

  // ----- The cutting theorem

  function Concat(pieces: seq<string>): string {
    if pieces == [] then "" else Concat(pieces[..|pieces| - 1]) + pieces[|pieces| - 1]
  }

  /** The run over single bytes of a whole stream. */
  function Single(f: Fields, data: string, n: nat): Run
    requires n <= |data|
  {
    Bytewise(Begin(f), data, n)
  }

  /** Byte i is one the header-value check would refuse, but it follows a byte of the
      same general value, so a piece that holds both never looks at it. */
  predicate HiddenAt(f: Fields, data: string, i: nat) {
    1 <= i < |data| && InGeneral(Single(f, data, i - 1).f) && Single(f, data, i).end == More &&
    InGeneral(Single(f, data, i).f) && !Single(f, data, i).f.lenient && !IsHeaderChar(data[i])
  }

  predicate HidesBadByte(f: Fields, data: string) {
    exists i | 1 <= i < |data| :: HiddenAt(f, data, i)
  }

  /** The stream is refused at a byte behind an open mark that already covers a byte. */
  predicate LosesTail(f: Fields, data: string, n: nat)
    requires n <= |data|
  {
    var y := Single(f, data, n);
    y.end == Failed && 0 < y.used <= n && Single(f, data, y.used).m.open.Some?
  }

  /** Where that is the case is settled by the byte that fails. */
  lemma LosesTailStep(f: Fields, data: string, n: nat)
    requires n < |data|
    ensures var y, z := Single(f, data, n), Single(f, data, n + 1);
      if y.end == More && z.end == Failed then LosesTail(f, data, n + 1) <==> n > 0 && y.m.open.Some?
      else LosesTail(f, data, n + 1) <==> LosesTail(f, data, n)
  {
    hide RunSwitch, Bytewise, Begin;
    SingleUsed(f, data, n);
    SingleStep(f, data, n);
  }

  lemma {:induction false} ScanFollows(f: Fields, data: string, at: nat, r: Run, piece: string, n: nat)
    requires Inv(f) && f.errno == OK && n <= |piece| && at + |piece| <= |data| && data[at..at + |piece|] == piece
    requires RunOk(r) && Agree(r, Single(f, data, at)) && !r.unchecked && r.m.held == 0
    requires !LosesTail(f, data, at) ==> r.m.evs == Single(f, data, at).m.evs
    requires forall i :: at <= i < at + n ==> !HiddenAt(f, data, i)
    ensures var x := Scan(r, piece, n);
      RunOk(x) && Agree(x, Single(f, data, at + n)) &&
      (n > 0 && x.end == More ==> x.unchecked == InGeneral(Single(f, data, at + n - 1).f)) &&
      (x.end == More ==> if n == 0 then x.m.held == 0 else x.m.open == Single(f, data, at + n).m.open) &&
      (!LosesTail(f, data, at + n) ==> x.m.evs == Single(f, data, at + n).m.evs)
  {
    hide StepRun, RunOk, Cut, InGeneral, Bytewise, Begin, Inv, LosesTail, HiddenAt;
    SingleOk(f, data, at + n);
    if n > 0 {
      ScanFollows(f, data, at, r, piece, n - 1);
      var i := at + n - 1;
      var x, y := Scan(r, piece, n - 1), Single(f, data, i);
      assert !HiddenAt(f, data, i);
      assert piece[n - 1] == data[i];
      SingleOk(f, data, i);
      SingleStep(f, data, i);
      CutFacts(y);
      if 0 < i && InGeneral(Single(f, data, i - 1).f) && y.end == More && InGeneral(y.f) {
        NotHidden(f, data, i);
      }
      StepAgree(x, Cut(y), data[i]);
      StepKeeps(x, data[i]);
      StepUnchecked(x, data[i]);
      LosesTailStep(f, data, i);
      NothingHeld(x);
      StepStopped(x, data[i]);
      StepStopped(y, data[i]);
    }
  }

  lemma NotHidden(f: Fields, data: string, i: nat)
    requires 0 < i < |data| && !HiddenAt(f, data, i)
    requires InGeneral(Single(f, data, i - 1).f) && Single(f, data, i).end == More && InGeneral(Single(f, data, i).f)
    ensures Single(f, data, i).f.lenient || IsHeaderChar(data[i])
  {
    hide InGeneral, Bytewise;
  }

  lemma StepStopped(x: Run, ch: char)
    ensures x.end != More ==> StepRun(x, ch) == x
  {
    hide RunSwitch, Lose;
  }

  lemma NothingHeld(x: Run)
    requires RunOk(x)
    ensures x.end == More && x.m.open.None? ==> x.m.held == 0
    ensures x.end == More && x.m.held == 0 ==> x.m.evs[..|x.m.evs| - x.m.held] == x.m.evs
  {
    hide Inv, MarkFits;
  }

  lemma SingleOk(f: Fields, data: string, n: nat)
    requires Inv(f) && f.errno == OK && n <= |data|
    ensures RunOk(Single(f, data, n))
  {
    hide Inv, Bytewise;
    BytewiseKeeps(Begin(f), data, n);
  }

  lemma SingleStep(f: Fields, data: string, n: nat)
    requires n < |data|
    ensures Single(f, data, n + 1) == StepRun(Cut(Single(f, data, n)), data[n])
  {
    hide StepRun, Cut;
  }

  lemma CutFacts(y: Run)
    requires RunOk(y)
    ensures RunOk(Cut(y)) && Cut(y).f == y.f && Cut(y).used == y.used && Cut(y).end == y.end && Cut(y).m.evs == y.m.evs
    ensures y.end == More ==> Cut(y).m.held == 0 && !Cut(y).unchecked
    ensures y.end != More ==> Cut(y) == y
  {
    hide Inv;
  }

  lemma StepUnchecked(x: Run, ch: char)
    ensures StepRun(x, ch).end == More ==> x.end == More && StepRun(x, ch).unchecked == InGeneral(x.f)
  {
    hide RunSwitch, InGeneral;
  }

  lemma {:induction false} FeedFollows(f: Fields, data: string, pieces: seq<string>, p: nat)
    requires Inv(f) && f.errno == OK && p <= |data| && Concat(pieces) == data[..p]
    requires forall i :: 0 <= i < p ==> !HiddenAt(f, data, i)
    ensures RunOk(Feed(Begin(f), pieces)) && Agree(Feed(Begin(f), pieces), Single(f, data, p))
    ensures !LosesTail(f, data, p) ==> Feed(Begin(f), pieces).m.evs == Single(f, data, p).m.evs
  {
    hide Scan, Cut, StepRun, HiddenAt, RunOk, Inv, LosesTail;
    SingleOk(f, data, 0);
    if pieces != [] {
      var init, last := pieces[..|pieces| - 1], pieces[|pieces| - 1];
      var at := p - |last|;
      assert data[..p] == Concat(init) + last;
      assert Concat(init) == data[..p][..at] == data[..at];
      assert data[at..at + |last|] == data[..p][at..] == last;
      FeedFollows(f, data, init, at);
      CutFacts(Feed(Begin(f), init));
      var r := Cut(Feed(Begin(f), init));
      if r.end == More {
        ScanFollows(f, data, at, r, last, |last|);
      } else {
        ScanStopped(r, last, |last|);
        SingleStopped(f, data, at, p);
        SameTail(f, data, at, p);
      }
    }
  }

  lemma SameTail(f: Fields, data: string, m: nat, n: nat)
    requires m <= |data| && n <= |data| && Single(f, data, m) == Single(f, data, n)
    ensures LosesTail(f, data, m) <==> LosesTail(f, data, n)
  {
    hide Bytewise, Begin;
    SingleUsed(f, data, m);
    SingleUsed(f, data, n);
  }

  lemma {:induction false} ScanStopped(r: Run, piece: string, n: nat)
    requires r.end != More && n <= |piece|
    ensures Scan(r, piece, n) == r
  {
    hide RunSwitch;
    if n > 0 { ScanStopped(r, piece, n - 1); }
  }

  lemma {:induction false} SingleStopped(f: Fields, data: string, i: nat, n: nat)
    requires i <= n <= |data| && Single(f, data, i).end != More
    ensures Single(f, data, n) == Single(f, data, i)
    decreases n
  {
    hide RunSwitch, Begin;
    if i < n { SingleStopped(f, data, i, n - 1); }
  }

  lemma {:induction false} ScanGrows(r: Run, piece: string, m: nat, n: nat)
    requires m <= n <= |piece|
    ensures Scan(r, piece, m).used <= Scan(r, piece, n).used
    decreases n
  {
    hide RunSwitch;
    if m < n { ScanGrows(r, piece, m, n - 1); }
  }

  lemma {:induction false} SingleUsed(f: Fields, data: string, n: nat)
    requires n <= |data|
    ensures var y := Single(f, data, n); if y.end == More then y.used == n else y.used <= n
  {
    hide RunSwitch;
    if n > 0 { SingleUsed(f, data, n - 1); }
  }

  /** The check refuses the byte on its own, and the skip does not. */
  lemma BadByte(r: Run, ch: char)
    requires r.end == More && InGeneral(r.f) && !r.f.lenient && !IsHeaderChar(ch)
    ensures !r.unchecked ==> StepRun(r, ch).end == Failed && StepRun(r, ch).used == r.used
    ensures r.unchecked ==> StepRun(r, ch).end == More && StepRun(r, ch).used == r.used + 1
  {
    hide ApplyAct;
  }

  lemma HiddenFails(f: Fields, data: string, i: nat)
    requires HiddenAt(f, data, i)
    ensures Single(f, data, i + 1).end == Failed && Single(f, data, i + 1).used == i
  {
    hide StepRun, Bytewise, InGeneral, Begin;
    SingleUsed(f, data, i);
    SingleStep(f, data, i);
    BadByte(Cut(Single(f, data, i)), data[i]);
  }

  /** A piece holding a hidden byte and the one before it runs past it. */
  lemma HiddenPasses(f: Fields, data: string, i: nat)
    requires Inv(f) && f.errno == OK && HiddenAt(f, data, i)
    ensures Feed(Begin(f), [data]).used > i
    ensures Single(f, data, |data|).used == i
  {
    hide Scan, Cut, StepRun, RunOk, Inv, Begin, Bytewise, InGeneral;
    BeginMore(f, data);
    HiddenFails(f, data, i);
    SingleStopped(f, data, i + 1, |data|);
    forall j | 0 <= j < i ensures !HiddenAt(f, data, j) {
      if HiddenAt(f, data, j) {
        HiddenFails(f, data, j);
        SingleStopped(f, data, j + 1, i);
      }
    }
    SingleOk(f, data, 0);
    CutFacts(Begin(f));
    var r := Cut(Begin(f));
    assert data[0..0 + |data|] == data;
    SingleUsed(f, data, i);
    ScanFollows(f, data, 0, r, data, i);
    var x := Scan(r, data, i);
    BadByte(x, data[i]);
    ScanStep(r, data, i);
    ScanGrows(r, data, i + 1, |data|);
    assert [data][..0] == [];
    assert Feed(Begin(f), []) == Begin(f);
  }

  lemma BeginMore(f: Fields, data: string)
    ensures Single(f, data, 0) == Begin(f) && Begin(f).end == More
  {
  }

  lemma ScanStep(r: Run, piece: string, n: nat)
    requires n < |piece|
    ensures Scan(r, piece, n + 1) == StepRun(Scan(r, piece, n), piece[n])
  {
    hide StepRun;
  }

  ghost predicate CutFree(f: Fields, data: string) {
    forall pieces :: Concat(pieces) == data && "" !in pieces ==>
      Agree(Feed(Begin(f), pieces), Single(f, data, |data|))
  }

  predicate SameResult(x: Run, y: Run) { x.f == y.f && x.used == y.used && x.end == y.end && x.m.evs == y.m.evs }

  ghost predicate SameForAllCuts(f: Fields, data: string) {
    forall pieces :: Concat(pieces) == data && "" !in pieces ==>
      SameResult(Feed(Begin(f), pieces), Single(f, data, |data|))
  }

  lemma SameAgrees(f: Fields, data: string)
    requires SameForAllCuts(f, data)
    ensures CutFree(f, data)
  {
    hide Feed, Begin, Bytewise;
    forall pieces | Concat(pieces) == data && "" !in pieces
      ensures Agree(Feed(Begin(f), pieces), Single(f, data, |data|))
    {
      assert SameResult(Feed(Begin(f), pieces), Single(f, data, |data|));
    }
  }

  lemma Nonempty(f: Fields, data: string)
    requires LosesTail(f, data, |data|)
    ensures data != ""
  {
  }

  /** Every cut of a stream into non-empty pieces gives the same parser state at the
      same byte and the same events, if and only if no forbidden header byte can be
      hidden by the skip. */
  lemma CuttingIndependence(f: Fields, data: string)
    requires Inv(f) && f.errno == OK
    ensures CutFree(f, data) <==> !HidesBadByte(f, data)
  {
    hide Feed, Begin, Bytewise, Inv, InGeneral, HiddenAt;
    if HidesBadByte(f, data) {
      var i :| 1 <= i < |data| && HiddenAt(f, data, i);
      HiddenPasses(f, data, i);
      assert Concat([data]) == Concat([]) + data == data;
      assert !Agree(Feed(Begin(f), [data]), Single(f, data, |data|));
    } else {
      forall pieces | Concat(pieces) == data && "" !in pieces
        ensures Agree(Feed(Begin(f), pieces), Single(f, data, |data|))
      {
        assert data[..|data|] == data;
        HiddenRange(f, data);
        FeedFollows(f, data, pieces, |data|);
      }
    }
  }

  /** If all bytes are in one piece, the refused byte takes the pending ones with it. */
  lemma TailLost(f: Fields, data: string)
    requires Inv(f) && f.errno == OK && !HidesBadByte(f, data) && LosesTail(f, data, |data|)
    ensures |Feed(Begin(f), [data]).m.evs| < |Single(f, data, |data|).m.evs|
  {
    hide Scan, Cut, StepRun, RunOk, Inv, Begin, Bytewise, InGeneral, HiddenAt, HidesBadByte;
    HiddenRange(f, data);
    var i := Single(f, data, |data|).used;
    var r := Cut(Begin(f));
    SingleOk(f, data, 0);
    BeginMore(f, data);
    CutFacts(Begin(f));
    assert data[0..0 + |data|] == data;
    FailsAt(f, data);
    ScanFollows(f, data, 0, r, data, i);
    var x, y := Scan(r, data, i), Single(f, data, i);
    ScanStep(r, data, i - 1);
    LastHeld(Scan(r, data, i - 1), data[i - 1]);
    SingleOk(f, data, i);
    CutFacts(y);
    if InGeneral(Single(f, data, i - 1).f) && InGeneral(y.f) {
      NotHidden(f, data, i);
    }
    StepAgree(x, Cut(y), data[i]);
    SingleStep(f, data, i);
    ScanStep(r, data, i);
    ScanStops(r, data, i + 1);
    assert [data][..0] == [];
    assert Feed(Begin(f), []) == Begin(f);
  }

  lemma LastHeld(r: Run, ch: char)
    requires StepRun(r, ch).end == More && StepRun(r, ch).m.open.Some?
    ensures StepRun(r, ch).m.held > 0
  {
    hide RunSwitch;
  }

  lemma ScanStops(r: Run, piece: string, n: nat)
    requires n <= |piece| && Scan(r, piece, n).end != More
    ensures Scan(r, piece, |piece|) == Scan(r, piece, n)
  {
    ScanOn(r, piece, n, |piece|);
  }

  lemma {:induction false} ScanOn(r: Run, piece: string, m: nat, n: nat)
    requires m <= n <= |piece| && Scan(r, piece, m).end != More
    ensures Scan(r, piece, n) == Scan(r, piece, m)
    decreases n
  {
    hide RunSwitch;
    if m < n { ScanOn(r, piece, m, n - 1); }
  }

  /** The byte that fails is the first one not used. */
  lemma FailsAt(f: Fields, data: string)
    requires Single(f, data, |data|).end == Failed
    ensures var i := Single(f, data, |data|).used;
      i < |data| && Single(f, data, i).end == More && Single(f, data, i + 1) == Single(f, data, |data|)
  {
    hide Bytewise, Begin;
    FailedAt(f, data, |data|);
    var i := Single(f, data, |data|).used;
    SingleStopped(f, data, i + 1, |data|);
  }

  lemma {:induction false} FailedAt(f: Fields, data: string, n: nat)
    requires n <= |data| && Single(f, data, n).end == Failed
    ensures var i := Single(f, data, n).used;
      i < n && Single(f, data, i).end == More && Single(f, data, i + 1).end == Failed
  {
    hide RunSwitch, Begin;
    BeginMore(f, data);
    SingleStep(f, data, n - 1);
    SingleUsed(f, data, n - 1);
    if Single(f, data, n - 1).end != More {
      FailedAt(f, data, n - 1);
    }
  }

  /** Every cut of a stream gives the same state at the same byte with exactly the same
      events, if and only if no forbidden header byte can be hidden and the stream is not
      refused behind an open mark that already covers a byte. */
  lemma EventsIndependence(f: Fields, data: string)
    requires Inv(f) && f.errno == OK
    ensures SameForAllCuts(f, data) <==> !HidesBadByte(f, data) && !LosesTail(f, data, |data|)
  {
    hide Feed, Begin, Bytewise, Inv, InGeneral, HiddenAt, HidesBadByte, LosesTail, LostTail;
    assert Concat([data]) == Concat([]) + data == data;
    if HidesBadByte(f, data) {
      CuttingIndependence(f, data);
      if SameForAllCuts(f, data) { SameAgrees(f, data); }
    } else if LosesTail(f, data, |data|) {
      TailLost(f, data);
      Nonempty(f, data);
      assert !SameResult(Feed(Begin(f), [data]), Single(f, data, |data|));
    } else {
      HiddenRange(f, data);
      assert data[..|data|] == data;
      forall pieces | Concat(pieces) == data && "" !in pieces
        ensures SameResult(Feed(Begin(f), pieces), Single(f, data, |data|))
      {
        FeedFollows(f, data, pieces, |data|);
      }
    }
  }

  lemma HiddenRange(f: Fields, data: string)
    requires !HidesBadByte(f, data)
    ensures forall i :: 0 <= i < |data| ==> !HiddenAt(f, data, i)
  {
    hide InGeneral, Bytewise;
  }

  /** One byte of the byte-by-byte run, where it does not REEXECUTE. */
  lemma SingleMicro(f: Fields, d: string, p: nat)
    requires p < |d| && Single(f, d, p).end == More
    ensures var s, r := Switch(Single(f, d, p).f, d[p], false), Single(f, d, p + 1);
      (s.Next? ==> r.end == More && r.f == s.f) && (s.Fail? ==> r.end == Failed && r.f == s.f)
  {
    hide Switch, InGeneral, Bytewise, Begin, InitialMark, ApplyAct;
    SingleStep(f, d, p);
  }

  /** A forbidden byte inside a header value: refused when it comes alone, accepted
      when the byte before it is in the same piece. */
  lemma HiddenByteExample()
    ensures var f := Init(Request, false).(state := Header(HeaderValue));
      Inv(f) && f.errno == OK && HiddenAt(f, "a\U{0001}", 1) && !CutFree(f, "a\U{0001}")
  {
    hide Switch;
    var f := Init(Request, false).(state := Header(HeaderValue));
    var r := Cut(Single(f, "a\U{0001}", 0));
    InValueSwitch(f, 'a');
    assert RunSwitch(f, r.m, 'a', false) == Chain(f, r.m, false, More);
    assert Single(f, "a\U{0001}", 1).f == f;
    CuttingIndependence(f, "a\U{0001}");
  }

  lemma InValueSwitch(f: Fields, ch: char)
    requires InGeneral(f) && IsAlpha(ch)
    ensures Switch(f, ch, false) == Next(f, NOTHING)
  {
  }

  lemma InPathSwitch(f: Fields, u: bool)
    requires f.state == Target(ReqPath)
    ensures Switch(f, 'a', u) == Next(f, NOTHING) && Switch(f, '\U{0001}', u).Fail?
  {
  }

  lemma PathStep(r: Run)
    requires r.end == More && r.f.state == Target(ReqPath)
    ensures StepRun(r, 'a') == Run(r.f, r.used + 1, EndByte(r.m, 'a'), false, More)
    ensures StepRun(r, '\U{0001}').end == Failed && StepRun(r, '\U{0001}').m == Lose(r.m)
  {
    hide Switch, Lose, EndByte;
    InPathSwitch(r.f, r.unchecked && InGeneral(r.f));
  }

  lemma PathInv(f: Fields)
    requires f == Init(Request, false).(state := Target(ReqPath))
    ensures Inv(f) && f.errno == OK && InitialMark(f.state) == Some(Url)
  {
  }

  lemma ScanNothing(r: Run, piece: string)
    ensures Scan(r, piece, 0) == r
  {
  }

  /** A target refused behind its first byte: in one piece that byte is lost, in two it is
      delivered. */
  lemma LostTailExample()
    ensures var f := Init(Request, false).(state := Target(ReqPath));
      Inv(f) && f.errno == OK &&
      Feed(Begin(f), ["a\U{0001}"]).m.evs == [] &&
      Feed(Begin(f), ["a", "\U{0001}"]).m.evs == [Byte(Url, 'a')]
  {
    hide StepRun, Scan, Inv;
    var f := Init(Request, false).(state := Target(ReqPath));
    PathInv(f);
    var r := Cut(Begin(f));
    var a := StepRun(r, 'a');
    PathStep(r);
    PathStep(a);
    PathStep(Cut(a));
    ScanNothing(r, "a\U{0001}");
    ScanNothing(r, "a");
    ScanNothing(Cut(a), "\U{0001}");
    var one, two, three := ["a\U{0001}"], ["a"], ["a", "\U{0001}"];
    assert one[..0] == [] && two[..0] == [] && three[..1] == two;
    ScanStep(r, "a\U{0001}", 0);
    ScanStep(r, "a\U{0001}", 1);
    ScanStep(r, "a", 0);
    ScanStep(Cut(a), "\U{0001}", 0);
    assert Feed(Begin(f), two) == a;
  }
}
