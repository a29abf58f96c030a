/** Runs over concatenated texts: what the parser does with a text depends only on the
    fields it starts with, so runs compose. */
module HttpJoin {
  import opened HttpTypes
  import opened HttpStep
  import opened HttpRun
  import opened HttpCutting

  /** The same run behind earlier events. */
  function Behind(pre: seq<Event>, used: nat, r: Run): Run {
    r.(used := used + r.used, m := r.m.(evs := pre + r.m.evs))
  }

  lemma ActBehind(pre: seq<Event>, m: Marks, a: Act, ch: char)
    ensures ApplyAct(m.(evs := pre + m.evs), a, ch) == ApplyAct(m, a, ch).(evs := pre + ApplyAct(m, a, ch).evs)
  {
    var n := ApplyFlush(ApplyMark(m, a), a, ch);
    assert ApplyFlush(ApplyMark(m.(evs := pre + m.evs), a), a, ch).evs == pre + n.evs;
  }

  lemma {:induction false} ChainBehind(pre: seq<Event>, f: Fields, m: Marks, ch: char, u: bool)
    ensures RunSwitch(f, m.(evs := pre + m.evs), ch, u) ==
            var c := RunSwitch(f, m, ch, u); c.(m := c.m.(evs := pre + c.m.evs))
    decreases Rank(f.state)
  {
    hide Switch, ApplyAct, Rank;
    match Switch(f, ch, u)
    case Next(g, a) => ActBehind(pre, m, a, ch);
    case Exit(g, a) => ActBehind(pre, m, a, ch);
    case Again(g, a) =>
      ActBehind(pre, m, a, ch);
      if Rank(g.state) < Rank(f.state) {
        ChainBehind(pre, g, ApplyAct(m, a, ch), ch, u);
      }
    case Fail(g) =>
    case Abort =>
  }

  lemma LoseBehind(pre: seq<Event>, m: Marks)
    requires m.held <= |m.evs|
    ensures Lose(m.(evs := pre + m.evs)) == Lose(m).(evs := pre + Lose(m).evs)
  {
  }

  lemma EndBehind(pre: seq<Event>, m: Marks, ch: char)
    ensures EndByte(m.(evs := pre + m.evs), ch) == EndByte(m, ch).(evs := pre + EndByte(m, ch).evs)
  {
  }

  lemma StepBehind(pre: seq<Event>, used: nat, r: Run, ch: char)
    requires RunOk(r)
    ensures StepRun(Behind(pre, used, Cut(r)), ch) == Behind(pre, used, StepRun(Cut(r), ch))
  {
    hide RunSwitch, Inv, MarkFits, HeldOk, Lose, EndByte, InGeneral;
    CutFacts(r);
    var x := Cut(r);
    if x.end == More {
      var u := x.unchecked && InGeneral(x.f);
      ChainBehind(pre, x.f, x.m, ch, u);
      var c := RunSwitch(x.f, x.m, ch, u);
      EndBehind(pre, c.m, ch);
      ChainKeeps(x.f, x.m, ch, u);
      HeldBytes(c.m);
      LoseBehind(pre, c.m);
    }
  }

  lemma {:induction false} SinglePrefix(f: Fields, d: string, e: string, n: nat)
    requires n <= |d| && n <= |e| && d[..n] == e[..n]
    ensures Single(f, d, n) == Single(f, e, n)
  {
    hide StepRun, Cut, Begin;
    if n > 0 {
      assert d[..n - 1] == d[..n][..n - 1] == e[..n - 1] && d[n - 1] == d[..n][n - 1] == e[n - 1];
      SinglePrefix(f, d, e, n - 1);
    }
  }

  /** From the fields after s on, the run over s + t is the run over t. */
  lemma {:induction false} SingleJoin(f: Fields, s: string, t: string, n: nat)
    requires Inv(f) && f.errno == OK && n <= |t| && Single(f, s, |s|).end == More
    ensures var x := Single(f, s, |s|);
      var y, z := Single(x.f, t, n), Single(f, s + t, |s| + n);
      Cut(z) == Behind(x.m.evs, |s|, Cut(y)) && (n > 0 ==> z == Behind(x.m.evs, |s|, y))
  {
    hide StepRun, Inv, InitialMark, InGeneral, Bytewise;
    var x := Single(f, s, |s|);
    SingleOk(f, s, |s|);
    SingleUsed(f, s, |s|);
    if n == 0 {
      assert (s + t)[..|s|] == s[..|s|];
      SinglePrefix(f, s + t, s, |s|);
      BeginMore(x.f, t);
      assert x.m.evs + [] == x.m.evs;
    } else {
      SingleJoin(f, s, t, n - 1);
      SingleOk(x.f, t, n - 1);
      SingleStep(x.f, t, n - 1);
      SingleStep(f, s + t, |s| + n - 1);
      StepBehind(x.m.evs, |s|, Single(x.f, t, n - 1), t[n - 1]);
    }
  }

  /** The parser runs over the whole text, delivers these events, and ends in these fields;
      a byte of a general header value passes the check. */
  ghost predicate Runs(f: Fields, t: string, g: Fields, evs: seq<Event>) {
    var r := Single(f, t, |t|);
    r.end == More && r.f == g && r.m.evs == evs && Plain(f, t)
  }

  predicate Passes(f: Fields, ch: char) { InGeneral(f) ==> f.lenient || IsHeaderChar(ch) }

  ghost predicate Plain(f: Fields, t: string) { forall i :: 0 <= i < |t| ==> Passes(Single(f, t, i).f, t[i]) }

  /** Or it ends there by the upgrade exit, if g.upgrade. */
  ghost predicate Completes(f: Fields, t: string, g: Fields, evs: seq<Event>) {
    var r := Single(f, t, |t|);
    r.end == (if g.upgrade then Exited else More) && r.f == g && r.m.evs == evs && r.used == |t| && Plain(f, t)
  }

  lemma BeginFields(f: Fields)
    ensures Begin(f).f == f
  {
  }

  lemma RunsNothing(f: Fields)
    ensures Runs(f, "", f, [])
  {
  }

  lemma PlainJoin(f: Fields, s: string, t: string, g: Fields, evs: seq<Event>)
    requires Inv(f) && f.errno == OK && Runs(f, s, g, evs) && Plain(g, t)
    ensures Plain(f, s + t)
  {
    hide Bytewise, Inv, Passes;
    var d := s + t;
    forall i | 0 <= i < |d| ensures Passes(Single(f, d, i).f, d[i]) {
      if i < |s| {
        assert d[..i] == s[..i] && d[i] == s[i];
        SinglePrefix(f, d, s, i);
      } else {
        SingleJoin(f, s, t, i - |s|);
      }
    }
  }

  lemma RunsInv(f: Fields, t: string, g: Fields, evs: seq<Event>)
    requires Inv(f) && f.errno == OK && Runs(f, t, g, evs)
    ensures Inv(g) && g.errno == OK
  {
    hide Inv, Bytewise, Plain;
    SingleOk(f, t, |t|);
  }

  /** Runs compose. */
  lemma RunsJoin(f: Fields, s: string, g: Fields, x: seq<Event>, t: string, h: Fields, y: seq<Event>)
    requires Inv(f) && f.errno == OK && Runs(f, s, g, x) && Runs(g, t, h, y)
    ensures Runs(f, s + t, h, x + y)
  {
    hide Bytewise, Inv, Plain, Begin, InitialMark;
    PlainJoin(f, s, t, g, x);
    SingleJoin(f, s, t, |t|);
    if t == "" {
      assert s + t == s && Runs(g, "", g, []) by { RunsNothing(g); }
      assert x + y == x;
    }
  }

  lemma CompletesJoin(f: Fields, s: string, g: Fields, x: seq<Event>, t: string, h: Fields, y: seq<Event>)
    requires Inv(f) && f.errno == OK && Runs(f, s, g, x) && Completes(g, t, h, y) && t != ""
    ensures Completes(f, s + t, h, x + y)
  {
    hide Bytewise, Inv, Plain, Begin, InitialMark;
    PlainJoin(f, s, t, g, x);
    SingleJoin(f, s, t, |t|);
    SingleUsed(f, s, |s|);
  }

  /** No byte of such a text can be hidden from the check. */
  lemma PlainUnhidden(f: Fields, t: string)
    requires Plain(f, t)
    ensures !HidesBadByte(f, t)
  {
    hide Bytewise;
    forall i | 1 <= i < |t| ensures !HiddenAt(f, t, i) {
      assert Passes(Single(f, t, i).f, t[i]);
    }
  }
}
