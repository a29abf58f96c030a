/** Method recognition: the guessing automaton of http_parser.c accepts exactly the
    names of its table. */
module HttpMethod {
  import opened HttpTypes
  import opened HttpStep
  import opened HttpRun
  import opened HttpCutting

  /** The bytes consumed so far are the beginning of the guessed method's name. */
  predicate Matched(g: Fields, w: string) {
    g.state == Method && g.meth < METHOD_COUNT && g.index == |w| > 0 && w <= MethodName(g.meth)
  }

  predicate IsNameChar(c: char) { 'A' <= c <= 'Z' || c == '-' }

  lemma EarlyNameChars(m: nat, i: nat)
    requires m < 17 && i < |MethodName(m)|
    ensures IsNameChar(MethodName(m)[i])
  {
  }

  lemma LateNameChars(m: nat, i: nat)
    requires 17 <= m < METHOD_COUNT && i < |MethodName(m)|
    ensures IsNameChar(MethodName(m)[i])
  {
  }

  lemma NameChars(m: nat, i: nat)
    requires m < METHOD_COUNT && i < |MethodName(m)|
    ensures IsNameChar(MethodName(m)[i])
  {
    hide MethodName;
    if m < 17 { EarlyNameChars(m, i); } else { LateNameChars(m, i); }
  }

  lemma FirstMatched(ch: char)
    requires FirstMethod(ch).Some?
    ensures var m := FirstMethod(ch).value; m < METHOD_COUNT && MethodName(m)[0] == ch
  {
  }

  /** In s_req_method a byte either extends the match, or is the space that ends a whole
      name, or fails. */
  lemma MethodByte(g: Fields, w: string, ch: char)
    requires Matched(g, w)
    ensures var s := Switch(g, ch, false);
      s.Fail? || (s.Next? && Matched(s.f, w + [ch])) ||
      (s.Next? && s.f.state == Target(ReqSpacesBeforeUrl) && s.f.meth == g.meth && ch == ' ' && w == MethodName(g.meth))
    ensures ch == ' ' && w == MethodName(g.meth) ==> Switch(g, ch, false).Next?
  {
    hide MethodName, Reguess;
    if Reguess(g.meth, g.index, ch).Some? {
      ReguessKeepsPrefix(g.meth, g.index, ch);
    }
    if g.index < |MethodName(g.meth)| {
      NameChars(g.meth, g.index);
    }
  }

  lemma FirstByte(f: Fields, ch: char)
    requires f.state == Start(StartReq) && !IsLineEnd(ch)
    ensures var s := Switch(f, ch, false);
      if FirstMethod(ch).Some?
      then s.Next? && Matched(s.f, [ch]) && s.f.meth == FirstMethod(ch).value
      else s.Fail?
  {
    hide MethodName;
    if FirstMethod(ch).Some? {
      FirstMatched(ch);
    }
  }

  predicate InMethod(f: Fields, d: string, n: nat)
    requires n <= |d|
  {
    forall i :: 1 <= i < n ==> Single(f, d, i).f.state == Method && Single(f, d, i).end == More
  }

  /** While the run stays in s_req_method, it has consumed the first `index` bytes of
      the guessed name. */
  lemma {:induction false} Prefix(f: Fields, d: string, n: nat)
    requires f.state == Start(StartReq) && 0 < n <= |d| && !IsLineEnd(d[0]) && InMethod(f, d, n)
    ensures var r := Single(f, d, n);
      r.end == Failed || (r.end == More && Matched(r.f, d[..n])) ||
      (r.end == More && r.f.state == Target(ReqSpacesBeforeUrl) && r.f.meth < METHOD_COUNT &&
       d[..n] == MethodName(r.f.meth) + " ")
  {
    hide Switch, Bytewise, MethodName, FirstMethod;
    if n == 1 {
      BeginMore(f, d);
      FirstByte(f, d[0]);
      SingleMicro(f, d, 0);
    } else {
      Prefix(f, d, n - 1);
      MethodByte(Single(f, d, n - 1).f, d[..n - 1], d[n - 1]);
      SingleMicro(f, d, n - 1);
      assert d[..n] == d[..n - 1] + [d[n - 1]];
    }
  }

  // ----- Every name is found

  /** The guess after the first k bytes of w. */
  function GuessAfter(w: string, k: nat): Option<nat>
    requires 0 < k <= |w|
  {
    if k == 1 then FirstMethod(w[0]) else
    match GuessAfter(w, k - 1)
    case None => None
    case Some(g) => if CharAt(MethodName(g), k - 1) == w[k - 1] then Some(g) else Reguess(g, k - 1, w[k - 1])
  }

  /** Where the guess last changed on the way to a name, and what it was before;
      position 0 for the names guessed from their first byte. */
  function Parent(m: nat): (nat, nat) {
    match m
    case 4 | 28 | 12 => (3, 1)
    case 29 => (4, 2)
    case 22 => (5, 1)
    case 8 => (5, 2)
    case 11 | 23 | 24 => (10, 1)
    case 21 => (10, 2)
    case 30 => (10, 3)
    case 14 => (26, 1)
    case 17 => (20, 2)
    case 13 => (12, 4)
    case 31 => (9, 1)
    case 27 | 18 => (15, 2)
    case 32 => (15, 3)
    case _ => (m, 0)
  }

  lemma FirstGuess(m: nat)
    requires m < METHOD_COUNT && Parent(m).1 == 0
    ensures FirstMethod(MethodName(m)[0]) == Some(m)
  {
  }

  lemma ParentReguesses(m: nat)
    requires m < METHOD_COUNT && Parent(m).1 > 0
    ensures var (g, i) := Parent(m);
      g < METHOD_COUNT && Parent(g).1 < i < |MethodName(m)| && i < |MethodName(g)| &&
      MethodName(g)[i] != MethodName(m)[i] && Reguess(g, i, MethodName(m)[i]) == Some(m)
  {
  }

  lemma {:induction false} SamePrefix(w: string, v: string, k: nat)
    requires 0 < k <= |w| && k <= |v| && w[..k] == v[..k]
    ensures GuessAfter(w, k) == GuessAfter(v, k)
  {
    hide FirstMethod, Reguess, MethodName;
    assert w[k - 1] == w[..k][k - 1] == v[..k][k - 1] == v[k - 1];
    if k > 1 {
      assert w[..k - 1] == w[..k][..k - 1] == v[..k - 1];
      SamePrefix(w, v, k - 1);
    }
  }

  /** From its last change of guess on, a name is guessed right. */
  lemma {:induction false} Guessed(m: nat, k: nat)
    requires m < METHOD_COUNT && Parent(m).1 < k <= |MethodName(m)|
    ensures GuessAfter(MethodName(m), k) == Some(m)
    decreases k
  {
    hide FirstMethod, Reguess, MethodName, Parent;
    var (g, i) := Parent(m);
    var w := MethodName(m);
    if k > i + 1 {
      Guessed(m, k - 1);
    } else if i == 0 {
      FirstGuess(m);
    } else {
      ParentReguesses(m);
      ReguessKeepsPrefix(g, i, w[i]);
      Guessed(g, i);
      SamePrefix(w, MethodName(g), i);
    }
  }

  lemma NamesGuessed(m: nat)
    requires m < METHOD_COUNT
    ensures GuessAfter(MethodName(m), |MethodName(m)|) == Some(m)
  {
    hide FirstMethod, Reguess, MethodName, GuessAfter;
    ParentShort(m);
    Guessed(m, |MethodName(m)|);
  }

  lemma ParentShort(m: nat)
    requires m < METHOD_COUNT
    ensures Parent(m).1 < |MethodName(m)|
  {
  }

  lemma {:induction false} GuessPrefix(w: string, m: nat, k: nat)
    requires m < METHOD_COUNT && w == MethodName(m) && 0 < k <= |w|
    ensures GuessAfter(w, k).Some?
    decreases |w| - k
  {
    hide FirstMethod, Reguess, MethodName;
    if k == |w| {
      NamesGuessed(m);
    } else {
      GuessPrefix(w, m, k + 1);
    }
  }

  lemma {:induction false} Guessing(f: Fields, d: string, m: nat, k: nat)
    requires f.state == Start(StartReq) && m < METHOD_COUNT && 0 < k <= |MethodName(m)| && MethodName(m) <= d
    ensures var r := Single(f, d, k);
      r.end == More && Matched(r.f, d[..k]) && GuessAfter(MethodName(m), k) == Some(r.f.meth)
    ensures InMethod(f, d, k)
  {
    hide Switch, Bytewise, MethodName, FirstMethod, Reguess;
    var w := MethodName(m);
    GuessPrefix(w, m, k);
    NameChars(m, k - 1);
    assert d[k - 1] == w[k - 1];
    if k == 1 {
      BeginMore(f, d);
      FirstByte(f, d[0]);
      SingleMicro(f, d, 0);
    } else {
      Guessing(f, d, m, k - 1);
      var g := Single(f, d, k - 1).f;
      NextGuess(g, d[..k - 1], d[k - 1]);
      SingleMicro(f, d, k - 1);
      assert d[..k] == d[..k - 1] + [d[k - 1]];
    }
  }

  lemma NextGuess(g: Fields, w: string, ch: char)
    requires Matched(g, w) && ('A' <= ch <= 'Z' || ch == '-')
    requires CharAt(MethodName(g.meth), |w|) == ch || Reguess(g.meth, |w|, ch).Some?
    ensures var s := Switch(g, ch, false);
      s.Next? && Matched(s.f, w + [ch]) &&
      s.f.meth == if CharAt(MethodName(g.meth), |w|) == ch then g.meth else Reguess(g.meth, |w|, ch).value
  {
    hide MethodName, Reguess;
    MethodByte(g, w, ch);
  }

  /** The run leaves s_req_method for the request target at byte n. */
  predicate Recognises(f: Fields, d: string, n: nat)
    requires n <= |d|
  {
    InMethod(f, d, n) && Single(f, d, n).end == More && Single(f, d, n).f.state == Target(ReqSpacesBeforeUrl)
  }

  /** Without a leading line end, the request target is reached exactly when the bytes so
      far are one of the 33 names and a space, and `method` is that one. */
  lemma MethodRecognition(f: Fields, d: string, n: nat)
    requires f.state == Start(StartReq) && 0 < n <= |d| && !IsLineEnd(d[0])
    ensures Recognises(f, d, n) <==> exists m: nat | m < METHOD_COUNT :: d[..n] == MethodName(m) + " "
    ensures forall m: nat | m < METHOD_COUNT && d[..n] == MethodName(m) + " " :: Single(f, d, n).f.meth == m
  {
    hide Switch, Bytewise, MethodName, FirstMethod, Reguess, GuessAfter;
    if Recognises(f, d, n) {
      Prefix(f, d, n);
    }
    forall m: nat | m < METHOD_COUNT && d[..n] == MethodName(m) + " "
      ensures Recognises(f, d, n) && Single(f, d, n).f.meth == m
    {
      Found(f, d, m);
    }
  }

  lemma Found(f: Fields, d: string, m: nat)
    requires f.state == Start(StartReq) && m < METHOD_COUNT && MethodName(m) + " " <= d
    ensures var n := |MethodName(m)| + 1; Recognises(f, d, n) && Single(f, d, n).f.meth == m
  {
    hide Switch, Bytewise, MethodName, FirstMethod, Reguess, GuessAfter;
    var k := |MethodName(m)|;
    assert d[..k] == MethodName(m) && d[k] == ' ';
    Guessing(f, d, m, k);
    NamesGuessed(m);
    var g := Single(f, d, k).f;
    MethodByte(g, d[..k], ' ');
    NotLonger(g, d[..k]);
    SingleMicro(f, d, k);
  }

  lemma NotLonger(g: Fields, w: string)
    requires g.meth < METHOD_COUNT && w == MethodName(g.meth)
    ensures forall h: Fields | h.meth < METHOD_COUNT :: !(w + " " <= MethodName(h.meth))
  {
    hide MethodName;
    forall h: Fields | h.meth < METHOD_COUNT && w + " " <= MethodName(h.meth) ensures false {
      NameChars(h.meth, |w|);
    }
  }
}
