/** Header values: what http_parser_execute makes of the value of a name it knows. */
module HttpValue {
  import opened HttpTypes
  import opened HttpStep
  import opened HttpRun
  import opened HttpCutting
  import opened HttpJoin
  import opened HttpHeader
  import opened HttpLength

  // ----- Single bytes of a value

  /** A byte that a header value may have behind its first one. */
  predicate IsValueByte(ch: char, lenient: bool) { !IsLineEnd(ch) && (lenient || IsHeaderChar(ch)) }

  predicate IsValue(v: string, lenient: bool) {
    (v != "" ==> v[0] != ' ' && v[0] != '\t' && !IsLineEnd(v[0])) &&
    forall i :: 1 <= i < |v| ==> IsValueByte(v[i], lenient)
  }

  lemma FirstByteRuns(f: Fields, ch: char, h: Fields)
    requires f.state == Header(HeaderValueDiscardWs) && ch != ' ' && ch != '\t' && !IsLineEnd(ch)
    requires ValueStart(f, ch) == Next(h, Marking(Value))
    ensures Runs(f, [ch], h, [Byte(Value, ch)])
  {
    hide ValueStart, Runs;
    RunsData(f, ch, h, Value);
  }

  lemma NextByteRuns(f: Fields, ch: char, h: Fields)
    requires f.state == Header(HeaderValue) && IsValueByte(ch, f.lenient) && ValueByte(f, ch) == Scanned(h)
    ensures Runs(f, [ch], h, [Byte(Value, ch)])
  {
    hide ValueByte, Runs, IsHeaderChar;
    RunsData(f, ch, h, Value);
  }

  /** One more byte behind a part of the value. */
  lemma ValueMore(f: Fields, v: string, g: Fields, ch: char, h: Fields)
    requires Inv(f) && f.errno == OK && Runs(f, v, g, Bytes(Value, v)) && Runs(g, [ch], h, [Byte(Value, ch)])
    ensures Runs(f, v + [ch], h, Bytes(Value, v + [ch]))
  {
    hide Runs, Inv;
    RunsJoin(f, v, g, Bytes(Value, v), [ch], h, [Byte(Value, ch)]);
    assert Bytes(Value, v + [ch]) == Bytes(Value, v) + [Byte(Value, ch)];
  }

  lemma LowerIs(ch: char, w: char)
    requires IsWordChar(w) && !IsLineEnd(ch)
    ensures Lower(ch) == w <==> InWord(ch, w)
  {
  }

  // ----- A value the parser does not look at

  predicate InGeneralValue(g: Fields) { g.state == Header(HeaderValue) && g.hs.General? }

  lemma {:induction false} GeneralRuns(f: Fields, v: string)
    requires Inv(f) && f.errno == OK && InGeneralValue(f) && forall i :: 0 <= i < |v| ==> IsValueByte(v[i], f.lenient)
    ensures Runs(f, v, f, Bytes(Value, v))
    decreases |v|
  {
    hide Inv, Runs, IsValueByte;
    if v == "" {
      RunsNothing(f);
      assert Bytes(Value, v) == [];
    } else {
      var k := |v| - 1;
      GeneralRuns(f, v[..k]);
      NextByteRuns(f, v[k], f);
      ValueMore(f, v[..k], f, v[k], f);
      assert v == v[..k] + [v[k]];
    }
  }

  // ----- Content-Length

  /** A number: digits, and spaces behind the first one. */
  predicate IsLength(v: string) { v != "" && IsNum(v[0]) && forall i :: 0 <= i < |v| ==> IsNum(v[i]) || v[i] == ' ' }

  function DigitsOf(v: string): (r: string)
    ensures IsDigits(r)
  {
    if v == "" then "" else DigitsOf(v[..|v| - 1]) + if IsNum(v[|v| - 1]) then [v[|v| - 1]] else ""
  }

  function LengthOf(v: string): nat { Decimal(DigitsOf(v)) }

  lemma LengthMore(v: string, ch: char)
    ensures LengthOf(v + [ch]) == if IsNum(ch) then 10 * LengthOf(v) + Digit(ch) else LengthOf(v)
    ensures v != "" ==> (IsLength(v + [ch]) <==> IsLength(v) && (IsNum(ch) || ch == ' '))
    ensures LengthOf(v + [ch]) >= LengthOf(v)
  {
    var t := v + [ch];
    assert t[..|t| - 1] == v && t[|t| - 1] == ch && forall i :: 0 <= i < |v| ==> t[i] == v[i];
    if IsNum(ch) {
      var s := DigitsOf(v) + [ch];
      assert DigitsOf(t) == s && s[..|s| - 1] == DigitsOf(v);
    } else {
      assert DigitsOf(t) == DigitsOf(v) + "" == DigitsOf(v);
    }
  }

  /** A value that is refused by itself. */
  predicate Kept(v: string) { IsLength(v) && LengthOf(v) < LENGTH_LIMIT }

  lemma OneDigit(ch: char)
    ensures Kept([ch]) <==> IsNum(ch)
    ensures Kept([ch]) ==> LengthOf([ch]) == Digit(ch)
  {
    LengthMore("", ch);
    assert "" + [ch] == [ch] && [ch][0] == ch;
    assert 0 <= LengthOf("") == 0;
  }

  lemma LengthFirst(f: Fields, ch: char)
    requires f.state == Header(HeaderValueDiscardWs) && f.hs == HContentLength
    requires !IsLineEnd(ch) && ch != ' ' && ch != '\t'
    ensures Kept([ch]) <==> IsNum(ch)
    ensures Kept([ch]) ==> LengthOf([ch]) == Digit(ch)
    ensures ValueStart(f, ch) ==
      if !IsNum(ch) then Error(To(f, Header(HeaderValue)).(index := 0), InvalidContentLength)
      else if f.flags.contentLength
      then Error(To(f, Header(HeaderValue)).(index := 0), UnexpectedContentLength)
      else Next(Reading(f, Digit(ch)), Marking(Value))
  {
    hide Kept, LengthOf;
    OneDigit(ch);
  }

  /** A further byte of the number. */
  lemma LengthByte(f: Fields, v: string, ch: char)
    requires f.hs == HContentLength && Kept(v)
    ensures ValueByte(Reading(f, LengthOf(v)), ch) ==
      if Kept(v + [ch]) then Scanned(Reading(f, LengthOf(v + [ch]))) else BadLength
  {
    hide IsLength, LengthOf;
    LengthMore(v, ch);
    var n := LengthOf(v);
    if IsNum(ch) && 10 * n + Digit(ch) < LENGTH_LIMIT {
      assert (10 * n + Digit(ch)) % U64 == 10 * n + Digit(ch);
    }
    NotEmpty(v);
  }

  lemma NotEmpty(v: string)
    ensures IsLength(v) ==> v != ""
  {
  }

  /** A number is kept as its value. */
  lemma {:induction false} LengthRuns(f: Fields, v: string)
    requires Inv(f) && f.errno == OK && f.state == Header(HeaderValueDiscardWs) && f.hs == HContentLength
    requires v != "" && IsValue(v, f.lenient) && Kept(v) && !f.flags.contentLength
    ensures Runs(f, v, Reading(f, LengthOf(v)), Bytes(Value, v))
    decreases |v|
  {
    hide Inv, Runs, Kept, LengthOf, IsValueByte, ValueStart;
    var k, ch := |v| - 1, v[|v| - 1];
    assert v == v[..k] + [ch];
    if k == 0 {
      LengthFirst(f, ch);
      FirstByteRuns(f, ch, Reading(f, LengthOf(v)));
      assert v == [ch] && Bytes(Value, v) == [Byte(Value, ch)];
    } else {
      KeptLess(v[..k], ch);
      LengthRuns(f, v[..k]);
      LengthByte(f, v[..k], ch);
      NextByteRuns(Reading(f, LengthOf(v[..k])), ch, Reading(f, LengthOf(v)));
      ValueMore(f, v[..k], Reading(f, LengthOf(v[..k])), ch, Reading(f, LengthOf(v)));
    }
  }

  lemma KeptLess(v: string, ch: char)
    ensures v != "" && Kept(v + [ch]) ==> Kept(v)
  {
    hide IsLength, LengthOf;
    LengthMore(v, ch);
  }

  /** Why a Content-Length is refused. */
  function LengthRefusal(c: Fields, v: string): Option<Errno> {
    if v == "" then None
    else if IsNum(v[0]) && c.flags.contentLength then Some(UnexpectedContentLength)
    else if Kept(v) then None else Some(InvalidContentLength)
  }

  lemma ByteFails(f: Fields, ch: char, g: Fields)
    requires Switch(f, ch, false) == Fail(g)
    ensures Single(f, [ch], 1).end == Failed && Single(f, [ch], 1).f == g
  {
    hide Switch, InGeneral, InitialMark;
    BeginMore(f, [ch]);
    SingleStep(f, [ch], 0);
  }

  /** A failing byte behind a run. */
  lemma FailsBehind(f: Fields, s: string, g: Fields, x: seq<Event>, ch: char, h: Fields, t: string)
    requires Inv(f) && f.errno == OK && Runs(f, s, g, x) && Switch(g, ch, false) == Fail(h)
    ensures var d := s + [ch] + t; Single(f, d, |d|).end == Failed && Single(f, d, |d|).f == h
  {
    hide Switch, Inv, Bytewise, Begin;
    var d := s + [ch] + t;
    ByteFails(g, ch, h);
    SingleJoin(f, s, [ch], 1);
    assert d[..|s| + 1] == (s + [ch])[..|s| + 1];
    SinglePrefix(f, d, s + [ch], |s| + 1);
    SingleStopped(f, d, |s| + 1, |d|);
  }

  lemma {:induction false} FirstBad(v: string, n: nat) returns (k: nat)
    requires 0 < n <= |v| && Kept(v[..n]) && !Kept(v)
    ensures n <= k < |v| && Kept(v[..k]) && !Kept(v[..k] + [v[k]])
    decreases |v| - n
  {
    hide Kept;
    assert v == v[..|v|];
    assert n < |v| ==> v[..n] + [v[n]] == v[..n + 1];
    if n < |v| && Kept(v[..n + 1]) {
      k := FirstBad(v, n + 1);
    } else {
      k := n;
    }
  }

  /** A refused Content-Length fails at one of its bytes. */
  lemma LengthFails(f: Fields, v: string) returns (k: nat, g: Fields, h: Fields)
    requires Inv(f) && f.errno == OK && f.state == Header(HeaderValueDiscardWs) && f.hs == HContentLength
    requires IsValue(v, f.lenient) && LengthRefusal(f, v).Some?
    ensures k < |v| && Runs(f, v[..k], g, Bytes(Value, v[..k])) && Switch(g, v[k], false) == Fail(h)
    ensures h.errno == LengthRefusal(f, v).value
  {
    hide Inv, Runs, Kept, LengthOf, IsValueByte, ValueStart, ValueByte;
    LengthFirst(f, v[0]);
    assert v[..1] == [v[0]];
    if !IsNum(v[0]) || f.flags.contentLength {
      k, g, h := 0, f, ValueStart(f, v[0]).f;
      RunsNothing(f);
      assert v[..0] == "" && Bytes(Value, "") == [];
      NumFirst(v);
    } else {
      k := FirstBad(v, 1);
      assert IsValue(v[..k], f.lenient);
      LengthRuns(f, v[..k]);
      LengthByte(f, v[..k], v[k]);
      g := Reading(f, LengthOf(v[..k]));
      h := g.(errno := InvalidContentLength);
      assert IsValueByte(v[k], f.lenient);
      LengthSwitch(g, v[k]);
    }
  }

  lemma NumFirst(v: string)
    ensures Kept(v) ==> v != "" && IsNum(v[0])
  {
  }

  lemma LengthSwitch(g: Fields, ch: char)
    requires g.state == Header(HeaderValue) && IsValueByte(ch, g.lenient) && ValueByte(g, ch).BadLength?
    ensures Switch(g, ch, false) == Fail(g.(errno := InvalidContentLength))
  {
    hide ValueByte, IsHeaderChar;
  }

  // ----- Transfer-Encoding

  const CHUNKED: string := "chunked"

  /** A word of any letter case with nothing but spaces behind it. */
  predicate Names(v: string, word: string) {
    |word| <= |v| && Begins(v[..|word|], word) && forall i :: |word| <= i < |v| ==> v[i] == ' '
  }

  lemma NamesMore(v: string, ch: char, word: string)
    ensures Names(v + [ch], word) <==>
      (Names(v, word) && ch == ' ') || (|v| + 1 == |word| && Begins(v + [ch], word))
  {
    hide InWord;
    var t := v + [ch];
    assert t[|v|] == ch && forall i :: 0 <= i < |v| ==> t[i] == v[i];
    if |word| <= |v| {
      assert t[..|word|] == v[..|word|];
    } else if |word| == |t| {
      assert t[..|word|] == t;
    }
  }

  /** What the state of the matcher says about a Transfer-Encoding so far. */
  predicate Coding(hs: HeaderState, index: nat, v: string) {
    match hs
    case MatchingTransferEncodingChunked => Matching(v, CHUNKED, index, 1)
    case TransferEncodingChunked => Names(v, CHUNKED)
    case General => !Begins(v, CHUNKED) && !Names(v, CHUNKED)
    case _ => false
  }

  lemma ChunkedChars(i: nat)
    ensures |CHUNKED| == 7 && CHUNKED == "chunked" && (i < |CHUNKED| ==> IsWordChar(CHUNKED[i]))
  {
  }

  /** One byte further in a word of a value. */
  lemma ValueWordStep(g: Fields, word: string, w: string, ch: char, stay: HeaderState, hit: HeaderState,
                      miss: HeaderState)
    requires w != "" && |w| < |word| <= 17 && g.index + 1 == |w| && Begins(w, word) && IsWordChar(word[|w|])
    requires !IsLineEnd(ch)
    ensures var h := MatchWord(g, word, Lower(ch), stay, hit, miss);
      h == g.(hs := h.hs, index := |w|) &&
      h.hs == if !Begins(w + [ch], word) then miss else if |w| + 1 == |word| then hit else stay
  {
    hide Lower, InWord, IsLineEnd;
    BeginsMore(w, ch, word);
    LowerIs(ch, word[|w|]);
  }

  lemma CodingByte(g: Fields, v: string, ch: char)
    requires v != "" && Coding(g.hs, g.index, v) && !IsLineEnd(ch)
    ensures var r := ValueByte(g, ch);
      r.Scanned? && r.f == g.(hs := r.f.hs, index := r.f.index) && Coding(r.f.hs, r.f.index, v + [ch])
  {
    hide Lower, InWord, Begins, Names, MatchWord, CHUNKED, IsLineEnd;
    ChunkedChars(|v|);
    BeginsMore(v, ch, CHUNKED);
    NamesMore(v, ch, CHUNKED);
    NamesLong(v, CHUNKED);
    if g.hs.MatchingTransferEncodingChunked? {
      ValueWordStep(g, CHUNKED, v, ch, g.hs, TransferEncodingChunked, General);
    }
  }

  lemma NamesLong(v: string, word: string)
    ensures Names(v, word) ==> |v| >= |word|
  {
  }

  lemma CodingFirst(f: Fields, ch: char)
    requires f.hs == HTransferEncoding && !IsLineEnd(ch)
    ensures var s := ValueStart(f, ch);
      s.Next? && s.act == Marking(Value) && s.f == To(f, Header(HeaderValue)).(hs := s.f.hs, index := 0) &&
      Coding(s.f.hs, s.f.index, [ch])
  {
    hide Lower, InWord, Begins, Names, CHUNKED, IsLineEnd;
    ChunkedChars(0);
    BeginsMore("", ch, CHUNKED);
    NoneBegun(CHUNKED);
    assert "" + [ch] == [ch];
    LowerIs(ch, 'c');
    NamesLong([ch], CHUNKED);
    assert CHUNKED[0] == 'c';
  }

  lemma NoneBegun(word: string)
    ensures Begins("", word)
  {
  }

  lemma {:induction false} CodingRuns(f: Fields, v: string) returns (g: Fields)
    requires Inv(f) && f.errno == OK && f.state == Header(HeaderValueDiscardWs) && f.hs == HTransferEncoding
    requires v != "" && IsValue(v, f.lenient)
    ensures Runs(f, v, g, Bytes(Value, v)) && g.state == Header(HeaderValue) && Core(g) == Core(f)
    ensures Coding(g.hs, g.index, v)
    decreases |v|
  {
    hide Inv, Runs, Coding, IsValueByte, ValueStart, ValueByte;
    var k, ch := |v| - 1, v[|v| - 1];
    assert v == v[..k] + [ch];
    if k == 0 {
      CodingFirst(f, ch);
      g := ValueStart(f, ch).f;
      FirstByteRuns(f, ch, g);
      assert v == [ch] && Bytes(Value, v) == [Byte(Value, ch)];
    } else {
      var h := CodingRuns(f, v[..k]);
      NotEnd(ch, f.lenient);
      CodingByte(h, v[..k], ch);
      g := ValueByte(h, ch).f;
      NextByteRuns(h, ch, g);
      ValueMore(f, v[..k], h, ch, g);
    }
  }

  lemma NotEnd(ch: char, lenient: bool)
    requires IsValueByte(ch, lenient)
    ensures !IsLineEnd(ch)
  {
  }
}
