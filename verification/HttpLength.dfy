/** Content-Length in http_parser.c: the number it keeps, and the body it delimits. */
module HttpLength {
  import opened HttpTypes
  import opened HttpStep
  import opened HttpRun
  import opened HttpCutting
  import opened HttpChunked

  /** 2^64 - 6: the least length the overflow check refuses. */
  const LENGTH_LIMIT: nat := U64 - 6

  /** The fields once the first digits of a Content-Length have been read. */
  function Reading(f: Fields, n: nat): Fields {
    f.(state := Header(HeaderValue), index := 0, flags := f.flags.(contentLength := true), contentLength := n)
  }

  lemma FirstLengthDigit(f: Fields, ch: char)
    requires f.state == Header(HeaderValueDiscardWs) && f.hs == HContentLength && !f.flags.contentLength && IsNum(ch)
    ensures var s := Switch(f, ch, false); s.Next? && s.f == Reading(f, Digit(ch))
  {
  }

  /** Another digit is accepted exactly while the value stays below 2^64 - 6, and is then
      never cut to 64 bits. */
  lemma NextLengthDigit(f: Fields, n: nat, ch: char)
    requires f.hs == HContentLength && IsNum(ch)
    ensures var s := Switch(Reading(f, n), ch, false);
      if 10 * n + Digit(ch) < LENGTH_LIMIT then s.Next? && s.f == Reading(f, 10 * n + Digit(ch))
      else s.Fail? && s.f.errno == InvalidContentLength
  {
    assert 0 <= Digit(ch) < 10;
    if 10 * n + Digit(ch) < LENGTH_LIMIT {
      assert (10 * n + Digit(ch)) % U64 == 10 * n + Digit(ch);
    }
  }

  predicate IsDigits(s: string) { forall i :: 0 <= i < |s| ==> IsNum(s[i]) }

  lemma DecimalStep(s: string, k: nat)
    requires IsDigits(s) && 0 < k <= |s|
    ensures Decimal(s[..k]) == 10 * Decimal(s[..k - 1]) + Digit(s[k - 1])
  {
    assert s[..k][..k - 1] == s[..k - 1];
  }

  /** The parser keeps the decimal value of a Content-Length, or refuses it, exactly by
      whether the value is below 2^64 - 6. */
  lemma {:induction false} LengthExact(f: Fields, d: string, s: string, k: nat)
    requires f.state == Header(HeaderValueDiscardWs) && f.hs == HContentLength && !f.flags.contentLength
    requires IsDigits(s) && 0 < k <= |s| && s <= d
    ensures var r := Single(f, d, k);
      if Decimal(s[..k]) < LENGTH_LIMIT then r.end == More && r.f == Reading(f, Decimal(s[..k]))
      else r.end == Failed && r.f.errno == InvalidContentLength
  {
    hide Switch, Decimal, Bytewise;
    DecimalStep(s, k);
    assert d[k - 1] == s[k - 1];
    if k == 1 {
      NoDigits(s);
      BeginMore(f, d);
      FirstLengthDigit(f, d[0]);
      SingleMicro(f, d, 0);
    } else {
      LengthExact(f, d, s, k - 1);
      if Decimal(s[..k - 1]) < LENGTH_LIMIT {
        NextLengthDigit(f, Decimal(s[..k - 1]), s[k - 1]);
        SingleMicro(f, d, k - 1);
      } else {
        SingleStopped(f, d, k - 1, k);
      }
    }
  }

  lemma NoDigits(s: string)
    ensures Decimal(s[..0]) == 0
  {
  }

  // ----- A body of known length

  function Left(f: Fields, n: nat): Fields { f.(contentLength := n) }

  /** The fields once the message is over. */
  function Over(f: Fields): Fields {
    var g := f.(contentLength := 0);
    g.(state := NewMessage(g))
  }

  lemma BodySwitches(f: Fields, n: nat, ch: char)
    requires f.state == Payload(BodyIdentity) && 0 < n < NO_LENGTH
    ensures n > 1 ==> Switch(Left(f, n), ch, false) == Next(Left(f, n - 1), Marking(Body))
    ensures var done := Left(f, 0).(state := Payload(MessageDone));
      Switch(Left(f, 1), ch, false) == Again(done, Act(Some(Body), Some(Body), true, false, None)) &&
      Switch(done, ch, false) ==
        if f.upgrade then Exit(Over(f), Notifying(MessageComplete)) else Next(Over(f), Notifying(MessageComplete))
  {
    hide ShouldKeepAlive;
    SameKeepAlive(Left(f, 0), Payload(MessageDone));
  }

  lemma SameKeepAlive(f: Fields, s: State)
    ensures ShouldKeepAlive(f.(state := s)) == ShouldKeepAlive(f)
  {
  }

  lemma {:induction false} BodyBytes(f: Fields, data: string, k: nat)
    requires f.state == Payload(BodyIdentity) && f.contentLength == |data| < NO_LENGTH && k < |data|
    ensures Reaches(f, data, k, Left(f, |data| - k), Bytes(Body, data[..k]))
  {
    hide Reaches, Switch;
    if k == 0 {
      StartReached(f, data);
      assert Left(f, |data|) == f;
    } else {
      BodyBytes(f, data, k - 1);
      BodySwitches(f, |data| - k + 1, data[k - 1]);
      BodyStep(f, data, k - 1, Left(f, |data| - k + 1), Bytes(Body, data[..k - 1]), Left(f, |data| - k));
      assert Bytes(Body, data[..k - 1]) + [Byte(Body, data[k - 1])] == Bytes(Body, data[..k]);
    }
  }

  lemma StartReached(f: Fields, data: string)
    requires f.state == Payload(BodyIdentity)
    ensures Reaches(f, data, 0, f, Bytes(Body, data[..0]))
  {
  }

  lemma LastBodyStep(f: Fields, d: string, p: nat, g: Fields, evs: seq<Event>, done: Fields, t: Fields)
    requires p < |d| && Reaches(f, d, p, g, evs) && g.state == Payload(BodyIdentity)
    requires Switch(g, d[p], false) == Again(done, Act(Some(Body), Some(Body), true, false, None))
    requires done.state == Payload(MessageDone)
    requires Switch(done, d[p], false) ==
      if g.upgrade then Exit(t, Notifying(MessageComplete)) else Next(t, Notifying(MessageComplete))
    ensures var r := Single(f, d, p + 1);
      r.f == t && r.m.evs == evs + [Byte(Body, d[p]), Note(MessageComplete)] &&
      r.used == p + 1 && r.end == if g.upgrade then Exited else More
  {
    hide Switch, InGeneral, Bytewise, Begin;
    SingleUsed(f, d, p);
    SingleStep(f, d, p);
    var m := Marks(None, 0, evs);
    var m1 := ApplyAct(m, Act(Some(Body), Some(Body), true, false, None), d[p]);
    assert m1 == Marks(None, 0, evs + [Byte(Body, d[p])]);
    assert RunSwitch(done, m1, d[p], false).m == ApplyAct(m1, Notifying(MessageComplete), d[p]);
  }

  /** A body with Content-Length is delivered whole, with one message_complete, and no cut
      of it can change that. */
  lemma LengthBody(f: Fields, data: string)
    requires Inv(f) && f.errno == OK && f.state == Payload(BodyIdentity) && f.contentLength == |data|
    ensures var r := Single(f, data, |data|);
      r.f == Over(f) && r.used == |data| && r.m.evs == Bytes(Body, data) + [Note(MessageComplete)] &&
      r.end == (if f.upgrade then Exited else More) && CutFree(f, data)
    ensures forall i :: 0 <= i < |data| ==> !InGeneral(Single(f, data, i).f)
  {
    hide Switch, Reaches, CutFree, HidesBadByte, Bytewise, Begin, NewMessage, IndexInMethod, InGeneral;
    var k := |data| - 1;
    BodyBytes(f, data, k);
    BodySwitches(f, 1, data[k]);
    LastBodyStep(f, data, k, Left(f, 1), Bytes(Body, data[..k]), Left(f, 0).(state := Payload(MessageDone)), Over(f));
    assert Bytes(Body, data[..k]) + [Byte(Body, data[k]), Note(MessageComplete)] ==
      Bytes(Body, data) + [Note(MessageComplete)];
    ReachesUnhidden(f, data, k, Left(f, 1), Bytes(Body, data[..k]));
    ReachesPlain(f, data, k, Left(f, 1), Bytes(Body, data[..k]));
    CuttingIndependence(f, data);
  }
}
