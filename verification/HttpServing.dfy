/** What HttpContext and HttpServer::OnMessage make of a byte stream, one unit (a line,
    or body bytes) after another; and that the cut of the stream into reads is invisible. */
module HttpServing {
  import opened HttpTypes
  import opened RequestText
  import opened BufferModel

  const MAX_LINE: nat := 8192

  datatype RecvStatus = RecvError | RecvLine | RecvHead | RecvBody | RecvOver

  datatype Ctx = Ctx(recv: RecvStatus, resp: nat, req: HttpRequest)

  const FRESH: Ctx := Ctx(RecvLine, 200, EMPTY)

  /** What one unit of input leads to. */
  datatype Step =
    | Wait(c: Ctx, rest: string)      // more input is needed
    | Go(c: Ctx, rest: string)        // a line is done, the request is not
    | Done(req: HttpRequest, rest: string)
    | Refuse(status: nat)
    | Throw                           // std::stol throws, and nothing catches it

  /** RecvHttpBody */
  function BodyStep(c: Ctx, s: string): Step {
    match ContentLength(c.req)
    case None => Throw
    case Some(n) =>
      if |c.req.body| > n then Wait(c, s)
      else
        var need := n - |c.req.body|;
        if need <= |s| then Done(c.req.(body := c.req.body + s[..need]), s[need..])
        else Wait(c.(req := c.req.(body := c.req.body + s)), "")
  }

  /** One line of RecvHttpLine or RecvHttpHead. */
  function LineStep(c: Ctx, line: string, rest: string): Step {
    if c.recv.RecvLine? then
      match ParseLine(line)
      case None => Refuse(400)
      case Some(req) => Go(Ctx(RecvHead, c.resp, req), rest)
    else if line == "\r\n" || line == "\n" then BodyStep(c.(recv := RecvBody), rest)
    else
      match ParseHead(line)
      case None => Refuse(400)
      case Some((k, v)) => Go(c.(req := c.req.(headers := Insert(c.req.headers, k, v))), rest)
  }

  function StepOf(c: Ctx, s: string): Step {
    if c.recv.RecvBody? then BodyStep(c, s)
    else
      var line := LineOf(s);
      if line == "" then (if |s| > MAX_LINE then Refuse(414) else Wait(c, s))
      else if |line| > MAX_LINE then Refuse(414)
      else LineStep(c, line, s[|line|..])
  }

  /** The context between two calls of RecvHttpRequest. */
  predicate CtxOk(c: Ctx) {
    c.resp == 200 &&
    match c.recv
    case RecvLine => c.req == EMPTY
    case RecvHead => c.req.body == ""
    case RecvBody => ContentLength(c.req).Some? && |c.req.body| < ContentLength(c.req).value
    case _ => false
  }

  datatype Outcome = Parsed(req: HttpRequest) | Refused(status: nat)
  datatype End = Waiting | Stopped | Thrown

  /** The context and the unread bytes, the requests handed to the router (and the error
      answer, if that ended it), and how it ended. */
  datatype Drive = Drive(c: Ctx, rest: string, out: seq<Outcome>, end: End)

  function Serve(c: Ctx, s: string): (d: Drive)
    requires CtxOk(c)
    decreases |s|
  {
    if s == "" then Drive(c, s, [], Waiting) else
    var u := StepOf(c, s);
    StepShrinks(c, s);
    match u
    case Wait(g, rest) => Drive(g, rest, [], Waiting)
    case Go(g, rest) => Serve(g, rest)
    case Done(req, rest) => After(Parsed(req), Serve(FRESH, rest))
    case Refuse(status) => Drive(FRESH, "", [Refused(status)], Stopped)
    case Throw => Drive(FRESH, "", [], Thrown)
  }

  /** What a step makes of the rest of the run. */
  function Served(u: Step): Drive
    requires u.Go? ==> CtxOk(u.c)
  {
    match u
    case Wait(g, rest) => Drive(g, rest, [], Waiting)
    case Go(g, rest) => Serve(g, rest)
    case Done(req, rest) => After(Parsed(req), Serve(FRESH, rest))
    case Refuse(status) => Drive(FRESH, "", [Refused(status)], Stopped)
    case Throw => Drive(FRESH, "", [], Thrown)
  }

  function After(o: Outcome, d: Drive): Drive { d.(out := [o] + d.out) }

  /** A step that ends a line or a request consumes input; a waiting one leaves at most
      one unfinished line. */
  lemma StepShrinks(c: Ctx, s: string)
    requires CtxOk(c) && s != ""
    ensures var u := StepOf(c, s);
      (u.Go? ==> |u.rest| < |s| && CtxOk(u.c)) && (u.Done? ==> |u.rest| < |s|) &&
      (u.Wait? ==> CtxOk(u.c) && |u.rest| <= MAX_LINE && (u.rest == "" || (u.c == c && u.rest == s && LineOf(s) == "")))
  {
    hide ParseLine, ParseHead, Stol;
    if !c.recv.RecvBody? {
      var line := LineOf(s);
      ParsedOk(line);
    }
  }

  lemma ParsedOk(line: string)
    ensures ParseLine(line).Some? ==> ParseLine(line).value.body == "" && ParseLine(line).value.headers == map[]
  {
    hide MatchLine, SplitOf, AddParams;
  }

  // ----- Cutting the stream

  /** More input for a run that waits; a run that ended ignores it. */
  function Resume(d: Drive, more: string): Drive
    requires d.end.Waiting? ==> CtxOk(d.c)
  {
    if !d.end.Waiting? then d else
      var e := Serve(d.c, d.rest + more);
      e.(out := d.out + e.out)
  }

  /** A run ends by waiting with at most one unfinished, short line unread. */
  lemma {:induction false} ServeEnds(c: Ctx, s: string)
    requires CtxOk(c)
    ensures var d := Serve(c, s);
      |d.rest| <= |s| &&
      if d.end.Waiting? then CtxOk(d.c) && |d.rest| <= MAX_LINE && LineOf(d.rest) == ""
      else d.c == FRESH && d.rest == ""
    decreases |s|
  {
    hide StepOf, CtxOk, LineOf;
    LineOfNothing();
    FreshOk();
    if s != "" {
      StepShrinks(c, s);
      var u := StepOf(c, s);
      if u.Go? {
        ServeEnds(u.c, u.rest);
      } else if u.Done? {
        ServeEnds(FRESH, u.rest);
      }
    }
  }

  lemma LineOfNothing()
    ensures LineOf("") == ""
  {
  }

  lemma FreshOk()
    ensures CtxOk(FRESH)
  {
  }

  lemma {:induction false} LineAppend(a: string, b: string)
    ensures LineOf(a) != "" ==> LineOf(a + b) == LineOf(a)
    ensures LineOf(a) == "" ==> LineOf(a + b) == "" || |LineOf(a + b)| > |a|
  {
    if a != "" {
      LineAppend(a[1..], b);
      assert (a + b)[1..] == a[1..] + b;
    }
  }

  /** The same step on longer input. */
  predicate SameStep(u: Step, v: Step, b: string) {
    match u
    case Go(g, rest) => v == Go(g, rest + b)
    case Done(req, rest) => v == Done(req, rest + b)
    case Refuse(status) => v == u
    case Throw => v == u
    case Wait(g, rest) => true
  }

  lemma BodyAppend(c: Ctx, a: string, b: string)
    ensures SameStep(BodyStep(c, a), BodyStep(c, a + b), b)
    ensures var u := BodyStep(c, a);
      u.Wait? && ContentLength(c.req).Some? &&
      |c.req.body| <= ContentLength(c.req).value ==>
        BodyStep(c, a + b) == BodyStep(u.c, b)
  {
    hide Stol;
    var u := BodyStep(c, a);
    if ContentLength(c.req).Some? && |c.req.body| <= ContentLength(c.req).value {
      var need := ContentLength(c.req).value - |c.req.body|;
      if need <= |a| {
        assert (a + b)[..need] == a[..need] && (a + b)[need..] == a[need..] + b;
      } else {
        assert c.req.body + (a + b) == (c.req.body + a) + b;
        if need <= |a + b| {
          assert c.req.body + (a + b)[..need] == (c.req.body + a) + b[..need - |a|];
          assert (a + b)[need..] == b[need - |a|..];
        }
      }
    }
  }

  lemma LineStepAppend(c: Ctx, line: string, rest: string, b: string)
    requires CtxOk(c) && !c.recv.RecvBody?
    ensures SameStep(LineStep(c, line, rest), LineStep(c, line, rest + b), b)
    ensures var u := LineStep(c, line, rest);
      u.Wait? ==> u.rest == "" && u.c.recv.RecvBody? && LineStep(c, line, rest + b) == BodyStep(u.c, b)
  {
    hide ParseLine, ParseHead, BodyStep, ContentLength;
    BodyAppend(c.(recv := RecvBody), rest, b);
    if c.recv.RecvHead? {
      BodyEnough(c.(recv := RecvBody), rest);
    }
  }

  lemma BodyEnough(c: Ctx, s: string)
    requires c.req.body == ""
    ensures BodyStep(c, s).Wait? ==>
      ContentLength(c.req).Some? && BodyStep(c, s).rest == "" && BodyStep(c, s).c.recv == c.recv
  {
  }

  lemma StepAppend(c: Ctx, a: string, b: string)
    requires CtxOk(c) && a != ""
    ensures SameStep(StepOf(c, a), StepOf(c, a + b), b)
    ensures var u := StepOf(c, a);
      u.Wait? ==> (u.c == c && u.rest == a) || (u.rest == "" && u.c.recv.RecvBody? && StepOf(c, a + b) == StepOf(u.c, b))
  {
    hide BodyStep, LineStep, ContentLength, LineOf;
    if c.recv.RecvBody? {
      BodyAppend(c, a, b);
      BodyWaits(c, a);
    } else {
      LineAppend(a, b);
      var line := LineOf(a);
      if line != "" {
        assert (a + b)[|line|..] == a[|line|..] + b;
        LineStepAppend(c, line, a[|line|..], b);
      }
    }
  }

  lemma BodyWaits(c: Ctx, s: string)
    requires CtxOk(c) && c.recv.RecvBody?
    ensures ContentLength(c.req).Some? && |c.req.body| <= ContentLength(c.req).value
    ensures BodyStep(c, s).Wait? ==> BodyStep(c, s).rest == "" && BodyStep(c, s).c.recv.RecvBody?
  {
  }

  lemma ServeOf(c: Ctx, s: string)
    requires CtxOk(c) && s != ""
    ensures StepOf(c, s).Go? ==> CtxOk(StepOf(c, s).c)
    ensures Serve(c, s) == Served(StepOf(c, s))
  {
    hide StepOf, CtxOk;
    StepShrinks(c, s);
  }

  lemma LineServed(c: Ctx, s: string)
    requires CtxOk(c) && !c.recv.RecvBody? && LineOf(s) != "" && |LineOf(s)| <= MAX_LINE
    ensures var u := LineStep(c, LineOf(s), s[|LineOf(s)|..]);
      (u.Go? ==> CtxOk(u.c)) && Serve(c, s) == Served(u)
  {
    hide LineStep, CtxOk;
    ServeOf(c, s);
  }

  /** Reading a, then b, is reading a and b at once. */
  lemma {:induction false} ServeAppend(c: Ctx, a: string, b: string)
    requires CtxOk(c)
    ensures Serve(c, a).end.Waiting? ==> CtxOk(Serve(c, a).c)
    ensures Resume(Serve(c, a), b) == Serve(c, a + b)
    decreases |a|
  {
    hide StepOf, CtxOk, LineOf, Serve;
    ServeEnds(c, a);
    FreshOk();
    if a == "" {
      assert a + b == b;
      ServeNothing(c);
    } else {
      ServeOf(c, a);
      ServeOf(c, a + b);
      StepShrinks(c, a);
      StepShrinks(c, a + b);
      StepAppend(c, a, b);
      var u := StepOf(c, a);
      match u
      case Go(g, rest) => ServeAppend(g, rest, b);
      case Done(req, rest) => ServeAppend(FRESH, rest, b);
      case Wait(g, rest) =>
        if !(g == c && rest == a) {
          assert rest + b == b;
          if b == "" {
            assert a + b == a;
            ServeNothing(g);
          } else {
            ServeOf(g, b);
          }
        }
      case Refuse(status) =>
      case Throw =>
    }
  }

  lemma ServeNothing(c: Ctx)
    requires CtxOk(c)
    ensures Serve(c, "") == Drive(c, "", [], Waiting)
  {
  }

  // ----- Any number of reads

  function Joined(pieces: seq<string>): string {
    if pieces == [] then "" else Joined(pieces[..|pieces| - 1]) + pieces[|pieces| - 1]
  }

  ghost function ServeReads(pieces: seq<string>): (d: Drive)
    ensures d.end.Waiting? ==> CtxOk(d.c)
  {
    if pieces == [] then (FreshOk(); Drive(FRESH, "", [], Waiting)) else
      var d := ServeReads(pieces[..|pieces| - 1]);
      var last := pieces[|pieces| - 1];
      (if d.end.Waiting? then ServeEnds(d.c, d.rest + last); Resume(d, last) else d)
  }

  /** For every stream and every cut of it into reads, the same requests are parsed, up to
      and including the first refusal, and the same context and unread bytes remain. */
  lemma {:induction false} FragmentationIndependence(pieces: seq<string>)
    ensures CtxOk(FRESH) && ServeReads(pieces) == Serve(FRESH, Joined(pieces))
  {
    hide Serve, CtxOk;
    FreshOk();
    if pieces == [] {
      ServeNothing(FRESH);
    } else {
      var init, last := pieces[..|pieces| - 1], pieces[|pieces| - 1];
      FragmentationIndependence(init);
      ServeAppend(FRESH, Joined(init), last);
    }
  }
}
