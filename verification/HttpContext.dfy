/** HttpContext over its input Buffer, and HttpServer::OnMessage driving it. */
module HttpContextModel {
  import opened HttpTypes
  import opened PercentCoding
  import opened RequestText
  import opened BufferModel
  import opened HttpServing

  datatype ParseState = NeedMore | Success | ParseError

  /** A refusing run. */
  predicate Refuses(d: Drive, status: nat) { d == Drive(FRESH, "", [Refused(status)], Stopped) }

  predicate Waits(d: Drive, c: Ctx, s: string) { d == Drive(c, s, [], Waiting) }

  lemma LongLineRefused(c: Ctx, s: string)
    requires CtxOk(c) && !c.recv.RecvBody? && (if LineOf(s) == "" then |s| > MAX_LINE else |LineOf(s)| > MAX_LINE)
    ensures Refuses(Serve(c, s), 414)
  {
    ServeOf(c, s);
  }

  lemma NoLineWaits(c: Ctx, s: string)
    requires CtxOk(c) && !c.recv.RecvBody? && LineOf(s) == "" && |s| <= MAX_LINE
    ensures Waits(Serve(c, s), c, s)
  {
    if s == "" { ServeNothing(c); } else { ServeOf(c, s); }
  }

  class HttpContext {
    var respStatus: nat
    var recvStatus: RecvStatus
    var request: HttpRequest

    function Value(): Ctx
      reads this
    {
      Ctx(recvStatus, respStatus, request)
    }

    constructor ()
      ensures Value() == FRESH
    {
      respStatus, recvStatus, request := 200, RecvLine, EMPTY;
    }

    method Reset()
      modifies this
      ensures Value() == FRESH
    {
      respStatus, recvStatus, request := 200, RecvLine, EMPTY;
    }

    /** Parses a request line into a reset request. */
    method ParseHttpLine(line: string) returns (ok: bool)
      requires request == EMPTY
      modifies this
      ensures ok <==> ParseLine(line).Some?
      ensures ok ==> Value() == old(Value()).(req := ParseLine(line).value)
      ensures !ok ==> respStatus == 400 && recvStatus == RecvError
    {
      hide MatchLine, SplitOf, Decoded;
      var matches := MatchLine(line);
      if matches.None? {
        respStatus, recvStatus := 400, RecvError;
        return false;
      }
      var path := UrlDecode(matches.value.path, false);
      request := request.(meth := matches.value.meth, path := path);
      if matches.value.query != "" {
        var pieces := Split(matches.value.query, "&");
        for i := 0 to |pieces|
          invariant request == EMPTY.(meth := matches.value.meth, path := path, params := request.params)
          invariant AddParams(pieces[i..], request.params) == AddParams(pieces, map[])
          invariant recvStatus == old(recvStatus) && respStatus == old(respStatus)
        {
          var pos := IndexOf(pieces[i], "=");
          assert pieces[i..][1..] == pieces[i + 1..];
          if pos.None? {
            request := EMPTY;
            respStatus, recvStatus := 400, RecvError;
            return false;
          }
          var key := UrlDecode(pieces[i][..pos.value], true);
          var val := UrlDecode(pieces[i][pos.value + 1..], true);
          request := request.(params := Insert(request.params, key, val));
        }
      }
      request := request.(version := matches.value.version);
      ok := true;
    }

    method RecvHttpLine(buf: Buffer) returns (state: ParseState)
      requires buf.Valid() && (recvStatus.RecvLine? ==> CtxOk(Value()))
      modifies this, buf`reader
      ensures buf.Valid()
      ensures !old(recvStatus).RecvLine? ==> Value() == old(Value()) && buf.reader == old(buf.reader)
      ensures old(recvStatus).RecvLine? ==>
        var d := Serve(old(Value()), old(buf.Contents()));
        match recvStatus
        case RecvError => respStatus >= 400 && Refuses(d, respStatus)
        case RecvLine => Value() == old(Value()) && Waits(d, Value(), buf.Contents())
        case RecvHead =>
          CtxOk(Value()) && d == Serve(Value(), buf.Contents()) && |buf.Contents()| < |old(buf.Contents())|
        case _ => false
    {
      hide ParseLine, Serve, LineOf;
      if !recvStatus.RecvLine? {
        return ParseError;
      }
      ghost var c, s := Value(), buf.Contents();
      var line := buf.GetLineAndPop();
      if line == "" {
        var n := buf.ReadAbleSize();
        if n > MAX_LINE {
          LongLineRefused(c, s);
          respStatus, recvStatus := 414, RecvError;
          return ParseError;
        }
        NoLineWaits(c, s);
        return NeedMore;
      }
      if |line| > MAX_LINE {
        LongLineRefused(c, s);
        respStatus, recvStatus := 414, RecvError;
        return ParseError;
      }
      LineServed(c, s);
      var ok := ParseHttpLine(line);
      if !ok {
        return ParseError;
      }
      recvStatus := RecvHead;
      state := Success;
    }

    method ParseHttpHead(line: string) returns (ok: bool)
      modifies this
      ensures ok <==> ParseHead(line).Some?
      ensures ok ==>
        var (k, v) := ParseHead(line).value;
        Value() == old(Value()).(req := old(request).(headers := Insert(old(request).headers, k, v)))
      ensures !ok ==> respStatus == 400 && recvStatus == RecvError
    {
      var t := line;
      if t != "" && t[|t| - 1] == '\n' {
        t := t[..|t| - 1];
      }
      if t != "" && t[|t| - 1] == '\r' {
        t := t[..|t| - 1];
      }
      var symbol := ": ";
      var pos := IndexOf(t, symbol);
      if pos.None? {
        respStatus, recvStatus := 400, RecvError;
        return false;
      }
      request := request.(headers := Insert(request.headers, t[..pos.value], t[pos.value + |symbol|..]));
      ok := true;
    }

    method RecvHttpHead(buf: Buffer) returns (state: ParseState)
      requires buf.Valid() && (recvStatus.RecvHead? ==> CtxOk(Value()))
      modifies this, buf`reader
      ensures buf.Valid()
      ensures !old(recvStatus).RecvHead? ==> Value() == old(Value()) && buf.reader == old(buf.reader)
      ensures old(recvStatus).RecvHead? ==>
        var d := Serve(old(Value()), old(buf.Contents()));
        match recvStatus
        case RecvError => respStatus >= 400 && Refuses(d, respStatus)
        case RecvHead => CtxOk(Value()) && Waits(d, Value(), buf.Contents())
        case RecvBody =>
          respStatus == 200 && request.body == "" && |buf.Contents()| < |old(buf.Contents())| &&
          d == Served(BodyStep(Value(), buf.Contents()))
        case _ => false
    {
      hide ParseHead, Serve, LineOf, BodyStep;
      if !recvStatus.RecvHead? {
        return ParseError;
      }
      ghost var d := Serve(Value(), buf.Contents());
      while true
        invariant buf.Valid() && recvStatus.RecvHead? && CtxOk(Value())
        invariant Serve(Value(), buf.Contents()) == d && |buf.Contents()| <= |old(buf.Contents())|
        decreases |buf.Contents()|
      {
        ghost var c, s := Value(), buf.Contents();
        var line := buf.GetLineAndPop();
        if line == "" {
          var n := buf.ReadAbleSize();
          if n > MAX_LINE {
            LongLineRefused(c, s);
            respStatus, recvStatus := 414, RecvError;
            return ParseError;
          }
          NoLineWaits(c, s);
          return NeedMore;
        }
        if |line| > MAX_LINE {
          LongLineRefused(c, s);
          respStatus, recvStatus := 414, RecvError;
          return ParseError;
        }
        LineServed(c, s);
        if line == "\r\n" || line == "\n" {
          break;
        }
        var ok := ParseHttpHead(line);
        if !ok {
          return ParseError;
        }
      }
      recvStatus := RecvBody;
      state := Success;
    }

    /** `thrown`: the exception of std::stol. */
    method RecvHttpBody(buf: Buffer) returns (state: ParseState, thrown: bool)
      requires buf.Valid()
      modifies this, buf`reader
      ensures buf.Valid()
      ensures !old(recvStatus).RecvBody? ==> Value() == old(Value()) && buf.reader == old(buf.reader) && !thrown
      ensures old(recvStatus).RecvBody? ==>
        match BodyStep(old(Value()), old(buf.Contents()))
        case Throw => thrown
        case Wait(c, rest) => !thrown && Value() == c && buf.Contents() == rest
        case Done(req, rest) =>
          !thrown && Value() == old(Value()).(recv := RecvOver, req := req) && buf.Contents() == rest
        case _ => false
    {
      hide Stol;
      if !recvStatus.RecvBody? {
        return ParseError, false;
      }
      var contentLen := ContentLength(request);
      if contentLen.None? {
        return ParseError, true;
      }
      if |request.body| > contentLen.value {
        return ParseError, false;
      }
      if contentLen.value == 0 {
        recvStatus := RecvOver;
        return Success, false;
      }
      var needLen := contentLen.value - |request.body|;
      if needLen == 0 {
        recvStatus := RecvOver;
        return Success, false;
      }
      var readable := buf.ReadAbleSize();
      var takeLen := if needLen < readable then needLen else readable;
      var bytes := buf.ReadAsStringAndPop(takeLen);
      request := request.(body := request.body + bytes);
      if takeLen == needLen {
        recvStatus := RecvOver;
        return Success, false;
      }
      return NeedMore, false;
    }

    /** One call of RecvHttpRequest: it ends a request, refuses one, waits for more input,
        or lets an exception through; which of them, the run over the unread bytes says. */
    method RecvHttpRequest(buf: Buffer) returns (thrown: bool)
      requires buf.Valid() && CtxOk(Value()) && buf.Contents() != ""
      modifies this, buf`reader
      ensures buf.Valid()
      ensures var d := Serve(old(Value()), old(buf.Contents()));
        if thrown then d == Drive(FRESH, "", [], Thrown)
        else if respStatus >= 400 then Refuses(d, respStatus)
        else if recvStatus.RecvOver? then
          CtxOk(FRESH) && d == After(Parsed(request), Serve(FRESH, buf.Contents())) &&
          |buf.Contents()| < |old(buf.Contents())|
        else CtxOk(Value()) && Waits(d, Value(), buf.Contents())
    {
      hide Serve, LineOf, LineStep, ParseLine, Stol;
      ghost var d := Serve(Value(), buf.Contents());
      FreshOk();
      ServeOf(Value(), buf.Contents());
      StepShrinks(Value(), buf.Contents());
      var state;
      thrown := false;
      // The cases of the switch fall through; each receiver checks the status itself.
      match recvStatus {
        case RecvLine =>
          state := RecvHttpLine(buf);
          state := RecvHttpHead(buf);
          BodyFits(Value());
          state, thrown := RecvHttpBody(buf);
        case RecvHead =>
          state := RecvHttpHead(buf);
          BodyFits(Value());
          state, thrown := RecvHttpBody(buf);
        case RecvBody =>
          state, thrown := RecvHttpBody(buf);
        case RecvOver | RecvError =>
      }
    }
  }

  /** A body that starts empty never holds more than Content-Length says. */
  lemma BodyFits(c: Ctx)
    ensures forall s :: c.recv.RecvBody? && c.resp == 200 && c.req.body == "" ==>
      var u := BodyStep(c, s);
      !u.Go? && !u.Refuse? && (u.Wait? ==> CtxOk(u.c)) && (u.Done? ==> |u.rest| <= |s|)
  {
    hide Stol;
  }

  // ----- HttpServer::OnMessage on one connection

  /** A request ended: the rest of the run is the run over the rest. */
  function Prefixed(out: seq<Outcome>, d: Drive): Drive { d.(out := out + d.out) }

  /** recv is given one byte less than its buffer of 65536. */
  const READ_SIZE: nat := 65535
  const INPUT_LIMIT: nat := 147452

  /** At most one unfinished line is unread between reads, and the buffer stays small. */
  predicate InputOk(s: Shape) { ShapeOk(s) && s.writer - s.reader <= MAX_LINE && s.size <= INPUT_LIMIT }

  /** A read always fits, so the 1 MiB clamp is never reached and no byte is lost. */
  lemma ReadFits(s: Shape, n: nat)
    requires InputOk(s) && n <= READ_SIZE
    ensures Fits(s, n) && ShapeOk(Pushed(s, n)) && Pushed(s, n).size <= INPUT_LIMIT
  {
  }

  lemma WaitingAgain(c: Ctx, s: string, d: Drive)
    requires CtxOk(c) && d == Serve(c, s) && d.end.Waiting?
    ensures CtxOk(d.c) && Waits(Serve(d.c, d.rest), d.c, d.rest)
  {
    hide Serve, CtxOk;
    ServeAppend(c, s, "");
    assert s + "" == s && d.rest + "" == d.rest;
    var e := Serve(d.c, d.rest);
    assert d.out + e.out == d.out;
  }

  lemma TurnDone(d: Drive, out: seq<Outcome>, req: HttpRequest, rest: string)
    requires CtxOk(FRESH) && d == Prefixed(out, After(Parsed(req), Serve(FRESH, rest)))
    ensures d == Prefixed(out + [Parsed(req)], Serve(FRESH, rest))
  {
    hide Serve, CtxOk;
    assert out + ([Parsed(req)] + Serve(FRESH, rest).out) == out + [Parsed(req)] + Serve(FRESH, rest).out;
  }

  /** Looking again at what a waiting run left unread changes nothing. */
  lemma ShutdownDone(d: Drive, out: seq<Outcome>, s: string, f: Drive)
    requires CtxOk(FRESH) && f == Serve(FRESH, s) && d == Prefixed(out, f)
    ensures if f.end.Waiting? then CtxOk(f.c) && d == Prefixed(out + f.out, Serve(f.c, f.rest))
            else f.c == FRESH && f.rest == "" && d.out == out + f.out
    ensures d.end == f.end
    ensures |f.rest| <= |s|
  {
    hide Serve, CtxOk;
    ServeEnds(FRESH, s);
    if f.end.Waiting? {
      WaitingAgain(FRESH, s, f);
    }
  }

  /** What is still to come of run d once `out` was answered: the run over what is unread,
      or nothing after a refusal. */
  ghost predicate LeftOver(d: Drive, out: seq<Outcome>, c: Ctx, s: string) {
    CtxOk(c) && (d == Prefixed(out, Serve(c, s)) || (d == Drive(FRESH, "", out, Stopped) && c == FRESH && s == ""))
  }

  lemma LeftOverAll(c: Ctx, s: string)
    requires CtxOk(c)
    ensures LeftOver(Serve(c, s), [], c, s)
  {
    hide Serve, CtxOk;
    assert [] + Serve(c, s).out == Serve(c, s).out;
  }

  lemma LeftOverNone(d: Drive, out: seq<Outcome>, c: Ctx)
    requires LeftOver(d, out, c, "")
    ensures d.out == out && d.c == c && d.rest == "" && !d.end.Thrown?
  {
    ServeNothing(c);
  }

  class HttpSession {
    const input: Buffer
    const context: HttpContext
    /** What the route handler decides about a parsed request: whether its response keeps
        the connection open. */
    const keepsOpen: HttpRequest -> bool
    /** The requests handed to the router, and the refusals answered. */
    var answered: seq<Outcome>

    ghost predicate Valid()
      reads this, input, context
    {
      InputOk(input.Where()) && CtxOk(context.Value())
    }

    constructor (keepsOpen: HttpRequest -> bool)
      ensures Valid() && fresh(input) && fresh(input.data) && fresh(context)
      ensures context.Value() == FRESH && answered == [] && input.Contents() == ""
    {
      input := new Buffer();
      context := new HttpContext();
      this.keepsOpen := keepsOpen;
      answered := [];
    }

    /** OnMessage.  Its Shutdown calls re-enter it while bytes are unread. */
    method OnMessage() returns (thrown: bool)
      requires input.Valid() && CtxOk(context.Value())
      modifies this`answered, context, input`reader
      ensures input.Valid() && input.Where() == old(input.Where()).(reader := input.reader)
      ensures var d := Serve(old(context.Value()), old(input.Contents()));
        answered == old(answered) + d.out && (thrown <==> d.end.Thrown?) &&
        (!thrown ==> CtxOk(context.Value()) && context.Value() == d.c && input.Contents() == d.rest)
      decreases |input.Contents()|, 1
    {
      hide Serve, CtxOk, LeftOver;
      ghost var d := Serve(context.Value(), input.Contents());
      ghost var out := []; // answered since the call
      LeftOverAll(context.Value(), input.Contents());
      thrown := false;
      var more := true;
      var n := input.ReadAbleSize();
      while n > 0
        invariant input.Valid() && input.Where() == old(input.Where()).(reader := input.reader)
        invariant CtxOk(context.Value()) && n == |input.Contents()| <= |old(input.Contents())|
        invariant answered == old(answered) + out && !thrown && LeftOver(d, out, context.Value(), input.Contents())
        decreases n
      {
        ghost var made;
        thrown, more, made := Turn(d, out);
        if thrown || !more {
          return;
        }
        out := out + made;
        n := input.ReadAbleSize();
      }
      LeftOverNone(d, out, context.Value());
    }

    /** One turn of its loop. */
    method Turn(ghost d: Drive, ghost out: seq<Outcome>) returns (thrown: bool, more: bool, ghost made: seq<Outcome>)
      requires input.Valid() && CtxOk(context.Value()) && input.Contents() != ""
      requires LeftOver(d, out, context.Value(), input.Contents())
      modifies this`answered, context, input`reader
      ensures input.Valid() && input.Where() == old(input.Where()).(reader := input.reader)
      ensures answered == old(answered) + made && (thrown ==> d.end.Thrown? && d.out == out + made)
      ensures !thrown ==> CtxOk(context.Value())
      ensures !thrown && more ==>
        |input.Contents()| < |old(input.Contents())| && LeftOver(d, out + made, context.Value(), input.Contents())
      ensures !thrown && !more ==>
        !d.end.Thrown? && d.out == out + made && context.Value() == d.c && input.Contents() == d.rest
      decreases |input.Contents()|, 0
    {
      hide Serve, CtxOk;
      FreshOk();
      made, more := [], false;
      thrown := context.RecvHttpRequest(input);
      if thrown {
        return;
      }
      if context.respStatus >= 400 {
        made := [Refused(context.respStatus)];
        answered := answered + [Refused(context.respStatus)];
        context.Reset();
        var n := input.ReadAbleSize();
        input.MoveReadOffset(n);
        return;
      }
      if !context.recvStatus.RecvOver? {
        return;
      }
      ghost var f := Serve(FRESH, input.Contents());
      ghost var log := out + [Parsed(context.request)];
      TurnDone(d, out, context.request, input.Contents());
      ShutdownDone(d, log, input.Contents(), f);
      made := [Parsed(context.request)];
      var shut;
      thrown, shut := Respond();
      made := if shut then made + f.out else made;
      more := true;
      assert shut ==> out + made == log + f.out;
    }

    /** Route and MakeResponse for a complete request, then perhaps Shutdown. */
    method Respond() returns (thrown: bool, shut: bool)
      requires input.Valid() && CtxOk(FRESH)
      modifies this`answered, context, input`reader
      ensures input.Valid() && input.Where() == old(input.Where()).(reader := input.reader)
      ensures var d, log := Serve(FRESH, old(input.Contents())), old(answered) + [Parsed(old(context.request))];
        if shut
        then
          answered == log + d.out && (thrown <==> d.end.Thrown?) &&
          (!thrown ==> CtxOk(context.Value()) && context.Value() == d.c && input.Contents() == d.rest)
        else !thrown && answered == log && context.Value() == FRESH && input.Contents() == old(input.Contents())
      decreases |input.Contents()|, 3
    {
      hide Serve, CtxOk;
      var req := context.request;
      answered := answered + [Parsed(req)];
      context.Reset();
      thrown, shut := false, !keepsOpen(req);
      if shut {
        thrown := Shutdown();
      }
    }

    /** ShutdownInLoop, as far as the input is concerned. */
    method Shutdown() returns (thrown: bool)
      requires input.Valid() && CtxOk(context.Value()) && context.Value() == FRESH
      modifies this`answered, context, input`reader
      ensures input.Valid() && input.Where() == old(input.Where()).(reader := input.reader)
      ensures var d := Serve(FRESH, old(input.Contents()));
        answered == old(answered) + d.out && (thrown <==> d.end.Thrown?) &&
        (!thrown ==> CtxOk(context.Value()) && context.Value() == d.c && input.Contents() == d.rest)
      decreases |input.Contents()|, 2
    {
      hide Serve, CtxOk;
      ServeNothing(FRESH);
      thrown := false;
      var n := input.ReadAbleSize();
      if n > 0 {
        thrown := OnMessage();
      }
    }

    /** Connection::HandleRead with bytes received.  Between reads at most 8192 bytes stay
        unread and the buffer stays within 147452, so every read fits. */
    method HandleRead(bytes: string) returns (thrown: bool)
      requires Valid() && 0 < |bytes| <= READ_SIZE
      modifies this`answered, context, input, input.data
      ensures input.data == old(input.data) || fresh(input.data)
      ensures !thrown ==> Valid()
      ensures var d := Serve(old(context.Value()), old(input.Contents()) + bytes);
        answered == old(answered) + d.out && (thrown <==> d.end.Thrown?) &&
        (!thrown ==> context.Value() == d.c && input.Contents() == d.rest)
    {
      hide Serve, CtxOk, Fits, Pushed;
      ReadFits(input.Where(), |bytes|);
      ServeEnds(context.Value(), input.Contents() + bytes);
      input.WriteAndPush(bytes);
      thrown := OnMessage();
    }

    /** A connection's whole input: how the stream was cut into reads does not show in the
        requests answered, up to and including the first refusal. */
    method HandleReads(pieces: seq<string>) returns (thrown: bool)
      requires Valid() && context.Value() == FRESH && input.Contents() == "" && answered == []
      requires forall piece :: piece in pieces ==> 0 < |piece| <= READ_SIZE
      modifies this`answered, context, input, input.data
      ensures !thrown ==> Valid()
      ensures var d := Serve(FRESH, Joined(pieces));
        match d.end
        case Waiting => !thrown && answered == d.out && context.Value() == d.c && input.Contents() == d.rest
        case Stopped => d.out <= answered
        case Thrown => thrown && answered == d.out
    {
      hide Serve, CtxOk;
      FragmentationIndependence(pieces);
      assert pieces[..|pieces|] == pieces;
      thrown := false;
      for i := 0 to |pieces|
        invariant Valid() && !thrown && (input.data == old(input.data) || fresh(input.data))
        invariant var d := ServeReads(pieces[..i]);
          match d.end
          case Waiting => answered == d.out && context.Value() == d.c && input.Contents() == d.rest
          case Stopped => d.out <= answered
          case Thrown => false
      {
        ReadOne(pieces, i);
        thrown := HandleRead(pieces[i]);
        if thrown {
          ReadsStopped(pieces, i + 1);
          return;
        }
      }
    }
  }

  lemma ReadOne(pieces: seq<string>, i: nat)
    requires i < |pieces|
    ensures var d := ServeReads(pieces[..i]);
      (d.end.Waiting? ==> CtxOk(d.c)) && ServeReads(pieces[..i + 1]) == Resume(d, pieces[i])
  {
    hide Serve, CtxOk;
    assert pieces[..i + 1][..i] == pieces[..i];
  }

  lemma {:induction false} ReadsStopped(pieces: seq<string>, i: nat)
    requires i <= |pieces| && !ServeReads(pieces[..i]).end.Waiting?
    ensures ServeReads(pieces[..|pieces|]) == ServeReads(pieces[..i])
    decreases |pieces| - i
  {
    hide ServeReads;
    if i < |pieces| {
      ReadOne(pieces, i);
      ReadsStopped(pieces, i + 1);
    }
  }
}
