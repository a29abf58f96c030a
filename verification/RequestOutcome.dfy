/** What HttpContext makes of any request, told from its lines: which requests are handed
    over, and which are refused with what status. */
module RequestOutcome {
  import opened HttpTypes
  import opened RequestText
  import opened RequestGrammar
  import opened BufferModel
  import opened HttpServing

  /** A whole line. */
  predicate IsLine(line: string) { line != "" && line[|line| - 1] == '\n' && '\n' !in line[..|line| - 1] }

  predicate IsBlank(line: string) { line == "\r\n" || line == "\n" }

  function Lines(lines: seq<string>): string { if lines == [] then "" else lines[0] + Lines(lines[1..]) }

  lemma FrontLine(line: string, rest: string)
    requires IsLine(line)
    ensures LineOf(line + rest) == line && (line + rest)[|line|..] == rest
  {
    hide LineOf;
    var k := |line| - 1;
    assert (line + rest)[..k] == line[..k];
    LineOfIs(line + rest, k);
    assert (line + rest)[..k + 1] == line;
  }

  /** A header line among those of a request: short, not blank, and parsed. */
  predicate IsHead(line: string) { IsLine(line) && |line| <= MAX_LINE && !IsBlank(line) && ParseHead(line).Some? }

  predicate AllHeads(heads: seq<string>) { forall i :: 0 <= i < |heads| ==> IsHead(heads[i]) }

  /** The headers after more lines. */
  function Collected(heads: seq<string>, headers: map<string, string>): map<string, string>
    requires AllHeads(heads)
    decreases |heads|
  {
    if heads == [] then headers
    else
      assert IsHead(heads[0]);
      var (k, v) := ParseHead(heads[0]).value;
      Collected(heads[1..], Insert(headers, k, v))
  }

  predicate HeadIs(line: string, k: string, v: string) { ParseHead(line) == Some((k, v)) }

  /** The first line with a name gives its value. */
  ghost predicate FirstHead(heads: seq<string>, k: string, v: string) {
    exists i :: 0 <= i < |heads| && HeadIs(heads[i], k, v) && forall j, w :: 0 <= j < i ==> !HeadIs(heads[j], k, w)
  }

  /** The headers collected: those there before, and the first of each other name. */
  lemma {:induction false} CollectedExact(heads: seq<string>, headers: map<string, string>, k: string)
    requires AllHeads(heads)
    ensures k in headers ==> k in Collected(heads, headers) && Collected(heads, headers)[k] == headers[k]
    ensures k !in headers && k in Collected(heads, headers) ==> FirstHead(heads, k, Collected(heads, headers)[k])
    ensures k !in headers && k !in Collected(heads, headers) ==> forall i, v :: 0 <= i < |heads| ==> !HeadIs(heads[i], k, v)
    decreases |heads|
  {
    hide ParseHead;
    if heads != [] {
      assert IsHead(heads[0]);
      var (n, v) := ParseHead(heads[0]).value;
      CollectedExact(heads[1..], Insert(headers, n, v), k);
      forall i | 0 < i < |heads| ensures heads[i] == heads[1..][i - 1] {}
      if k !in headers {
        if k == n {
          assert HeadIs(heads[0], k, v);
        } else if k in Collected(heads, headers) {
          LaterHead(heads, k, Collected(heads, headers)[k]);
        }
      }
    }
  }

  lemma LaterHead(heads: seq<string>, k: string, v: string)
    requires heads != [] && FirstHead(heads[1..], k, v) && forall w :: !HeadIs(heads[0], k, w)
    ensures FirstHead(heads, k, v)
  {
    hide HeadIs;
    var i :| 0 <= i < |heads| - 1 && HeadIs(heads[1..][i], k, v) &&
      forall j, w :: 0 <= j < i ==> !HeadIs(heads[1..][j], k, w);
    assert HeadIs(heads[i + 1], k, v);
    forall j, w | 0 <= j < i + 1 ensures !HeadIs(heads[j], k, w) {
      if j > 0 { assert !HeadIs(heads[1..][j - 1], k, w); }
    }
  }

  function InHeads(req: HttpRequest): Ctx { Ctx(RecvHead, 200, req) }

  lemma {:induction false} HeadsServed(req: HttpRequest, heads: seq<string>, more: string)
    requires req.body == "" && AllHeads(heads)
    ensures var d := req.(headers := Collected(heads, req.headers));
      CtxOk(InHeads(req)) && CtxOk(InHeads(d)) && Serve(InHeads(req), Lines(heads) + more) == Serve(InHeads(d), more)
    decreases |heads|
  {
    hide Serve, ParseHead, LineOf, Insert;
    if heads == [] {
      assert Lines(heads) + more == more;
    } else {
      assert IsHead(heads[0]);
      var rest := Lines(heads[1..]) + more;
      assert Lines(heads) + more == heads[0] + rest;
      FrontLine(heads[0], rest);
      LineServed(InHeads(req), heads[0] + rest);
      var (k, v) := ParseHead(heads[0]).value;
      HeadsServed(req.(headers := Insert(req.headers, k, v)), heads[1..], more);
    }
  }

  /** A short request line that parses, and header lines. */
  predicate Begun(line: string, heads: seq<string>) {
    IsLine(line) && |line| <= MAX_LINE && ParseLine(line).Some? && AllHeads(heads)
  }

  function Head(line: string, heads: seq<string>): HttpRequest
    requires Begun(line, heads)
  {
    var req := ParseLine(line).value;
    req.(headers := Collected(heads, req.headers))
  }

  lemma Joined(a: string, b: string, c: string)
    ensures a + b + c == a + (b + c)
  {
  }

  /** The run behind the request line and header lines. */
  lemma HeadServed(line: string, heads: seq<string>, more: string)
    requires Begun(line, heads)
    ensures Head(line, heads).body == "" && CtxOk(FRESH) && CtxOk(InHeads(Head(line, heads)))
    ensures Serve(FRESH, line + Lines(heads) + more) == Serve(InHeads(Head(line, heads)), more)
  {
    hide Serve, ParseLine, LineOf, IsHead, Lines, Collected;
    FreshOk();
    ParsedOk(line);
    var rest := Lines(heads) + more;
    Joined(line, Lines(heads), more);
    FrontLine(line, rest);
    LineServed(FRESH, line + rest);
    HeadsServed(ParseLine(line).value, heads, more);
  }

  /** The blank line behind them begins the body. */
  lemma BlankServed(line: string, heads: seq<string>, blank: string, tail: string)
    requires Begun(line, heads) && IsBlank(blank)
    ensures CtxOk(FRESH)
    ensures Serve(FRESH, line + Lines(heads) + (blank + tail)) == Served(LineStep(InHeads(Head(line, heads)), blank, tail))
  {
    hide Serve, ParseLine, LineOf, Begun, Head, LineStep;
    FreshOk();
    HeadServed(line, heads, blank + tail);
    assert IsLine(blank);
    FrontLine(blank, tail);
    LineServed(InHeads(Head(line, heads)), blank + tail);
  }

  /** A request with a blank line and the body that Content-Length announces is handed over
      with exactly these parts, and the next one begins. */
  lemma RequestServed(line: string, heads: seq<string>, blank: string, body: string, more: string)
    requires Begun(line, heads) && IsBlank(blank) && ContentLength(Head(line, heads)) == Some(|body|)
    ensures CtxOk(FRESH)
    ensures Serve(FRESH, line + Lines(heads) + blank + body + more) ==
            After(Parsed(Head(line, heads).(body := body)), Serve(FRESH, more))
  {
    hide Serve, ParseLine, LineOf, BodyStep, ContentLength, Begun, Head;
    var req := Head(line, heads);
    assert line + Lines(heads) + blank + body + more == line + Lines(heads) + (blank + (body + more));
    BlankServed(line, heads, blank, body + more);
    HeadServed(line, heads, "");
    BodyTaken(InHeads(req).(recv := RecvBody), body, more);
  }

  lemma BodyTaken(c: Ctx, body: string, more: string)
    requires c.req.body == "" && ContentLength(c.req) == Some(|body|)
    ensures BodyStep(c, body + more) == Done(c.req.(body := body), more)
  {
    hide ContentLength;
    assert (body + more)[..|body|] == body && (body + more)[|body|..] == more;
    assert "" + body == body;
  }

  /** With less of the body the request waits for more. */
  lemma RequestWaits(line: string, heads: seq<string>, blank: string, part: string, n: nat)
    requires Begun(line, heads) && IsBlank(blank) && ContentLength(Head(line, heads)) == Some(n) && |part| < n
    ensures CtxOk(FRESH)
    ensures Serve(FRESH, line + Lines(heads) + blank + part) ==
            Drive(Ctx(RecvBody, 200, Head(line, heads).(body := part)), "", [], Waiting)
  {
    hide Serve, ParseLine, LineOf, ContentLength, Begun, Head;
    assert line + Lines(heads) + blank + part == line + Lines(heads) + (blank + part);
    BlankServed(line, heads, blank, part);
    HeadServed(line, heads, "");
    assert "" + part == part;
  }

  /** A Content-Length without a number, or beyond `long`, throws. */
  lemma RequestThrows(line: string, heads: seq<string>, blank: string, more: string)
    requires Begun(line, heads) && IsBlank(blank) && ContentLength(Head(line, heads)).None?
    ensures CtxOk(FRESH)
    ensures Serve(FRESH, line + Lines(heads) + blank + more) == Drive(FRESH, "", [], Thrown)
  {
    hide Serve, ParseLine, LineOf, ContentLength, Begun, Head;
    assert line + Lines(heads) + blank + more == line + Lines(heads) + (blank + more);
    BlankServed(line, heads, blank, more);
    HeadServed(line, heads, "");
  }

  /** Status 400 for a request line or header line that does not parse; 414 for one of more
      than 8192 bytes, or as many bytes without a line end. */
  predicate Refusal(text: string, parses: bool, status: nat) {
    var line := LineOf(text);
    if line == "" then status == 414 && |text| > MAX_LINE
    else if |line| > MAX_LINE then status == 414
    else status == 400 && !parses
  }

  /** Where a request line is wanted, exactly those are refused. */
  lemma LineRefused(text: string, status: nat)
    requires text != ""
    ensures CtxOk(FRESH)
    ensures StepOf(FRESH, text) == Refuse(status) <==> Refusal(text, ParseLine(LineOf(text)).Some?, status)
  {
    hide ParseLine, LineOf;
    FreshOk();
  }

  /** And behind a request line and header lines, where another header line is wanted. */
  lemma HeadRefused(line: string, heads: seq<string>, text: string, status: nat)
    requires Begun(line, heads) && text != ""
    ensures CtxOk(FRESH)
    ensures Refusal(text, IsBlank(LineOf(text)) || ParseHead(LineOf(text)).Some?, status) ==>
      Serve(FRESH, line + Lines(heads) + text) == Drive(FRESH, "", [Refused(status)], Stopped)
  {
    hide Serve, ParseLine, ParseHead, LineOf, Begun, Head;
    HeadServed(line, heads, text);
    ServeOf(InHeads(Head(line, heads)), text);
  }
}
