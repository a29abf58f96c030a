/** wrk.format, which prints requests, against HttpContext, which parses them. */
module WrkFormat {
  import opened HttpTypes
  import opened PercentCoding
  import opened RequestText
  import opened BufferModel
  import opened HttpServing

  datatype Pair = Pair(name: string, value: string)

  predicate Distinct(fields: seq<Pair>) {
    forall i, j :: 0 <= i < j < |fields| ==> fields[i].name != fields[j].name
  }

  /** The table that a traversal in some order enumerates. */
  function TableOf(fields: seq<Pair>): map<string, string> {
    if fields == [] then map[]
    else TableOf(fields[..|fields| - 1])[fields[|fields| - 1].name := fields[|fields| - 1].value]
  }

  /** Lua's tostring of a whole number below 10^14. */
  function Digits(n: nat): string {
    if n < 10 then [(n + 48) as char] else Digits(n / 10) + [(n % 10 + 48) as char]
  }

  const MAX_PRINTED: nat := 100_000_000_000_000

  function RequestStart(meth: string, path: string): string { meth + " " + path + " HTTP/1.1\r\n" }

  function HeaderLine(h: Pair): string { h.name + ": " + h.value + "\r\n" }

  function HeaderLines(fields: seq<Pair>): string {
    if fields == [] then "" else HeaderLine(fields[0]) + HeaderLines(fields[1..])
  }

  function Printed(meth: string, path: string, fields: seq<Pair>, body: string): string {
    RequestStart(meth, path) + HeaderLines(fields) + "\r\n" + body
  }

  /** The headers table as format leaves it. */
  function Completed(table: map<string, string>, defaults: map<string, string>, body: Option<string>): map<string, string> {
    var t := if "Host" !in table && "Host" in defaults then table["Host" := defaults["Host"]] else table;
    if body.Some? then t["Content-Length" := Digits(|body.value|)] else t - {"Content-Length"}
  }

  /** The completed table: Content-Length is the length of the body, or absent without one;
      Host is the caller's, or else the default's; the other headers are the caller's. */
  lemma CompletedExact(table: map<string, string>, defaults: map<string, string>, body: Option<string>, k: string)
    ensures var all := Completed(table, defaults, body);
      if k == "Content-Length" then
        if body.Some? then k in all && all[k] == Digits(|body.value|) else k !in all
      else if k in table then k in all && all[k] == table[k]
      else if k == "Host" && k in defaults then k in all && all[k] == defaults[k]
      else k !in all
  {
    hide Digits;
  }

  /** table.concat(s, sep) */
  function Concat(s: seq<string>, sep: string): string {
    if s == [] then "" else if |s| == 1 then s[0] else Concat(s[..|s| - 1], sep) + sep + s[|s| - 1]
  }

  class Wrk {
    var meth: string
    var path: string
    var headers: map<string, string>
    var body: Option<string>

    constructor ()
      ensures meth == "GET" && path == "/" && headers == map[] && body == None
    {
      meth, path, headers, body := "GET", "/", map[], None;
    }

    /** wrk.format.  `pairs` enumerates a table in no specified order, which `fields`
        records; `table` is the headers table afterwards. */
    method Format(meth: Option<string>, path: Option<string>, headers: Option<map<string, string>>,
                  body: Option<string>)
      returns (text: string, table: map<string, string>, ghost fields: seq<Pair>)
      requires var b := if body.Some? then body else this.body; b.Some? ==> |b.value| < MAX_PRINTED
      modifies this`headers
      ensures var b := if body.Some? then body else this.body;
        table == Completed(if headers.Some? then headers.value else old(this.headers), old(this.headers), b) &&
        Distinct(fields) && TableOf(fields) == table &&
        text == Printed(if meth.Some? then meth.value else this.meth, if path.Some? then path.value else this.path,
                        fields, if b.Some? then b.value else "")
      ensures this.headers == if headers.Some? then old(this.headers) else table
    {
      hide Shown, Concat, TableOf, Distinct, Digits;
      var m := if meth.Some? then meth.value else this.meth;
      var p := if path.Some? then path.value else this.path;
      var b := if body.Some? then body else this.body;
      table := if headers.Some? then headers.value else this.headers;
      if "Host" !in table && "Host" in this.headers {
        table := table["Host" := this.headers["Host"]];
      }
      table := if b.Some? then table["Content-Length" := Digits(|b.value|)] else table - {"Content-Length"};
      if headers.None? {
        this.headers := table;
      }
      var s;
      s, fields := Lines(table, m + " " + p + " HTTP/1.1");
      var tail := if b.Some? then b.value else "";
      Closed(s, m, p, fields, tail);
      s := s + ["", tail];
      text := Concat(s, "\r\n");
    }
  }

  /** The strings in s, joined and ended by CR LF, are the first line and the header lines. */
  ghost predicate Shown(s: seq<string>, first: string, fields: seq<Pair>) {
    s != [] && Concat(s, "\r\n") + "\r\n" == first + "\r\n" + HeaderLines(fields)
  }

  /** The loop of wrk.format. */
  method Lines(table: map<string, string>, first: string) returns (s: seq<string>, ghost fields: seq<Pair>)
    ensures Distinct(fields) && TableOf(fields) == table && Shown(s, first, fields)
  {
    hide Shown, TableOf, Distinct;
    NothingYet(first);
    s, fields := [first], [];
    var left := table;
    assert table - left.Keys == map[];
    while left != map[]
      invariant Distinct(fields) && forall h :: h in fields ==> h.name !in left
      invariant left.Keys <= table.Keys && TableOf(fields) == table - left.Keys
      invariant forall k :: k in left ==> left[k] == table[k]
      invariant Shown(s, first, fields)
      decreases |left|
    {
      var name :| name in left;
      ghost var h := Pair(name, left[name]);
      FieldAdded(fields, h);
      LineAdded(s, first, fields, h);
      TakenOut(table, left, name);
      s := s + [name + ": " + left[name]];
      fields := fields + [h];
      left := left - {name};
    }
    assert table - left.Keys == table;
  }

  lemma LineAdded(s: seq<string>, first: string, fields: seq<Pair>, h: Pair)
    requires Shown(s, first, fields)
    ensures Shown(s + [h.name + ": " + h.value], first, fields + [h])
  {
    hide Concat, HeaderLines;
    var x := h.name + ": " + h.value;
    ConcatAdded(s, x);
    HeaderLinesAdded(fields, h);
    var a, b := first + "\r\n", HeaderLines(fields);
    assert a + b + x + "\r\n" == a + (b + (x + "\r\n"));
    assert x + "\r\n" == HeaderLine(h);
  }

  lemma Closed(s: seq<string>, m: string, p: string, fields: seq<Pair>, tail: string)
    requires Shown(s, m + " " + p + " HTTP/1.1", fields)
    ensures Concat(s + ["", tail], "\r\n") == Printed(m, p, fields, tail)
  {
    hide Concat, HeaderLines;
    ConcatAdded(s, "");
    ConcatAdded(s + [""], tail);
    assert s + [""] + [tail] == s + ["", tail];
    assert m + " " + p + " HTTP/1.1" + "\r\n" == RequestStart(m, p);
    assert Concat(s, "\r\n") + "\r\n" + "" == Concat(s, "\r\n") + "\r\n";
  }

  lemma NothingYet(first: string)
    ensures Shown([first], first, []) && TableOf([]) == map[] && Distinct([])
  {
  }

  lemma TakenOut(table: map<string, string>, left: map<string, string>, name: string)
    requires name in left && left.Keys <= table.Keys && left[name] == table[name]
    ensures var rest := left - {name};
      |rest| < |left| && table - rest.Keys == (table - left.Keys)[name := left[name]]
  {
    var rest := left - {name};
    assert left.Keys == rest.Keys + {name};
    assert |left.Keys| == |rest.Keys| + 1;
  }

  lemma ConcatAdded(s: seq<string>, x: string)
    requires s != []
    ensures Concat(s + [x], "\r\n") == Concat(s, "\r\n") + "\r\n" + x
  {
    assert (s + [x])[..|s|] == s;
  }

  lemma FieldAdded(fields: seq<Pair>, h: Pair)
    ensures TableOf(fields + [h]) == TableOf(fields)[h.name := h.value]
    ensures Distinct(fields) && (forall g :: g in fields ==> g.name != h.name) ==> Distinct(fields + [h])
  {
    assert (fields + [h])[..|fields|] == fields;
  }

  lemma {:induction false} HeaderLinesAdded(fields: seq<Pair>, h: Pair)
    ensures HeaderLines(fields + [h]) == HeaderLines(fields) + HeaderLine(h)
  {
    if fields == [] {
      assert fields + [h] == [h];
    } else {
      HeaderLinesAdded(fields[1..], h);
      assert (fields + [h])[1..] == fields[1..] + [h];
    }
  }

  // ----- What the parser needs of a printed request

  predicate LineOk(line: string) { 0 < |line| <= MAX_LINE && '\n' !in line[..|line| - 1] }

  /** A request that survives: one of the parser's methods, no '?' in the path, no ": " in
      a header name, no LF inside a line, and lines of at most 8192 bytes. */
  predicate Survives(meth: string, path: string, fields: seq<Pair>) {
    meth in METHODS && '?' !in path && LineOk(RequestStart(meth, path)) && Distinct(fields) &&
    forall h :: h in fields ==> IndexOf(h.name, ": ").None? && LineOk(HeaderLine(h))
  }

  /** Content-Length says how long the body is. */
  predicate Measured(fields: seq<Pair>, body: string) {
    ContentLength(EMPTY.(headers := TableOf(fields))) == Some(|body|)
  }

  function Result(meth: string, path: string, fields: seq<Pair>, body: string): HttpRequest {
    HttpRequest(meth, Decoded(path, false), "HTTP/1.1", TableOf(fields), map[], body)
  }

  lemma LineFirst(line: string, more: string)
    requires LineOk(line) && line[|line| - 1] == '\n'
    ensures LineOf(line + more) == line && (line + more)[|line|..] == more
  {
    assert (line + more)[..|line| - 1] == line[..|line| - 1];
    LineOfIs(line + more, |line| - 1);
    assert (line + more)[..|line|] == line;
  }

  // ----- Request line

  lemma MethodFound(m: string, s: string)
    requires m in METHODS && m + " " <= s
    ensures MethodOf(s) == Some(m)
  {
    assert s[..|m|] == m && s[|m|] == ' ';
    UpperUpper(m);
    FirstLetters(m, s);
  }

  lemma UpperUpper(m: string)
    requires m in METHODS
    ensures Upper(m) == m && 3 <= |m| <= 6
  {
  }

  lemma FirstLetters(m: string, s: string)
    requires m in METHODS && s != "" && |m| > 1 && m[..2] <= s
    ensures forall n :: n in METHODS && StartsWith(s, n) ==> n == m
  {
    assert s[0] == m[..2][0] && s[1] == m[..2][1];
    forall n | n in METHODS && StartsWith(s, n) ensures n == m {
      assert Upper(s[..|n|])[0] == ToUpper(s[0]) && Upper(s[..|n|])[1] == ToUpper(s[1]);
    }
  }

  lemma ChoppedCrLf(t: string)
    ensures Chopped(t + "\r\n") == t && WithoutEnd(t + "\r\n") == t
  {
    var line := t + "\r\n";
    assert line[|line| - 2..] == "\r\n" && line[..|line| - 2] == t;
    assert line[..|line| - 1] == t + "\r" && (t + "\r")[..|t|] == t;
  }

  lemma RequestLineMatched(m: string, p: string)
    requires m in METHODS && '?' !in p
    ensures MatchLine(RequestStart(m, p)) == Some(RequestLine(m, p, "", "HTTP/1.1"))
  {
    hide MethodOf, Chopped, IndexOf, IsVersion;
    var t := m + " " + p + " HTTP/1.1";
    assert RequestStart(m, p) == t + "\r\n";
    ChoppedCrLf(t);
    MethodFound(m, t);
    RequestParts(m, p, t);
    VersionOk();
    NotFound(p, '?');
  }

  lemma RequestParts(m: string, p: string, t: string)
    requires t == m + " " + p + " HTTP/1.1"
    ensures |t| == |m| + |p| + 10 && t[|t| - 9] == ' ' && t[|t| - 8..] == "HTTP/1.1" && t[|m| + 1..|t| - 9] == p
  {
    assert t == (m + " ") + (p + " HTTP/1.1");
    assert t[|m| + 1..] == p + " HTTP/1.1";
  }

  lemma VersionOk()
    ensures IsVersion("HTTP/1.1")
  {
    assert "HTTP/1.1"[..7] == "HTTP/1.";
  }

  lemma RequestLineParsed(m: string, p: string)
    requires m in METHODS && '?' !in p
    ensures ParseLine(RequestStart(m, p)) == Some(HttpRequest(m, Decoded(p, false), "HTTP/1.1", map[], map[], ""))
  {
    hide MatchLine, Decoded;
    RequestLineMatched(m, p);
  }

  // ----- Header lines

  lemma NameFound(name: string, value: string)
    requires IndexOf(name, ": ").None?
    ensures IndexOf(name + ": " + value, ": ") == Some(|name|)
  {
    var t := name + ": " + value;
    IndexOfFirst(name, ": ");
    IndexOfFirst(t, ": ");
    assert t[|name|..] == ": " + value;
    assert OccursAt(t, ": ", |name|);
    forall i: nat | i < |name| ensures !OccursAt(t, ": ", i) {
      if i + 1 < |name| {
        assert !OccursAt(name, ": ", i);
        assert name[i..][0] == t[i..][0] && name[i..][1] == t[i..][1];
      } else {
        assert t[i..][1] == ':';
      }
    }
  }

  lemma HeaderParsed(h: Pair)
    requires IndexOf(h.name, ": ").None?
    ensures ParseHead(HeaderLine(h)) == Some((h.name, h.value))
  {
    hide IndexOf, WithoutEnd;
    var t := h.name + ": " + h.value;
    assert HeaderLine(h) == t + "\r\n";
    ChoppedCrLf(t);
    NameFound(h.name, h.value);
    assert t[..|h.name|] == h.name && t[|h.name| + 2..] == h.value;
  }

  function Inserted(headers: map<string, string>, fields: seq<Pair>): map<string, string>
    decreases |fields|
  {
    if fields == [] then headers else Inserted(Insert(headers, fields[0].name, fields[0].value), fields[1..])
  }

  lemma {:induction false} InsertedLast(headers: map<string, string>, fields: seq<Pair>, h: Pair)
    ensures Inserted(headers, fields + [h]) == Insert(Inserted(headers, fields), h.name, h.value)
    decreases |fields|
  {
    hide Insert;
    if fields == [] {
      assert fields + [h] == [h];
    } else {
      InsertedLast(Insert(headers, fields[0].name, fields[0].value), fields[1..], h);
      assert (fields + [h])[1..] == fields[1..] + [h];
    }
  }

  /** Inserting distinct names one by one builds the table. */
  lemma {:induction false} InsertedTable(fields: seq<Pair>)
    requires Distinct(fields)
    ensures Inserted(map[], fields) == TableOf(fields)
    ensures forall k :: k in TableOf(fields) ==> exists i :: 0 <= i < |fields| && fields[i].name == k
  {
    if fields != [] {
      var init, h := fields[..|fields| - 1], fields[|fields| - 1];
      InsertedTable(init);
      InsertedLast(map[], init, h);
      assert init + [h] == fields;
      assert h.name !in TableOf(init);
    }
  }

  lemma {:induction false} HeadersServed(req: HttpRequest, fields: seq<Pair>, more: string)
    requires req.body == "" && forall h :: h in fields ==> IndexOf(h.name, ": ").None? && LineOk(HeaderLine(h))
    ensures var c, d := Ctx(RecvHead, 200, req), Ctx(RecvHead, 200, req.(headers := Inserted(req.headers, fields)));
      CtxOk(c) && CtxOk(d) && Serve(c, HeaderLines(fields) + more) == Serve(d, more)
    decreases |fields|
  {
    hide Serve, IndexOf, ParseHead, HeaderLine, LineOf, Insert;
    if fields == [] {
      assert HeaderLines(fields) + more == more;
    } else {
      var h, rest := fields[0], HeaderLines(fields[1..]) + more;
      var c := Ctx(RecvHead, 200, req);
      assert HeaderLines(fields) + more == HeaderLine(h) + rest;
      HeaderEnds(h);
      LineFirst(HeaderLine(h), rest);
      HeaderParsed(h);
      LineServed(c, HeaderLine(h) + rest);
      HeadersServed(req.(headers := Insert(req.headers, h.name, h.value)), fields[1..], more);
    }
  }

  lemma HeaderEnds(h: Pair)
    ensures var line := HeaderLine(h); |line| > 2 && line[|line| - 1] == '\n'
  {
  }

  // ----- One request, and any number of them

  /** HttpContext reads a printed request back: method, decoded path, header table and body. */
  lemma PrintedServed(m: string, p: string, fields: seq<Pair>, body: string, more: string)
    requires Survives(m, p, fields) && Measured(fields, body)
    ensures CtxOk(FRESH) &&
      Serve(FRESH, Printed(m, p, fields, body) + more) == After(Parsed(Result(m, p, fields, body)), Serve(FRESH, more))
  {
    hide Serve, IndexOf, ParseLine, LineOf, HeaderLine, RequestStart, Decoded, Stol, CtxOk;
    FreshOk();
    var rest := HeaderLines(fields) + ("\r\n" + body + more);
    assert Printed(m, p, fields, body) + more == RequestStart(m, p) + rest;
    StartEnds(m, p);
    LineFirst(RequestStart(m, p), rest);
    RequestLineParsed(m, p);
    LineServed(FRESH, RequestStart(m, p) + rest);
    var req := HttpRequest(m, Decoded(p, false), "HTTP/1.1", map[], map[], "");
    HeadersServed(req, fields, "\r\n" + body + more);
    InsertedTable(fields);
    EndServed(req.(headers := TableOf(fields)), body, more);
  }

  lemma StartEnds(m: string, p: string)
    ensures var line := RequestStart(m, p); |line| > 2 && line[|line| - 1] == '\n'
  {
  }

  /** The empty line and the body. */
  lemma EndServed(req: HttpRequest, body: string, more: string)
    requires req.body == "" && ContentLength(req) == Some(|body|)
    ensures var c := Ctx(RecvHead, 200, req);
      CtxOk(c) && CtxOk(FRESH) &&
      Serve(c, "\r\n" + body + more) == After(Parsed(req.(body := body)), Serve(FRESH, more))
  {
    hide Serve, Stol, BodyStep, LineOf;
    var c := Ctx(RecvHead, 200, req);
    var s := "\r\n" + body + more;
    FreshOk();
    assert s == "\r\n" + (body + more);
    LineFirst("\r\n", body + more);
    LineServed(c, s);
    BodyRead(c.(recv := RecvBody), body, more);
  }

  lemma BodyRead(c: Ctx, body: string, more: string)
    requires c.req.body == "" && ContentLength(c.req) == Some(|body|)
    ensures BodyStep(c, body + more) == Done(c.req.(body := body), more)
  {
    hide ContentLength;
    assert (body + more)[..|body|] == body && (body + more)[|body|..] == more;
    assert "" + body == body;
  }

  lemma {:induction false} DigitsValue(n: nat)
    ensures var s := Digits(n); s != "" && (forall i :: 0 <= i < |s| ==> IsNum(s[i])) && Decimal(s) == n
  {
    if n < 10 {
      assert Digits(n)[..0] == "";
    } else {
      DigitsValue(n / 10);
      assert Digits(n)[..|Digits(n)| - 1] == Digits(n / 10);
    }
  }

  lemma {:induction false} AllDigits(s: string)
    requires forall i :: 0 <= i < |s| ==> IsNum(s[i])
    ensures DigitRun(s) == s
  {
    if s != "" {
      AllDigits(s[1..]);
    }
  }

  /** What tostring prints, stol reads. */
  lemma StolDigits(n: nat)
    requires n < MAX_PRINTED
    ensures Stol(Digits(n)) == Some(n)
  {
    hide Digits, Decimal, DigitRun;
    var s := Digits(n);
    DigitsValue(n);
    AllDigits(s);
    assert !IsSpace(s[0]);
  }

  /** wrk.format sets Content-Length to the length of the body, or removes it. */
  lemma FormatMeasures(table: map<string, string>, defaults: map<string, string>, body: Option<string>,
                       fields: seq<Pair>)
    requires TableOf(fields) == Completed(table, defaults, body) && (body.Some? ==> |body.value| < MAX_PRINTED)
    ensures Measured(fields, if body.Some? then body.value else "")
  {
    hide TableOf, Stol, Digits;
    if body.Some? {
      StolDigits(|body.value|);
    }
  }

  datatype Printable = Printable(meth: string, path: string, fields: seq<Pair>, body: string)

  predicate Readable(r: Printable) { Survives(r.meth, r.path, r.fields) && Measured(r.fields, r.body) }

  function PrintAll(rs: seq<Printable>): string {
    if rs == [] then "" else Printed(rs[0].meth, rs[0].path, rs[0].fields, rs[0].body) + PrintAll(rs[1..])
  }

  function ResultOf(r: Printable): Outcome { Parsed(Result(r.meth, r.path, r.fields, r.body)) }

  lemma {:induction false} AllServed(rs: seq<Printable>)
    requires forall r :: r in rs ==> Readable(r)
    ensures CtxOk(FRESH) &&
      Serve(FRESH, PrintAll(rs)) == Drive(FRESH, "", seq(|rs|, i requires 0 <= i < |rs| => ResultOf(rs[i])), Waiting)
  {
    hide Serve, Survives, Measured, Printed, Result, CtxOk;
    FreshOk();
    if rs == [] {
      ServeNothing(FRESH);
    } else {
      AllServed(rs[1..]);
      assert Readable(rs[0]);
      PrintedServed(rs[0].meth, rs[0].path, rs[0].fields, rs[0].body, PrintAll(rs[1..]));
    }
  }

  /** However a stream of printed requests arrives, the same requests are parsed, one after
      another, and nothing is left over. */
  lemma PrintedRoundTrip(rs: seq<Printable>, pieces: seq<string>)
    requires (forall r :: r in rs ==> Readable(r)) && Joined(pieces) == PrintAll(rs)
    ensures ServeReads(pieces) == Drive(FRESH, "", seq(|rs|, i requires 0 <= i < |rs| => ResultOf(rs[i])), Waiting)
  {
    hide Serve, Readable, ResultOf, ServeReads;
    FragmentationIndependence(pieces);
    AllServed(rs);
  }

  /** A path without escapes comes back as it was. */
  lemma PlainPath(r: Printable)
    requires '%' !in r.path
    ensures ResultOf(r).req.path == r.path
  {
    hide TableOf, Decoded;
    DecodePlain(r.path);
  }
}
