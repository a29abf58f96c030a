/** The text of a request as HttpContext reads it: request line, query string, header
    lines and Content-Length. */
module RequestText {
  import opened HttpTypes
  import opened PercentCoding

  datatype HttpRequest = HttpRequest(meth: string, path: string, version: string, headers: map<string, string>,
                             params: map<string, string>, body: string)

  /** HttpRequest after Reset. */
  const EMPTY: HttpRequest := HttpRequest("", "", "HTTP/1.1", map[], map[], "")

  /** std::string::find */
  function IndexOf(s: string, sub: string): (r: Option<nat>)
    ensures r.Some? ==> r.value + |sub| <= |s|
  {
    if sub <= s then Some(0)
    else if s == "" then None
    else
      var r := IndexOf(s[1..], sub);
      if r.None? then None else Some(r.value + 1)
  }

  predicate OccursAt(s: string, sub: string, i: nat) { i <= |s| && sub <= s[i..] }

  /** It finds the first occurrence. */
  lemma {:induction false} IndexOfFirst(s: string, sub: string)
    ensures match IndexOf(s, sub)
            case Some(p) => OccursAt(s, sub, p) && forall i: nat :: i < p ==> !OccursAt(s, sub, i)
            case None => forall i: nat :: !OccursAt(s, sub, i)
  {
    if !(sub <= s) && s != "" {
      IndexOfFirst(s[1..], sub);
      forall i: nat | 0 < i <= |s| ensures OccursAt(s, sub, i) == OccursAt(s[1..], sub, i - 1) {
        assert s[i..] == s[1..][i - 1..];
      }
    }
  }

  lemma NotFound(s: string, c: char)
    requires c !in s
    ensures IndexOf(s, [c]).None?
  {
    hide IndexOf;
    IndexOfFirst(s, [c]);
    forall i: nat ensures !OccursAt(s, [c], i) {
      if i < |s| {
        assert s[i..][0] == s[i];
      }
    }
  }

  /** unordered_map::insert, which keeps an old value. */
  function Insert(m: map<string, string>, k: string, v: string): map<string, string> {
    if k in m then m else m[k := v]
  }

  // ----- Util::Split

  /** The non-empty stretches between separators, from a place on. */
  function Pieces(s: string, sep: string, from: nat): (r: seq<string>)
    requires sep != "" && from <= |s|
    decreases |s| - from
  {
    if from == |s| then [] else
    match IndexOf(s[from..], sep)
    case None => [s[from..]]
    case Some(p) => (if p == 0 then [] else [s[from..from + p]]) + Pieces(s, sep, from + p + |sep|)
  }

  /** A string without a separator yields nothing at all. */
  function SplitOf(s: string, sep: string): seq<string>
    requires sep != ""
  {
    if IndexOf(s, sep).None? then [] else Pieces(s, sep, 0)
  }

  /** Util::Split.  Its early exit compares a place in the text with a number of pieces;
      the two are equal only before anything was found. */
  method Split(src: string, sep: string) returns (arry: seq<string>)
    requires sep != ""
    ensures arry == SplitOf(src, sep)
  {
    hide IndexOf, Pieces;
    arry := [];
    var offset := 0;
    assert src[0..] == src;
    NotInEmpty(src, sep);
    while offset < |src|
      invariant offset <= |src|
      invariant offset == 0 ==> arry == []
      invariant offset > 0 ==> offset > |arry| && IndexOf(src, sep).Some?
      invariant arry + Pieces(src, sep, offset) == Pieces(src, sep, 0)
    {
      var pos := IndexOf(src[offset..], sep);
      PiecesStep(arry, src, sep, offset);
      if pos.None? {
        if offset == |arry| {
          return;
        }
        arry := arry + [src[offset..]];
        return;
      }
      if pos.value == 0 {
        offset := offset + |sep|;
        continue;
      }
      arry := arry + [src[offset..offset + pos.value]];
      offset := offset + pos.value + |sep|;
    }
  }

  lemma NotInEmpty(s: string, sep: string)
    requires sep != ""
    ensures IndexOf("", sep).None? && Pieces(s, sep, |s|) == []
  {
  }

  lemma PiecesStep(pre: seq<string>, s: string, sep: string, from: nat)
    requires sep != "" && from < |s|
    ensures var r := IndexOf(s[from..], sep);
      match r
      case None => pre + Pieces(s, sep, from) == pre + [s[from..]]
      case Some(p) =>
        pre + Pieces(s, sep, from) == (if p == 0 then pre else pre + [s[from..from + p]]) + Pieces(s, sep, from + p + |sep|)
  {
    hide IndexOf;
  }

  // ----- The request line

  function ToUpper(c: char): char {
    if 'a' <= c <= 'z' then ((c as int) - 32) as char else c
  }

  function Upper(s: string): (r: string)
    ensures |r| == |s| && forall i :: 0 <= i < |s| ==> r[i] == ToUpper(s[i])
  {
    seq(|s|, i requires 0 <= i < |s| => ToUpper(s[i]))
  }

  const METHODS: seq<string> := ["GET", "HEAD", "POST", "PUT", "DELETE"]

  predicate StartsWith(s: string, m: string) { |m| < |s| && Upper(s[..|m|]) == m && s[|m|] == ' ' }

  /** The method at the front of a line, with any letter case. */
  function MethodOf(s: string): Option<string> {
    if StartsWith(s, "GET") then Some("GET") else if StartsWith(s, "HEAD") then Some("HEAD")
    else if StartsWith(s, "POST") then Some("POST") else if StartsWith(s, "PUT") then Some("PUT")
    else if StartsWith(s, "DELETE") then Some("DELETE") else None
  }

  /** A line without its CR LF or LF. */
  function Chopped(line: string): string {
    var n := |line|;
    if n >= 2 && line[n - 2..] == "\r\n" then line[..n - 2]
    else if n >= 1 && line[n - 1] == '\n' then line[..n - 1] else line
  }

  predicate IsVersion(v: string) {
    |v| == 8 && Upper(v[..7]) == "HTTP/1." && (v[7] == '0' || v[7] == '1')
  }

  datatype RequestLine = RequestLine(meth: string, path: string, query: string, version: string)

  /** The regular expression of ParseHttpLine: a method, a space, a path up to the first
      '?', perhaps a query on one line, a space and a version. */
  function MatchLine(line: string): Option<RequestLine> {
    var t := Chopped(line);
    var m := MethodOf(t);
    if m.None? || |t| < |m.value| + 10 || t[|t| - 9] != ' ' || !IsVersion(t[|t| - 8..]) then None else
    var target := t[|m.value| + 1..|t| - 9];
    var version := t[|t| - 8..];
    match IndexOf(target, "?")
    case None => Some(RequestLine(m.value, target, "", version))
    case Some(q) =>
      var query := target[q + 1..];
      if '\r' in query || '\n' in query then None else Some(RequestLine(m.value, target[..q], query, version))
  }

  /** The parameters of a split query; None for one without '='. */
  function AddParams(pieces: seq<string>, params: map<string, string>): Option<map<string, string>> {
    if pieces == [] then Some(params) else
    match IndexOf(pieces[0], "=")
    case None => None
    case Some(p) =>
      AddParams(pieces[1..], Insert(params, Decoded(pieces[0][..p], true), Decoded(pieces[0][p + 1..], true)))
  }

  /** ParseHttpLine on a reset request; None is status 400. */
  function ParseLine(line: string): Option<HttpRequest> {
    var l := MatchLine(line);
    if l.None? then None else
    var params := if l.value.query == "" then Some(map[]) else AddParams(SplitOf(l.value.query, "&"), map[]);
    if params.None? then None
    else Some(EMPTY.(meth := l.value.meth, path := Decoded(l.value.path, false), params := params.value,
                     version := l.value.version))
  }

  /** A query without '&' is never looked into: its parameter is lost, and a query that
      has no '=' is let pass. */
  lemma LoneQueryIgnored(line: string)
    requires MatchLine(line).Some? && '&' !in MatchLine(line).value.query
    ensures ParseLine(line).Some? && ParseLine(line).value.params == map[]
  {
    hide MatchLine, Decoded, IndexOf;
    NotFound(MatchLine(line).value.query, '&');
  }

  lemma Found(s: string, c: char)
    requires c in s
    ensures IndexOf(s, [c]).Some?
  {
    hide IndexOf;
    IndexOfFirst(s, [c]);
    var i :| 0 <= i < |s| && s[i] == c;
    assert OccursAt(s, [c], i);
  }

  lemma OnePiece(s: string, c: char)
    requires c !in s && s != ""
    ensures Pieces(s, [c], 0) == [s]
  {
    hide IndexOf;
    NotFound(s, c);
    assert s[0..] == s;
  }

  lemma OneParam(piece: string)
    ensures match IndexOf(piece, "=")
            case None => AddParams([piece], map[]).None?
            case Some(p) =>
              AddParams([piece], map[]) == Some(map[Decoded(piece[..p], true) := Decoded(piece[p + 1..], true)])
  {
    hide IndexOf, Decoded;
    assert [piece][1..] == [];
  }

  /** The parameters of a request line, and its refusal, are those of the pieces of its
      query exactly if the query is empty or has an '&'. */
  lemma QueryTaken(line: string, l: RequestLine)
    requires MatchLine(line) == Some(l)
    ensures (match AddParams(Pieces(l.query, "&", 0), map[])
             case None => ParseLine(line).None?
             case Some(params) => ParseLine(line).Some? && ParseLine(line).value.params == params) <==>
            l.query == "" || '&' in l.query
  {
    hide MatchLine, Decoded, IndexOf, Pieces;
    if l.query == "" {
      NotInEmpty("", "&");
    } else if '&' in l.query {
      Found(l.query, '&');
    } else {
      OnePiece(l.query, '&');
      OneParam(l.query);
      LoneQueryIgnored(line);
    }
  }

  // ----- Header lines

  /** A line without its LF and the CR before it. */
  function WithoutEnd(line: string): string {
    var a := if line != "" && line[|line| - 1] == '\n' then line[..|line| - 1] else line;
    if a != "" && a[|a| - 1] == '\r' then a[..|a| - 1] else a
  }

  /** ParseHttpHead; None is status 400. */
  function ParseHead(line: string): Option<(string, string)> {
    var t := WithoutEnd(line);
    match IndexOf(t, ": ")
    case None => None
    case Some(p) => Some((t[..p], t[p + 2..]))
  }

  // ----- Content-Length

  const LONG_MAX: nat := 0x7FFF_FFFF_FFFF_FFFF

  predicate IsSpace(c: char) { c == ' ' || 9 <= (c as int) <= 13 }

  function SkipSpace(s: string): string { if s != "" && IsSpace(s[0]) then SkipSpace(s[1..]) else s }

  function DigitRun(s: string): (r: string)
    ensures forall i :: 0 <= i < |r| ==> IsNum(r[i])
  {
    if s != "" && IsNum(s[0]) then [s[0]] + DigitRun(s[1..]) else ""
  }

  /** std::stol cast to size_t; None where it throws. */
  function Stol(s: string): Option<nat> {
    var t := SkipSpace(s);
    var negative := t != "" && t[0] == '-';
    var digits := DigitRun(if t != "" && (t[0] == '-' || t[0] == '+') then t[1..] else t);
    var n := Decimal(digits);
    if digits == "" || n > LONG_MAX + (if negative then 1 else 0) then None
    else Some(if negative then (U64 - n) % U64 else n)
  }

  /** HttpRequest::ContentLength */
  function ContentLength(req: HttpRequest): Option<nat> {
    if "Content-Length" in req.headers then Stol(req.headers["Content-Length"]) else Some(0)
  }
}
