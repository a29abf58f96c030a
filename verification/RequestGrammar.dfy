/** What the lines of a request mean, told from their text: request lines, query
    parameters, header lines and Content-Length. */
module RequestGrammar {
  import opened HttpTypes
  import opened PercentCoding
  import opened RequestText

  // ----- The stretches between separators

  /** A non-empty stretch of s between two '&' (or an end), with none inside. */
  predicate Stretch(s: string, i: nat, j: nat) {
    i < j <= |s| && '&' !in s[i..j] && (i == 0 || s[i - 1] == '&') && (j == |s| || s[j] == '&')
  }

  /** Some pieces, and the places where they start, are the stretches from a place on. */
  ghost predicate AreStretches(s: string, from: nat, pieces: seq<string>, starts: seq<nat>) {
    Found(s, from, pieces, starts) && Rising(starts) && AllFound(s, from, starts)
  }

  predicate Found(s: string, from: nat, pieces: seq<string>, starts: seq<nat>) {
    |pieces| == |starts| &&
    forall k :: 0 <= k < |starts| ==>
      from <= starts[k] && Stretch(s, starts[k], starts[k] + |pieces[k]|) &&
      pieces[k] == s[starts[k]..starts[k] + |pieces[k]|]
  }

  predicate Rising(starts: seq<nat>) { forall k, l :: 0 <= k < l < |starts| ==> starts[k] < starts[l] }

  ghost predicate AllFound(s: string, from: nat, starts: seq<nat>) {
    forall i: nat, j: nat :: from <= i && Stretch(s, i, j) ==> i in starts
  }

  lemma InSlice(s: string, a: int, b: int, i: int)
    ensures 0 <= a <= i < b <= |s| ==> s[i] in s[a..b]
  {
    if 0 <= a <= i < b <= |s| {
      assert s[a..b][i - a] == s[i];
    }
  }

  lemma FirstAmpersand(s: string, from: nat)
    requires from <= |s|
    ensures match IndexOf(s[from..], "&")
            case None => '&' !in s[from..]
            case Some(p) => from + p < |s| && s[from + p] == '&' && '&' !in s[from..from + p]
  {
    hide IndexOf;
    var t := s[from..];
    IndexOfFirst(t, "&");
    match IndexOf(t, "&")
    case None =>
      forall i | 0 <= i < |t| ensures t[i] != '&' { assert !OccursAt(t, "&", i); }
    case Some(p) =>
      assert t[p..][0] == '&';
      forall i | 0 <= i < p ensures t[i] != '&' { assert !OccursAt(t, "&", i); }
  }

  /** Split's pieces are exactly the stretches, in order. */
  lemma {:induction false} PiecesExact(s: string, from: nat) returns (starts: seq<nat>)
    requires from <= |s| && (from == 0 || s[from - 1] == '&')
    ensures AreStretches(s, from, Pieces(s, "&", from), starts)
    decreases |s| - from
  {
    hide IndexOf;
    FirstAmpersand(s, from);
    if from == |s| {
      starts := [];
    } else if IndexOf(s[from..], "&").None? {
      starts := [from];
      OnlyStretch(s, from, |s|);
    } else {
      var p := IndexOf(s[from..], "&").value;
      var rest := PiecesExact(s, from + p + 1);
      OnlyStretch(s, from, from + p);
      starts := (if p == 0 then [] else [from]) + rest;
      MoreStretches(s, from, p, Pieces(s, "&", from + p + 1), rest);
    }
  }

  /** Before the next separator there is one stretch, unless it is empty. */
  lemma OnlyStretch(s: string, from: nat, e: nat)
    requires from <= e <= |s| && '&' !in s[from..e] && (from == 0 || s[from - 1] == '&') && (e == |s| || s[e] == '&')
    ensures from < e ==> Stretch(s, from, e)
    ensures forall i: nat, j: nat :: from <= i <= e && Stretch(s, i, j) ==> i == from && j == e
  {
    forall i: nat, j: nat | from <= i <= e && Stretch(s, i, j) ensures i == from && j == e {
      InSlice(s, from, e, i - 1);
      InSlice(s, from, e, j);
      InSlice(s, i, j, e);
    }
  }

  lemma MoreStretches(s: string, from: nat, p: nat, pieces: seq<string>, starts: seq<nat>)
    requires from + p < |s| && '&' !in s[from..from + p] && s[from + p] == '&' && (from == 0 || s[from - 1] == '&')
    requires AreStretches(s, from + p + 1, pieces, starts)
    ensures AreStretches(s, from, (if p == 0 then [] else [s[from..from + p]]) + pieces,
                         (if p == 0 then [] else [from]) + starts)
  {
    OnlyStretch(s, from, from + p);
    hide Stretch, Found, Rising, AllFound;
    if p == 0 {
      assert [] + pieces == pieces && [] + starts == starts;
      Sooner(s, from, pieces, starts);
    } else {
      Prepended(s, from, from + p, pieces, starts);
    }
  }

  /** No stretch starts at the separator. */
  lemma Sooner(s: string, from: nat, pieces: seq<string>, starts: seq<nat>)
    requires AreStretches(s, from + 1, pieces, starts) && from < |s|
    requires forall i: nat, j: nat :: from <= i <= from && Stretch(s, i, j) ==> i == from && j == from
    ensures AreStretches(s, from, pieces, starts)
  {
    hide Rising;
    forall i: nat, j: nat | from <= i && Stretch(s, i, j) ensures i in starts {
      if i > from { assert i in starts; }
    }
  }

  lemma Prepended(s: string, from: nat, e: nat, pieces: seq<string>, starts: seq<nat>)
    requires AreStretches(s, e + 1, pieces, starts) && Stretch(s, from, e)
    requires forall i: nat, j: nat :: from <= i <= e && Stretch(s, i, j) ==> i == from && j == e
    ensures AreStretches(s, from, [s[from..e]] + pieces, [from] + starts)
  {
    hide Stretch;
    StretchIn(s, from, e);
    var ps, ss := [s[from..e]] + pieces, [from] + starts;
    assert Found(s, from, ps, ss) by { hide Rising, AllFound; FoundMore(s, from, e, pieces, starts); }
    assert Rising(ss) by { hide AllFound; RisingMore(s, from, e, pieces, starts); }
    assert AllFound(s, from, ss) by {
      hide Found, Rising;
      forall i: nat, j: nat | from <= i && Stretch(s, i, j) ensures i in ss {
        if i > e {
          assert i in starts;
        } else {
          assert ss[0] == i;
        }
      }
    }
  }

  lemma FoundMore(s: string, from: nat, e: nat, pieces: seq<string>, starts: seq<nat>)
    requires Found(s, e + 1, pieces, starts) && Stretch(s, from, e) && from < e <= |s|
    ensures Found(s, from, [s[from..e]] + pieces, [from] + starts)
  {
    var ps, ss := [s[from..e]] + pieces, [from] + starts;
    forall k | 0 <= k < |ss|
      ensures from <= ss[k] && Stretch(s, ss[k], ss[k] + |ps[k]|) && ps[k] == s[ss[k]..ss[k] + |ps[k]|]
    {
      if k > 0 {
        assert ps[k] == pieces[k - 1] && ss[k] == starts[k - 1];
      }
    }
  }

  lemma RisingMore(s: string, from: nat, e: nat, pieces: seq<string>, starts: seq<nat>)
    requires Rising(starts) && Found(s, e + 1, pieces, starts) && from < e
    ensures Rising([from] + starts)
  {
    hide Stretch;
  }

  lemma StretchIn(s: string, i: nat, j: nat)
    requires Stretch(s, i, j)
    ensures i < j <= |s|
  {
  }

  // ----- Parameters

  /** A piece "key=value", cut at its first '='. */
  ghost predicate KeyValue(piece: string, k: string, v: string) {
    exists e :: 0 <= e < |piece| && piece[e] == '=' && '=' !in piece[..e] &&
      k == Decoded(piece[..e], true) && v == Decoded(piece[e + 1..], true)
  }

  lemma CutPiece(piece: string)
    ensures match IndexOf(piece, "=")
            case None => '=' !in piece && forall k, v :: !KeyValue(piece, k, v)
            case Some(e) =>
              e < |piece| && '=' in piece &&
              forall k, v :: KeyValue(piece, k, v) <==> k == Decoded(piece[..e], true) && v == Decoded(piece[e + 1..], true)
  {
    hide IndexOf, Decoded;
    IndexOfFirst(piece, "=");
    match IndexOf(piece, "=")
    case None =>
      forall i | 0 <= i < |piece| ensures piece[i] != '=' { assert !OccursAt(piece, "=", i); }
    case Some(e) =>
      assert piece[e..][0] == '=';
      forall i | 0 <= i < e ensures piece[i] != '=' { assert !OccursAt(piece, "=", i); }
      OneCut(piece, e);
  }

  lemma OneCut(piece: string, e: nat)
    requires e < |piece| && piece[e] == '=' && forall i :: 0 <= i < e ==> piece[i] != '='
    ensures '=' !in piece[..e]
    ensures forall i :: 0 <= i < |piece| && piece[i] == '=' && '=' !in piece[..i] ==> i == e
  {
    forall i | 0 <= i < |piece| && piece[i] == '=' && '=' !in piece[..i] ensures i == e {
      InSlice(piece, 0, i, e);
    }
  }

  /** The first piece with a key gives its value. */
  ghost predicate FirstWith(pieces: seq<string>, k: string, v: string) {
    exists i :: 0 <= i < |pieces| && KeyValue(pieces[i], k, v) && NoneAhead(pieces, i, k)
  }

  ghost predicate NoneAhead(pieces: seq<string>, n: nat, k: string)
    requires n <= |pieces|
  {
    forall j, w :: 0 <= j < n ==> !KeyValue(pieces[j], k, w)
  }

  ghost predicate HasKey(pieces: seq<string>, k: string) { exists v :: FirstWith(pieces, k, v) }

  lemma {:induction false} ParamsRefused(pieces: seq<string>, params: map<string, string>)
    ensures AddParams(pieces, params).None? <==> exists i :: 0 <= i < |pieces| && '=' !in pieces[i]
  {
    hide IndexOf, Decoded;
    if pieces != [] {
      CutPiece(pieces[0]);
      if IndexOf(pieces[0], "=").Some? {
        var e := IndexOf(pieces[0], "=").value;
        ParamsRefused(pieces[1..], Insert(params, Decoded(pieces[0][..e], true), Decoded(pieces[0][e + 1..], true)));
        forall i | 0 < i < |pieces| ensures pieces[i] == pieces[1..][i - 1] {}
      }
    }
  }

  /** The parameters added by some pieces to others. */
  ghost predicate Adds(pieces: seq<string>, params: map<string, string>, all: map<string, string>) {
    (forall k :: k in all <==> k in params || HasKey(pieces, k)) &&
    (forall k :: k in params ==> k in all && all[k] == params[k]) &&
    forall k, v :: k !in params && FirstWith(pieces, k, v) ==> k in all && all[k] == v
  }

  lemma {:induction false} ParamsExact(pieces: seq<string>, params: map<string, string>)
    requires AddParams(pieces, params).Some?
    ensures Adds(pieces, params, AddParams(pieces, params).value)
  {
    hide IndexOf, Decoded, KeyValue, FirstWith, Adds;
    if pieces == [] {
      AddsNothing(params);
    } else {
      CutPiece(pieces[0]);
      var e := IndexOf(pieces[0], "=").value;
      var k, v := Decoded(pieces[0][..e], true), Decoded(pieces[0][e + 1..], true);
      ParamsExact(pieces[1..], Insert(params, k, v));
      FirstOrLater(pieces, k, v);
      AddsOne(pieces, params, k, v, AddParams(pieces, params).value);
    }
  }

  lemma AddsNothing(params: map<string, string>)
    ensures Adds([], params, params)
  {
  }

  lemma AddsOne(pieces: seq<string>, params: map<string, string>, k: string, v: string, all: map<string, string>)
    requires pieces != [] && Adds(pieces[1..], Insert(params, k, v), all)
    requires forall l, w :: FirstWith(pieces, l, w) <==> if l == k then w == v else FirstWith(pieces[1..], l, w)
    ensures Adds(pieces, params, all)
  {
    hide FirstWith, HasKey;
    KeysWith(pieces, k, v);
  }

  lemma KeysWith(pieces: seq<string>, k: string, v: string)
    requires pieces != []
    requires forall l, w :: FirstWith(pieces, l, w) <==> if l == k then w == v else FirstWith(pieces[1..], l, w)
    ensures forall l :: HasKey(pieces, l) <==> l == k || HasKey(pieces[1..], l)
  {
    hide FirstWith;
    assert FirstWith(pieces, k, v);
  }

  lemma FirstOrLater(pieces: seq<string>, k: string, v: string)
    requires pieces != [] && forall l, w :: KeyValue(pieces[0], l, w) <==> l == k && w == v
    ensures forall l, w :: FirstWith(pieces, l, w) <==> if l == k then w == v else FirstWith(pieces[1..], l, w)
  {
    hide KeyValue, NoneAhead, FirstWith;
    forall l, w ensures FirstWith(pieces, l, w) <==> if l == k then w == v else FirstWith(pieces[1..], l, w) {
      if l == k { IsFirst(pieces, k, v, w); } else { IsLater(pieces, l, w); }
    }
  }

  lemma IsFirst(pieces: seq<string>, k: string, v: string, w: string)
    requires pieces != [] && forall l, x :: KeyValue(pieces[0], l, x) <==> l == k && x == v
    ensures FirstWith(pieces, k, w) <==> w == v
  {
    hide KeyValue;
    assert KeyValue(pieces[0], k, v) && NoneAhead(pieces, 0, k);
  }

  lemma IsLater(pieces: seq<string>, l: string, w: string)
    requires pieces != [] && forall x :: !KeyValue(pieces[0], l, x)
    ensures FirstWith(pieces, l, w) <==> FirstWith(pieces[1..], l, w)
  {
    hide KeyValue, NoneAhead;
    var rest := pieces[1..];
    assert forall i :: 0 <= i < |rest| ==> rest[i] == pieces[i + 1];
    if i :| 0 <= i < |pieces| && KeyValue(pieces[i], l, w) && NoneAhead(pieces, i, l) {
      AheadShift(pieces, i - 1, l);
      assert KeyValue(rest[i - 1], l, w);
    }
    if i :| 0 <= i < |rest| && KeyValue(rest[i], l, w) && NoneAhead(rest, i, l) {
      AheadShift(pieces, i, l);
      assert KeyValue(pieces[i + 1], l, w);
    }
  }

  lemma AheadShift(pieces: seq<string>, i: nat, l: string)
    requires i < |pieces| && forall x :: !KeyValue(pieces[0], l, x)
    ensures NoneAhead(pieces, i + 1, l) <==> NoneAhead(pieces[1..], i, l)
  {
    hide KeyValue;
    var rest := pieces[1..];
    forall j, w | 0 <= j < i && NoneAhead(pieces, i + 1, l) ensures !KeyValue(rest[j], l, w) {
      assert rest[j] == pieces[j + 1];
    }
    forall j, w | 0 <= j < i + 1 && NoneAhead(rest, i, l) ensures !KeyValue(pieces[j], l, w) {
      if j > 0 { assert rest[j - 1] == pieces[j]; }
    }
  }

  /** The first stretch of a query with a key gives its value. */
  ghost predicate FirstGives(s: string, k: string, v: string) {
    exists i: nat, j: nat :: Gives(s, i, j, k, v) && NoneBefore(s, i, k)
  }

  ghost predicate Gives(s: string, i: nat, j: nat, k: string, v: string) {
    Stretch(s, i, j) && KeyValue(s[i..j], k, v)
  }

  ghost predicate NoneBefore(s: string, i: nat, k: string) { forall h: nat, j: nat, v :: h < i ==> !Gives(s, h, j, k, v) }

  lemma FirstSame(s: string, pieces: seq<string>, starts: seq<nat>, k: string, v: string)
    requires AreStretches(s, 0, pieces, starts)
    ensures FirstWith(pieces, k, v) <==> FirstGives(s, k, v)
  {
    hide KeyValue, Stretch;
    if FirstWith(pieces, k, v) {
      var i :| 0 <= i < |pieces| && KeyValue(pieces[i], k, v) && forall j, w :: 0 <= j < i ==> !KeyValue(pieces[j], k, w);
      assert Gives(s, starts[i], starts[i] + |pieces[i]|, k, v);
      forall h: nat, j: nat, w | h < starts[i] ensures !Gives(s, h, j, k, w) {
        if Gives(s, h, j, k, w) {
          var m := Place(s, pieces, starts, h, j);
          NotAfter(starts, m, i);
        }
      }
    }
    if FirstGives(s, k, v) {
      var h: nat, j: nat :| Gives(s, h, j, k, v) && NoneBefore(s, h, k);
      var m := Place(s, pieces, starts, h, j);
      forall i, w | 0 <= i < m ensures !KeyValue(pieces[i], k, w) {
        assert starts[i] < starts[m];
        assert Gives(s, starts[i], starts[i] + |pieces[i]|, k, w) <==> KeyValue(pieces[i], k, w);
      }
    }
  }

  lemma NotAfter(starts: seq<nat>, m: nat, i: nat)
    requires Rising(starts) && m < |starts| && i < |starts|
    ensures starts[m] < starts[i] ==> m < i
  {
    if i < m { assert starts[i] < starts[m]; }
  }

  /** Where a stretch is among the pieces. */
  lemma Place(s: string, pieces: seq<string>, starts: seq<nat>, i: nat, j: nat) returns (m: nat)
    requires AreStretches(s, 0, pieces, starts) && Stretch(s, i, j)
    ensures m < |pieces| && starts[m] == i && pieces[m] == s[i..j]
  {
    m :| m < |starts| && starts[m] == i;
    OneEnd(s, i, j, i + |pieces[m]|);
  }

  lemma OneEnd(s: string, i: nat, j: nat, k: nat)
    requires Stretch(s, i, j) && Stretch(s, i, k)
    ensures j == k
  {
    InSlice(s, i, j, k);
    InSlice(s, i, k, j);
  }

  lemma SplitPieces(query: string)
    requires query == "" || '&' in query
    ensures SplitOf(query, "&") == Pieces(query, "&", 0)
  {
    hide IndexOf;
    if query == "" {
      NotInEmpty("", "&");
    } else {
      RequestText.Found(query, '&');
    }
  }

  /** What a request line with an empty query, or one with an '&', parses to: it is refused
      exactly if some non-empty stretch between the '&' has no '='; otherwise the
      parameters are those of the stretches, the first of each key. */
  lemma QueryExact(line: string, l: RequestLine)
    requires MatchLine(line) == Some(l) && (l.query == "" || '&' in l.query)
    ensures ParseLine(line).None? <==> exists i: nat, j: nat :: Stretch(l.query, i, j) && '=' !in l.query[i..j]
    ensures ParseLine(line).Some? ==>
      var req := ParseLine(line).value;
      req.meth == l.meth && req.path == Decoded(l.path, false) && req.version == l.version &&
      req.headers == map[] && req.body == "" &&
      (forall k :: k in req.params <==> exists v :: FirstGives(l.query, k, v)) &&
      forall k, v :: FirstGives(l.query, k, v) ==> req.params[k] == v
  {
    hide MatchLine, Decoded, AddParams, SplitOf, FirstWith, FirstGives, AreStretches, Stretch;
    SplitPieces(l.query);
    var pieces := Pieces(l.query, "&", 0);
    var starts := PiecesExact(l.query, 0);
    NothingSplit(l.query);
    ParamsRefused(pieces, map[]);
    PieceWithout(l.query, pieces, starts);
    if ParseLine(line).Some? {
      ParamsExact(pieces, map[]);
      forall k, v ensures FirstWith(pieces, k, v) <==> FirstGives(l.query, k, v) {
        FirstSame(l.query, pieces, starts, k, v);
      }
      SameKeys(l.query, pieces);
    }
  }

  lemma NothingSplit(query: string)
    ensures query == "" ==> Pieces(query, "&", 0) == [] && AddParams([], map[]) == Some(map[])
  {
  }

  lemma SameKeys(s: string, pieces: seq<string>)
    requires forall k, v :: FirstWith(pieces, k, v) <==> FirstGives(s, k, v)
    ensures forall k :: HasKey(pieces, k) <==> exists v :: FirstGives(s, k, v)
  {
    hide FirstWith, FirstGives;
    forall k ensures HasKey(pieces, k) <==> exists v :: FirstGives(s, k, v) {
      if v :| FirstGives(s, k, v) { assert FirstWith(pieces, k, v); }
    }
  }

  lemma PieceWithout(s: string, pieces: seq<string>, starts: seq<nat>)
    requires AreStretches(s, 0, pieces, starts)
    ensures (exists i :: 0 <= i < |pieces| && '=' !in pieces[i]) <==>
            exists i: nat, j: nat :: Stretch(s, i, j) && '=' !in s[i..j]
  {
    if i :| 0 <= i < |pieces| && '=' !in pieces[i] {
      assert Stretch(s, starts[i], starts[i] + |pieces[i]|);
    }
    if i: nat, j: nat :| Stretch(s, i, j) && '=' !in s[i..j] {
      var m := Place(s, pieces, starts, i, j);
    }
  }

  // ----- Request lines

  /** A request line: a method in any letter case, a space, a path without '?', perhaps a
      query on one line, a space, and HTTP/1.0 or HTTP/1.1 in any letter case. */
  ghost predicate Spells(line: string, l: RequestLine) {
    exists m, target, end ::
      line == m + " " + target + " " + l.version + end && Upper(m) == l.meth && l.meth in METHODS &&
      IsVersion(l.version) && (end == "" || end == "\n" || end == "\r\n") && IsTarget(target, l.path, l.query)
  }

  predicate IsTarget(target: string, path: string, query: string) {
    '?' !in path && '\r' !in query && '\n' !in query &&
    ((target == path && query == "") || target == path + "?" + query)
  }

  lemma TargetCut(target: string)
    ensures match IndexOf(target, "?")
            case None => forall path, query :: IsTarget(target, path, query) <==> path == target && query == ""
            case Some(q) =>
              q < |target| &&
              forall path, query :: IsTarget(target, path, query) <==>
                path == target[..q] && query == target[q + 1..] && '\r' !in query && '\n' !in query
  {
    hide IndexOf;
    IndexOfFirst(target, "?");
    match IndexOf(target, "?")
    case None =>
      forall i | 0 <= i < |target| ensures target[i] != '?' { assert !OccursAt(target, "?", i); }
      forall path, query ensures IsTarget(target, path, query) <==> path == target && query == "" {
        AtJoin(target, path, query);
      }
    case Some(q) =>
      assert target[q..][0] == '?';
      assert target == target[..q] + "?" + target[q + 1..];
      forall i | 0 <= i < q ensures target[i] != '?' { assert !OccursAt(target, "?", i); }
      forall path, query | IsTarget(target, path, query) ensures path == target[..q] && query == target[q + 1..] {
        OnePlace(target, path, query, q);
      }
  }

  lemma OnePlace(target: string, path: string, query: string, q: nat)
    requires IsTarget(target, path, query) && q < |target| && target[q] == '?' && '?' !in target[..q]
    ensures path == target[..q] && query == target[q + 1..]
  {
    AtJoin(target, path, query);
    InSlice(target, 0, q, |path|);
    InSlice(path, 0, |path|, q);
    assert path[..|path|] == path;
    assert |path| == q;
  }

  lemma AtJoin(target: string, path: string, query: string)
    ensures target == path + "?" + query ==>
      |path| < |target| && target[|path|] == '?' && target[..|path|] == path && target[|path| + 1..] == query
  {
  }

  lemma ChopEnd(t: string, end: string)
    requires t != "" && t[|t| - 1] != '\r' && t[|t| - 1] != '\n' && (end == "" || end == "\n" || end == "\r\n")
    ensures Chopped(t + end) == t
  {
    var line := t + end;
    assert line[..|t|] == t;
  }

  lemma Chop(line: string) returns (end: string)
    ensures line == Chopped(line) + end && (end == "" || end == "\n" || end == "\r\n")
  {
    end := line[|Chopped(line)|..];
  }

  /** At most one of the methods stands at the front of a line. */
  lemma MethodFound(t: string, m: string)
    requires |m| < |t| && t[..|m|] == m && t[|m|] == ' ' && Upper(m) in METHODS
    ensures MethodOf(t) == Some(Upper(m))
  {
    var u := Upper(m);
    assert StartsWith(t, u);
    forall v | v in METHODS && StartsWith(t, v) ensures v == u {
      SameMethod(t, u, v);
    }
  }

  lemma SameMethod(t: string, u: string, v: string)
    requires u in METHODS && v in METHODS && StartsWith(t, u) && StartsWith(t, v)
    ensures u == v
  {
    assert Upper(t[..|u|])[0] == u[0] == ToUpper(t[0]) && Upper(t[..|v|])[0] == v[0] == ToUpper(t[0]);
    assert Upper(t[..|u|])[1] == u[1] == ToUpper(t[1]) && Upper(t[..|v|])[1] == v[1] == ToUpper(t[1]);
  }

  lemma MethodIs(t: string)
    requires MethodOf(t).Some?
    ensures var u := MethodOf(t).value; u in METHODS && StartsWith(t, u)
  {
    hide StartsWith;
  }

  /** A line is matched exactly if it is a request line, with these parts. */
  lemma LineExact(line: string, l: RequestLine)
    ensures MatchLine(line) == Some(l) <==> Spells(line, l)
  {
    if MatchLine(line) == Some(l) { MatchedSpells(line, l); }
    if Spells(line, l) { SpelledMatches(line, l); }
  }

  lemma MatchedSpells(line: string, l: RequestLine)
    requires MatchLine(line) == Some(l)
    ensures Spells(line, l)
  {
    hide IndexOf, Chopped, MethodOf, Upper, IsVersion, IsTarget;
    var t := Chopped(line);
    var end := Chop(line);
    MethodIs(t);
    var k := |l.meth|;
    var target := t[k + 1..|t| - 9];
    TargetCut(target);
    MatchedText(t, k);
    assert line == t[..k] + " " + target + " " + l.version + end;
  }

  lemma MatchedText(t: string, k: nat)
    requires k + 10 <= |t| && t[k] == ' ' && t[|t| - 9] == ' '
    ensures t == t[..k] + " " + t[k + 1..|t| - 9] + " " + t[|t| - 8..]
  {
    assert t[k..k + 1] == " " && t[|t| - 9..|t| - 8] == " ";
    assert t == t[..k] + t[k..k + 1] + t[k + 1..|t| - 9] + t[|t| - 9..|t| - 8] + t[|t| - 8..];
  }

  lemma SpelledMatches(line: string, l: RequestLine)
    requires Spells(line, l)
    ensures MatchLine(line) == Some(l)
  {
    hide IndexOf, Chopped, MethodOf, Upper, IsTarget;
    var m, target, end :| line == m + " " + target + " " + l.version + end && Upper(m) == l.meth && l.meth in METHODS &&
      IsVersion(l.version) && (end == "" || end == "\n" || end == "\r\n") && IsTarget(target, l.path, l.query);
    var t := m + " " + target + " " + l.version;
    ChopEnd(t, end);
    SpelledText(m, target, l.version);
    MethodFound(t, m);
    TargetCut(target);
  }

  lemma SpelledText(m: string, target: string, version: string)
    requires |version| == 8
    ensures var t := m + " " + target + " " + version;
      |t| == |m| + |target| + 10 && t[..|m|] == m && t[|m|] == ' ' && t[|t| - 9] == ' ' && t[|t| - 8..] == version &&
      t[|m| + 1..|t| - 9] == target
  {
    var t := m + " " + target + " " + version;
    assert t == (m + " " + target + " ") + version;
    assert t == m + (" " + target + " " + version);
  }

  // ----- Header lines

  /** The text of a header line in front of its end: LF, CR LF, a lone CR or nothing. */
  predicate Ends(t: string, end: string) {
    end == "\r\n" || end == "\r" ||
    (end == "\n" && (t == "" || t[|t| - 1] != '\r')) ||
    (end == "" && (t == "" || (t[|t| - 1] != '\r' && t[|t| - 1] != '\n')))
  }

  lemma EndExact(line: string, t: string, end: string)
    requires line == t + end && Ends(t, end)
    ensures WithoutEnd(line) == t
  {
    if end == "\r\n" {
      assert line[..|line| - 1] == t + "\r";
    } else if end == "\n" || end == "\r" {
      assert line[..|line| - 1] == t;
    } else {
      assert line == t;
    }
  }

  lemma EndOfLine(line: string) returns (end: string)
    ensures line == WithoutEnd(line) + end && Ends(WithoutEnd(line), end)
  {
    end := line[|WithoutEnd(line)|..];
  }

  /** A header line is taken exactly if its text has ": " in it, and is cut at the first. */
  lemma HeadExact(line: string, k: string, v: string)
    ensures ParseHead(line) == Some((k, v)) <==>
      (exists end :: line == k + ": " + v + end && Ends(k + ": " + v, end)) &&
      forall i: nat :: i < |k| ==> !OccursAt(k + ": " + v, ": ", i)
  {
    hide IndexOf, WithoutEnd, OccursAt;
    var t := WithoutEnd(line);
    var e := EndOfLine(line);
    IndexOfFirst(t, ": ");
    if ParseHead(line) == Some((k, v)) {
      OccursText(t, |k|);
      assert t == k + ": " + v;
    }
    if (exists end :: line == k + ": " + v + end && Ends(k + ": " + v, end)) &&
       forall i: nat :: i < |k| ==> !OccursAt(k + ": " + v, ": ", i) {
      var end :| line == k + ": " + v + end && Ends(k + ": " + v, end);
      EndExact(line, k + ": " + v, end);
      OccursHere(k, v);
      assert t[..|k|] == k && t[|k| + 2..] == v;
    }
  }

  lemma OccursText(t: string, p: nat)
    requires OccursAt(t, ": ", p)
    ensures p + 2 <= |t| && t == t[..p] + ": " + t[p + 2..]
  {
    assert t[p..][..2] == ": ";
  }

  lemma OccursHere(k: string, v: string)
    ensures OccursAt(k + ": " + v, ": ", |k|)
  {
    assert (k + ": " + v)[|k|..] == ": " + v;
  }

  // ----- Content-Length

  predicate AllSpaces(s: string) { forall i :: 0 <= i < |s| ==> IsSpace(s[i]) }
  predicate AllDigits(s: string) { forall i :: 0 <= i < |s| ==> IsNum(s[i]) }

  /** Spaces, perhaps a sign, digits, and what is not read. */
  predicate IsNumber(s: string, spaces: string, sign: string, digits: string, rest: string) {
    s == spaces + sign + digits + rest && AllSpaces(spaces) && (sign == "" || sign == "+" || sign == "-") &&
    AllDigits(digits) && digits != "" && (rest == "" || !IsNum(rest[0]))
  }

  lemma {:induction false} SkipsSpaces(spaces: string, t: string)
    requires AllSpaces(spaces) && (t == "" || !IsSpace(t[0]))
    ensures SkipSpace(spaces + t) == t
  {
    if spaces != "" {
      assert (spaces + t)[1..] == spaces[1..] + t;
      SkipsSpaces(spaces[1..], t);
    } else {
      assert spaces + t == t;
    }
  }

  lemma {:induction false} RunsDigits(digits: string, rest: string)
    requires AllDigits(digits) && (rest == "" || !IsNum(rest[0]))
    ensures DigitRun(digits + rest) == digits
  {
    if digits != "" {
      assert (digits + rest)[1..] == digits[1..] + rest;
      RunsDigits(digits[1..], rest);
    } else {
      assert digits + rest == rest;
    }
  }

  /** std::stol reads spaces, a sign and all digits; it throws if the value does not fit. */
  lemma StolExact(s: string, spaces: string, sign: string, digits: string, rest: string)
    requires IsNumber(s, spaces, sign, digits, rest)
    ensures var n := Decimal(digits);
      Stol(s) ==
      if sign == "-" then (if n <= LONG_MAX + 1 then Some((U64 - n) % U64) else None)
      else if n <= LONG_MAX then Some(n) else None
  {
    hide Decimal, DigitRun, SkipSpace;
    var t := sign + digits + rest;
    assert s == spaces + t;
    SkipsSpaces(spaces, t);
    RunsDigits(digits, rest);
    assert sign != "" ==> t[1..] == digits + rest;
    assert sign == "" ==> t == digits + rest;
  }

  lemma {:induction false} RunIsFront(s: string)
    ensures DigitRun(s) <= s && (|DigitRun(s)| < |s| ==> !IsNum(s[|DigitRun(s)|]))
  {
    if s != "" && IsNum(s[0]) {
      RunIsFront(s[1..]);
    }
  }

  lemma {:induction false} SkipIsBack(s: string) returns (spaces: string)
    ensures s == spaces + SkipSpace(s) && AllSpaces(spaces)
  {
    spaces := "";
    if s != "" && IsSpace(s[0]) {
      var more := SkipIsBack(s[1..]);
      spaces := [s[0]] + more;
    }
  }

  /** It throws for every text that has no digits there. */
  lemma StolNeedsDigits(s: string)
    requires Stol(s).Some?
    ensures exists spaces, sign, digits, rest :: IsNumber(s, spaces, sign, digits, rest)
  {
    hide Decimal, DigitRun, SkipSpace;
    var spaces := SkipIsBack(s);
    var t := SkipSpace(s);
    var sign := if t != "" && (t[0] == '-' || t[0] == '+') then t[..1] else "";
    var u := t[|sign|..];
    RunIsFront(u);
    var digits := DigitRun(u);
    assert t == sign + u && u == digits + u[|digits|..];
    assert s == spaces + sign + digits + u[|digits|..];
    assert IsNumber(s, spaces, sign, digits, u[|digits|..]);
  }
}
