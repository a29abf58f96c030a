/** http_parser_parse_url: a URL is split into slices of its own text. */
module HttpUrl {
  import opened HttpTypes

  /** enum http_parser_url_fields, in the order in which the parts stand in a URL. */
  datatype Part = Schema | UserInfo | Host | Port | Path | Query | Fragment

  datatype Slice = Slice(off: nat, len: nat)
  type Parts = map<Part, Slice>

  function Rank(p: Part): nat {
    match p
    case Schema => 0 case UserInfo => 1 case Host => 2 case Port => 3 case Path => 4 case Query => 5 case Fragment => 6
  }

  function EndOf(s: Slice): nat { s.off + s.len }

  function Text(buf: string, s: Slice): string
    requires EndOf(s) <= |buf|
  {
    buf[s.off..EndOf(s)]
  }

  // ----- First pass: parse_url_char decides which part a byte belongs to

  /** `uf`; None for the states that skip a delimiter. */
  function PartOf(s: TargetState): Option<Part> {
    match s
    case ReqSchema => Some(Schema)
    case ReqServer | ReqServerWithAt => Some(Host)
    case ReqPath => Some(Path)
    case ReqQueryString => Some(Query)
    case ReqFragment => Some(Fragment)
    case _ => None
  }

  /** The state, `old_uf`, `found_at` and the fields after some bytes. */
  datatype Pass = Pass(s: TargetState, last: Option<Part>, at: bool, parts: Parts)

  function Longer(parts: Parts, k: Part): Parts
    requires k in parts
  {
    parts[k := parts[k].(len := parts[k].len + 1)]
  }

  predicate PassOk(x: Pass) { x.last.Some? ==> x.last.value in x.parts }

  function UrlByte(x: Pass, ch: char, i: nat): (r: Option<Pass>)
    requires PassOk(x)
    ensures r.Some? ==> PassOk(r.value)
  {
    var t := ParseUrlChar(x.s, ch);
    if t.None? then None else
    var k := PartOf(t.value);
    if k.None? then Some(x.(s := t.value)) else
      Some(Pass(t.value, k, x.at || t.value.ReqServerWithAt?,
                if k == x.last then Longer(x.parts, k.value) else x.parts[k.value := Slice(i, 1)]))
  }

  function FirstPass(connect: bool): Pass {
    Pass(if connect then ReqServerStart else ReqSpacesBeforeUrl, None, false, map[])
  }

  function Scan(buf: string, connect: bool, n: nat): (r: Option<Pass>)
    requires n <= |buf|
    ensures r.Some? ==> PassOk(r.value)
  {
    if n == 0 then Some(FirstPass(connect)) else
    match Scan(buf, connect, n - 1)
    case None => None
    case Some(x) => UrlByte(x, buf[n - 1], n - 1)
  }

  // ----- Second pass: http_parse_host splits userinfo, host and port

  datatype HostState =
    | UserinfoStart | Userinfo | HostStart | V6Start | InHost | V6 | V6End | V6ZoneStart | V6Zone | PortStart | InPort

  /** http_parse_host_char; None is s_http_host_dead. */
  function HostChar(s: HostState, ch: char): Option<HostState> {
    match s
    case UserinfoStart | Userinfo =>
      if ch == '@' then Some(HostStart) else if IsUserinfoChar(ch) then Some(Userinfo) else None
    case HostStart => if ch == '[' then Some(V6Start) else if IsHostChar(ch) then Some(InHost) else None
    case InHost => if IsHostChar(ch) then Some(InHost) else if ch == ':' then Some(PortStart) else None
    case V6End => if ch == ':' then Some(PortStart) else None
    case V6 => if ch == ']' then Some(V6End) else if IsV6Char(ch) then Some(V6)
               else if ch == '%' then Some(V6ZoneStart) else None
    case V6Start => if IsV6Char(ch) then Some(V6) else None
    case V6Zone => if ch == ']' then Some(V6End) else if IsZoneChar(ch) then Some(V6Zone) else None
    case V6ZoneStart => if IsZoneChar(ch) then Some(V6Zone) else None
    case InPort | PortStart => if IsNum(ch) then Some(InPort) else None
  }

  predicate IsV6Char(ch: char) { IsNum(ch) || IsHexLetter(ch) || ch == ':' || ch == '.' }
  predicate IsZoneChar(ch: char) { IsAlphaNum(ch) || ch == '%' || ch == '.' || ch == '-' || ch == '_' || ch == '~' }

  datatype HostPass = HostPass(s: HostState, parts: Parts)

  predicate HostPassOk(x: HostPass) {
    Host in x.parts && (x.s.Userinfo? ==> UserInfo in x.parts) && (x.s.InPort? ==> Port in x.parts)
  }

  function HostByte(x: HostPass, ch: char, i: nat): (r: Option<HostPass>)
    requires HostPassOk(x)
    ensures r.Some? ==> HostPassOk(r.value)
  {
    var t := HostChar(x.s, ch);
    if t.None? then None else
    Some(HostPass(t.value,
      match t.value
      case InHost | V6 => if t.value == x.s then Longer(x.parts, Host) else x.parts[Host := Slice(i, x.parts[Host].len + 1)]
      case V6ZoneStart | V6Zone => Longer(x.parts, Host)
      case InPort => if x.s.InPort? then Longer(x.parts, Port) else x.parts[Port := Slice(i, 1)]
      case Userinfo => if x.s.Userinfo? then Longer(x.parts, UserInfo) else x.parts[UserInfo := Slice(i, 1)]
      case _ => x.parts))
  }

  function FirstHostPass(parts: Parts, at: bool): (r: HostPass)
    requires Host in parts
    ensures HostPassOk(r)
  {
    HostPass(if at then UserinfoStart else HostStart, parts[Host := Slice(parts[Host].off, 0)])
  }

  function HostScan(buf: string, parts: Parts, at: bool, n: nat): (r: Option<HostPass>)
    requires Host in parts && parts[Host].off + n <= |buf|
    ensures r.Some? ==> HostPassOk(r.value)
  {
    if n == 0 then Some(FirstHostPass(parts, at)) else
    match HostScan(buf, parts, at, n - 1)
    case None => None
    case Some(x) => HostByte(x, buf[parts[Host].off + n - 1], parts[Host].off + n - 1)
  }

  predicate HostDone(s: HostState) { s.InHost? || s.V6End? || s.InPort? }

  // ----- The whole split

  const ULONG_MAX: nat := U64 - 1

  /** One past the last of the digits that start at `from`. */
  function DigitsEnd(buf: string, from: nat): (e: nat)
    requires from <= |buf|
    ensures from <= e <= |buf| && forall i :: from <= i < e ==> IsNum(buf[i])
    ensures e < |buf| ==> !IsNum(buf[e])
    decreases |buf| - from
  {
    if from < |buf| && IsNum(buf[from]) then DigitsEnd(buf, from + 1) else from
  }

  /** The fields after both passes. */
  function PartsOf(buf: string, connect: bool): Option<Parts> {
    match Scan(buf, connect, |buf|)
    case None => None
    case Some(x) =>
      if Schema in x.parts && Host !in x.parts then None
      else if Host !in x.parts then Some(x.parts)
      else if EndOf(x.parts[Host]) > |buf| then None // never: see PassLaid
      else
        match HostScan(buf, x.parts, x.at, x.parts[Host].len)
        case None => None
        case Some(y) => if HostDone(y.s) then Some(y.parts) else None
  }

  // ----- What the fields look like

  predicate IsDelimiter(ch: char) {
    ch == ':' || ch == '/' || ch == '?' || ch == '#' || ch == '@' || ch == '[' || ch == ']'
  }

  ghost predicate Covered(parts: Parts, i: nat) {
    exists k :: k in parts && parts[k].off <= i < EndOf(parts[k])
  }

  predicate PartChar(k: Part, ch: char) {
    match k
    case Schema => IsAlpha(ch)
    case UserInfo => IsUserinfoChar(ch)
    case Host => true // see HostChars
    case Port => IsNum(ch)
    case Path => IsUrlChar(ch)
    case Query => IsUrlChar(ch) || ch == '?'
    case Fragment => IsUrlChar(ch) || ch == '?' || ch == '#'
  }

  ghost predicate Inside(lo: nat, hi: nat, parts: Parts) {
    forall k :: k in parts ==> 0 < parts[k].len && lo <= parts[k].off && EndOf(parts[k]) <= hi
  }

  ghost predicate Ordered(parts: Parts) {
    forall j, k :: j in parts && k in parts && Rank(j) < Rank(k) ==> EndOf(parts[j]) <= parts[k].off
  }

  ghost predicate Filled(buf: string, lo: nat, hi: nat, parts: Parts)
    requires lo <= hi <= |buf|
  {
    forall i :: lo <= i < hi && !Covered(parts, i) ==> IsDelimiter(buf[i])
  }

  ghost predicate Typed(buf: string, parts: Parts) {
    forall k, i :: k in parts && parts[k].off <= i < EndOf(parts[k]) && i < |buf| ==> PartChar(k, buf[i])
  }

  /** Non-empty slices of the bytes lo..hi, in order and disjoint, each of bytes its part
      may have, with nothing but delimiters between them. */
  ghost predicate Laid(buf: string, lo: nat, hi: nat, parts: Parts)
    requires lo <= hi <= |buf|
  {
    Inside(lo, hi, parts) && Ordered(parts) && Filled(buf, lo, hi, parts) && Typed(buf, parts)
  }

  lemma LaidSkip(buf: string, lo: nat, i: nat, parts: Parts)
    requires lo <= i < |buf| && Laid(buf, lo, i, parts) && IsDelimiter(buf[i])
    ensures Laid(buf, lo, i + 1, parts)
  {
    hide IsDelimiter, PartChar, Ordered, Typed;
  }

  lemma OrderedLonger(parts: Parts, k: Part)
    requires k in parts && Ordered(parts) && forall j :: j in parts ==> Rank(j) <= Rank(k)
    ensures Ordered(Longer(parts, k))
  {
    hide Rank;
  }

  lemma InsideLonger(lo: nat, i: nat, parts: Parts, k: Part)
    requires k in parts && Inside(lo, i, parts) && EndOf(parts[k]) == i
    ensures Inside(lo, i + 1, Longer(parts, k))
  {
  }

  lemma TypedLonger(buf: string, parts: Parts, k: Part)
    requires k in parts && Typed(buf, parts) && EndOf(parts[k]) < |buf| && PartChar(k, buf[EndOf(parts[k])])
    ensures Typed(buf, Longer(parts, k))
  {
    hide PartChar;
  }

  lemma FilledLonger(buf: string, lo: nat, i: nat, parts: Parts, k: Part)
    requires lo <= i < |buf| && k in parts && EndOf(parts[k]) == i && Filled(buf, lo, i, parts)
    ensures Filled(buf, lo, i + 1, Longer(parts, k))
  {
    hide IsDelimiter, Covered, Longer;
    forall j | lo <= j < i + 1 && !Covered(Longer(parts, k), j) ensures IsDelimiter(buf[j]) {
      CoveredLonger(parts, k, j);
    }
  }

  lemma LaidLonger(buf: string, lo: nat, i: nat, parts: Parts, k: Part)
    requires lo <= i < |buf| && Laid(buf, lo, i, parts) && k in parts && EndOf(parts[k]) == i
    requires (forall j :: j in parts ==> Rank(j) <= Rank(k)) && PartChar(k, buf[i])
    ensures Laid(buf, lo, i + 1, Longer(parts, k))
  {
    hide IsDelimiter, PartChar, Rank, Covered, Ordered, Inside, Typed, Filled, Longer;
    OrderedLonger(parts, k);
    InsideLonger(lo, i, parts, k);
    TypedLonger(buf, parts, k);
    FilledLonger(buf, lo, i, parts, k);
  }

  lemma CoveredLonger(parts: Parts, k: Part, j: nat)
    requires k in parts
    ensures Covered(Longer(parts, k), j) <==> Covered(parts, j) || j == EndOf(parts[k])
  {
    var more := Longer(parts, k);
    if Covered(parts, j) {
      var l :| l in parts && parts[l].off <= j < EndOf(parts[l]);
      assert l in more && more[l].off <= j < EndOf(more[l]);
    }
    if j == EndOf(parts[k]) {
      assert k in more && more[k].off <= j < EndOf(more[k]);
    }
  }

  lemma LaidNew(buf: string, lo: nat, i: nat, parts: Parts, k: Part)
    requires lo <= i < |buf| && Laid(buf, lo, i, parts)
    requires (forall j :: j in parts ==> Rank(j) < Rank(k)) && PartChar(k, buf[i])
    ensures Laid(buf, lo, i + 1, parts[k := Slice(i, 1)])
  {
    hide IsDelimiter, PartChar, Rank, Covered;
    var more := parts[k := Slice(i, 1)];
    assert Ordered(more) by { hide Filled, Typed; }
    assert Inside(lo, i + 1, more) by { hide Filled, Typed, Ordered; }
    assert Typed(buf, more) by { hide Filled, Inside, Ordered; }
    assert Filled(buf, lo, i + 1, more) by {
      hide Typed, Inside, Ordered;
      forall j | lo <= j < i + 1 && !Covered(more, j) ensures IsDelimiter(buf[j]) {
        CoveredNew(parts, k, i, j);
      }
    }
  }

  lemma CoveredNew(parts: Parts, k: Part, i: nat, j: nat)
    requires k !in parts
    ensures Covered(parts[k := Slice(i, 1)], j) <==> Covered(parts, j) || j == i
  {
    var more := parts[k := Slice(i, 1)];
    if Covered(parts, j) {
      var l :| l in parts && parts[l].off <= j < EndOf(parts[l]);
      assert l in more && more[l].off <= j < EndOf(more[l]);
    }
    if j == i {
      assert k in more && more[k].off <= j < EndOf(more[k]);
    }
  }

  // ----- The first pass

  /** The rank of the last part that can have begun. */
  function Stage(s: TargetState): int {
    match s
    case ReqSpacesBeforeUrl => -1
    case ReqSchema | ReqSchemaSlash | ReqSchemaSlashSlash | ReqServerStart => 0
    case ReqServer | ReqServerWithAt => 2
    case ReqPath | ReqQueryStringStart => 4
    case ReqQueryString | ReqFragmentStart => 5
    case ReqFragment => 6
  }

  /** Where the part after the schema begins. */
  function AfterSchema(parts: Parts): nat { if Schema in parts then EndOf(parts[Schema]) + 3 else 0 }

  /** Each part follows its own delimiter. */
  predicate Separated(buf: string, parts: Parts) {
    (Schema in parts ==>
      parts[Schema].off == 0 && AfterSchema(parts) <= |buf| &&
      buf[EndOf(parts[Schema])..AfterSchema(parts)] == "://") &&
    (Path in parts ==> parts[Path].off < |buf| && (buf[parts[Path].off] == '/' || buf[parts[Path].off] == '*')) &&
    (Query in parts ==> 0 < parts[Query].off <= |buf| && buf[parts[Query].off - 1] == '?') &&
    (Fragment in parts ==> 0 < parts[Fragment].off <= |buf| && buf[parts[Fragment].off - 1] == '#')
  }

  /** How the state of the first pass and the fields fit after n bytes. */
  predicate Placed(buf: string, n: nat, x: Pass)
    requires n <= |buf|
  {
    Started(n, x) && Where(buf, n, x)
  }

  predicate Started(n: nat, x: Pass) {
    (forall k :: k in x.parts ==> Rank(k) <= Stage(x.s) && k != UserInfo && k != Port) &&
    (PartOf(x.s).Some? ==> x.last == PartOf(x.s) && x.last.value in x.parts && EndOf(x.parts[x.last.value]) == n)
  }

  predicate Where(buf: string, n: nat, x: Pass)
    requires n <= |buf|
  {
    (Host in x.parts ==> x.parts[Host].off == AfterSchema(x.parts) <= n) &&
    match x.s
    case ReqSpacesBeforeUrl => n == 0
    case ReqSchema => n > 0 && x.parts == map[Schema := Slice(0, n)]
    case ReqSchemaSlash => n > 0 && x.parts == map[Schema := Slice(0, n - 1)] && buf[n - 1] == ':'
    case ReqSchemaSlashSlash => n > 1 && x.parts == map[Schema := Slice(0, n - 2)] && buf[n - 2..n] == ":/"
    case ReqServerStart => Separated(buf, x.parts) && n == AfterSchema(x.parts)
    case ReqQueryStringStart => Separated(buf, x.parts) && n > 0 && buf[n - 1] == '?'
    case ReqFragmentStart => Separated(buf, x.parts) && n > 0 && buf[n - 1] == '#'
    case _ => Separated(buf, x.parts)
  }

  lemma UrlByteLaid(buf: string, n: nat, x: Pass)
    requires n < |buf| && PassOk(x) && Laid(buf, 0, n, x.parts) && Placed(buf, n, x)
    ensures var r := UrlByte(x, buf[n], n); r.Some? ==> Laid(buf, 0, n + 1, r.value.parts)
  {
    hide Laid, Separated;
    var ch := buf[n];
    if UrlByte(x, ch, n).Some? {
      var t := ParseUrlChar(x.s, ch).value;
      TargetMoves(x.s, ch);
      if PartOf(t).None? {
        LaidSkip(buf, 0, n, x.parts);
      } else if PartOf(t) == x.last {
        LaidLonger(buf, 0, n, x.parts, x.last.value);
      } else {
        LaidNew(buf, 0, n, x.parts, PartOf(t).value);
      }
    }
  }

  /** A move of parse_url_char stays in a part, starts a later one, or skips a delimiter. */
  lemma TargetMoves(s: TargetState, ch: char)
    requires ParseUrlChar(s, ch).Some?
    ensures var t := ParseUrlChar(s, ch).value;
      !t.ReqSpacesBeforeUrl? && Stage(s) <= Stage(t) &&
      (match PartOf(t)
       case None => IsDelimiter(ch)
       case Some(k) => PartChar(k, ch) && Stage(t) == Rank(k) && (PartOf(s) == Some(k) || Stage(s) < Rank(k)))
  {
  }

  lemma UrlByteStarted(n: nat, x: Pass, ch: char)
    requires PassOk(x) && Started(n, x)
    ensures var r := UrlByte(x, ch, n); r.Some? ==> Started(n + 1, r.value)
  {
    hide ParseUrlChar;
    if ParseUrlChar(x.s, ch).Some? {
      TargetMoves(x.s, ch);
    }
  }

  /** How the first bytes move through "schema://". */
  lemma SchemaMoves(s: TargetState, ch: char)
    requires ParseUrlChar(s, ch).Some? && Stage(s) <= 0 && !s.ReqServerStart?
    ensures var t := ParseUrlChar(s, ch).value;
      match s
      case ReqSpacesBeforeUrl => t.ReqSchema? || (t.ReqPath? && (ch == '/' || ch == '*'))
      case ReqSchema => t.ReqSchema? || (t.ReqSchemaSlash? && ch == ':')
      case ReqSchemaSlash => t.ReqSchemaSlashSlash? && ch == '/'
      case _ => t.ReqServerStart? && ch == '/'
  {
  }

  /** Up to the end of "://". */
  lemma UrlByteSchema(buf: string, n: nat, x: Pass)
    requires n < |buf| && PassOk(x) && Started(n, x) && Where(buf, n, x) && Stage(x.s) <= 0 && !x.s.ReqServerStart?
    ensures var r := UrlByte(x, buf[n], n); r.Some? ==> Where(buf, n + 1, r.value)
  {
    hide ParseUrlChar;
    if ParseUrlChar(x.s, buf[n]).Some? {
      SchemaMoves(x.s, buf[n]);
      if x.s.ReqSpacesBeforeUrl? {
        NothingYet(n, x);
      } else {
        hide Separated;
        assert buf[..n + 1] == buf[..n] + [buf[n]];
        if x.s.ReqSchemaSlashSlash? { AfterScheme(buf, n); }
      }
    }
  }

  lemma NothingYet(n: nat, x: Pass)
    requires Started(n, x) && x.s.ReqSpacesBeforeUrl?
    ensures x.parts == map[]
  {
    assert forall k: Part :: Rank(k) >= 0;
  }

  lemma AfterScheme(buf: string, n: nat)
    requires 1 < n < |buf| && buf[n - 2..n] == ":/" && buf[n] == '/'
    ensures Separated(buf, map[Schema := Slice(0, n - 2)])
  {
    assert buf[n - 2..n + 1] == buf[n - 2..n] + [buf[n]];
  }

  lemma SeparatedLonger(buf: string, parts: Parts, k: Part)
    requires Separated(buf, parts) && k in parts && k != Schema
    ensures Separated(buf, Longer(parts, k)) && AfterSchema(Longer(parts, k)) == AfterSchema(parts)
    ensures Longer(parts, k)[k].off == parts[k].off
  {
  }

  lemma SeparatedNew(buf: string, parts: Parts, k: Part, n: nat)
    requires Separated(buf, parts) && k != Schema && k !in parts && n < |buf|
    requires k == Path ==> buf[n] == '/' || buf[n] == '*'
    requires k == Query ==> n > 0 && buf[n - 1] == '?'
    requires k == Fragment ==> n > 0 && buf[n - 1] == '#'
    ensures Separated(buf, parts[k := Slice(n, 1)]) && AfterSchema(parts[k := Slice(n, 1)]) == AfterSchema(parts)
  {
  }

  lemma UrlByteLater(buf: string, n: nat, x: Pass)
    requires n < |buf| && PassOk(x) && Started(n, x) && Where(buf, n, x) && (Stage(x.s) > 0 || x.s.ReqServerStart?)
    ensures var r := UrlByte(x, buf[n], n); r.Some? ==> Where(buf, n + 1, r.value)
  {
    hide ParseUrlChar, Separated, AfterSchema;
    if ParseUrlChar(x.s, buf[n]).Some? {
      LaterMoves(x.s, buf[n]);
      TargetMoves(x.s, buf[n]);
      var k := PartOf(ParseUrlChar(x.s, buf[n]).value);
      if k.Some? {
        if k == x.last {
          SeparatedLonger(buf, x.parts, k.value);
        } else {
          SeparatedNew(buf, x.parts, k.value, n);
        }
      }
    }
  }

  lemma LaterMoves(s: TargetState, ch: char)
    requires ParseUrlChar(s, ch).Some? && (Stage(s) > 0 || s.ReqServerStart?)
    ensures var t := ParseUrlChar(s, ch).value;
      Stage(t) > 0 &&
      (t.ReqPath? ==> s.ReqPath? || (ch == '/' && (s.ReqServerStart? || s.ReqServer? || s.ReqServerWithAt?))) &&
      (t.ReqQueryStringStart? ==> ch == '?') && (t.ReqFragmentStart? ==> ch == '#') &&
      (t.ReqServer? || t.ReqServerWithAt? ==> s.ReqServerStart? || s.ReqServer? || s.ReqServerWithAt?) &&
      (t.ReqQueryString? ==> s.ReqQueryStringStart? || s.ReqQueryString?) &&
      (t.ReqFragment? ==> s.ReqFragmentStart? || s.ReqFragment?)
  {
  }

  lemma UrlBytePlaced(buf: string, n: nat, x: Pass)
    requires n < |buf| && PassOk(x) && Placed(buf, n, x)
    ensures var r := UrlByte(x, buf[n], n); r.Some? ==> Placed(buf, n + 1, r.value)
  {
    hide UrlByte, Started, Where;
    UrlByteStarted(n, x, buf[n]);
    if Stage(x.s) > 0 || x.s.ReqServerStart? {
      UrlByteLater(buf, n, x);
    } else {
      UrlByteSchema(buf, n, x);
    }
  }

  lemma {:induction false} ScanLaid(buf: string, connect: bool, n: nat)
    requires n <= |buf|
    ensures var r := Scan(buf, connect, n); r.Some? ==> Laid(buf, 0, n, r.value.parts) && Placed(buf, n, r.value)
  {
    hide Laid, Placed, UrlByte;
    if n == 0 {
      StartLaid(buf, connect);
    } else {
      ScanLaid(buf, connect, n - 1);
      var r := Scan(buf, connect, n - 1);
      if r.Some? {
        UrlByteLaid(buf, n - 1, r.value);
        UrlBytePlaced(buf, n - 1, r.value);
      }
    }
  }

  lemma StartLaid(buf: string, connect: bool)
    ensures Laid(buf, 0, 0, map[]) && Placed(buf, 0, FirstPass(connect))
  {
  }

  // ----- The second pass

  /** The fields http_parse_host fills; its Host starts out empty. */
  function HostParts(parts: Parts): Parts {
    map k | k in parts && (k == UserInfo || k == Port || (k == Host && parts[k].len > 0)) :: parts[k]
  }

  function HostPartOf(s: HostState): Option<Part> {
    match s
    case Userinfo => Some(UserInfo)
    case InHost | V6 | V6ZoneStart | V6Zone => Some(Host)
    case InPort => Some(Port)
    case _ => None
  }

  function HostStage(s: HostState): int {
    match s
    case UserinfoStart => 0
    case Userinfo | HostStart | V6Start => 1
    case InHost | V6 | V6ZoneStart | V6Zone | V6End | PortStart => 2
    case InPort => 3
  }

  predicate HostStarted(i: nat, y: HostPass) {
    HostPassOk(y) && (HostStage(y.s) >= 2 ==> y.parts[Host].len > 0) &&
    (forall k :: k in HostParts(y.parts) ==> Rank(k) <= HostStage(y.s)) &&
    (HostPartOf(y.s).Some? ==>
      var k := HostPartOf(y.s).value; k in HostParts(y.parts) && EndOf(y.parts[k]) == i)
  }

  lemma HostMoves(s: HostState, ch: char)
    requires HostChar(s, ch).Some?
    ensures var t := HostChar(s, ch).value;
      HostStage(s) <= HostStage(t) && !t.UserinfoStart? &&
      (HostStage(t) >= 2 ==> HostStage(s) >= 2 || HostPartOf(t) == Some(Host)) &&
      (t.InHost? ==> s.InHost? || s.HostStart?) && (t.V6? ==> s.V6? || s.V6Start?) &&
      (t.V6ZoneStart? || t.V6Zone? ==> HostPartOf(s) == Some(Host)) &&
      (match HostPartOf(t)
       case None => IsDelimiter(ch)
       case Some(k) =>
         PartChar(k, ch) && HostStage(t) == Rank(k) && (HostPartOf(s) == Some(k) || HostStage(s) < Rank(k)))
  {
  }

  /** How one byte changes the three fields. */
  lemma HostByteParts(i: nat, y: HostPass, ch: char)
    requires HostStarted(i, y) && HostByte(y, ch, i).Some?
    ensures var z, was := HostByte(y, ch, i).value, HostParts(y.parts);
      HostParts(z.parts) ==
        (match HostPartOf(z.s)
         case None => was
         case Some(k) => if HostPartOf(y.s) == Some(k) then Longer(was, k) else was[k := Slice(i, 1)])
  {
    hide HostChar, HostParts;
    HostMoves(y.s, ch);
    HostPartsAt(y.parts);
    var z := HostByte(y, ch, i).value;
    var k := HostPartOf(z.s);
    if k.Some? {
      if HostPartOf(y.s) == k {
        HostPartsLonger(y.parts, k.value);
      } else {
        HostPartsNew(y.parts, k.value, i);
        if k.value == Host { HostEmpty(i, y, ch); }
      }
    }
  }

  /** The host begins where none was found before. */
  lemma HostEmpty(i: nat, y: HostPass, ch: char)
    requires HostStarted(i, y) && HostByte(y, ch, i).Some?
    requires HostPartOf(HostByte(y, ch, i).value.s) == Some(Host) && HostPartOf(y.s) != Some(Host)
    ensures y.parts[Host].len == 0
  {
    hide HostChar;
    HostMoves(y.s, ch);
  }

  lemma HostPartsLonger(parts: Parts, k: Part)
    requires k in HostParts(parts)
    ensures k in parts && HostParts(Longer(parts, k)) == Longer(HostParts(parts), k)
  {
  }

  lemma HostPartsNew(parts: Parts, k: Part, i: nat)
    requires k == UserInfo || k == Host || k == Port
    ensures HostParts(parts[k := Slice(i, 1)]) == HostParts(parts)[k := Slice(i, 1)]
  {
  }

  lemma HostByteStarted(i: nat, y: HostPass, ch: char)
    requires HostStarted(i, y) && HostByte(y, ch, i).Some?
    ensures HostStarted(i + 1, HostByte(y, ch, i).value)
  {
    hide HostChar, HostParts;
    HostMoves(y.s, ch);
    HostByteParts(i, y, ch);
    HostPartsAt(y.parts);
    HostPartsAt(HostByte(y, ch, i).value.parts);
  }

  lemma HostPartsAt(parts: Parts)
    ensures forall k ::
      k in HostParts(parts) <==> k in parts && (k == UserInfo || k == Port || (k == Host && parts[k].len > 0))
    ensures forall k :: k in HostParts(parts) ==> HostParts(parts)[k] == parts[k]
  {
  }

  lemma HostByteLaid(buf: string, lo: nat, i: nat, y: HostPass)
    requires lo <= i < |buf| && HostStarted(i, y) && Laid(buf, lo, i, HostParts(y.parts))
    ensures var r := HostByte(y, buf[i], i);
      r.Some? ==> HostStarted(i + 1, r.value) && Laid(buf, lo, i + 1, HostParts(r.value.parts))
  {
    hide Laid, HostChar, HostParts;
    var r := HostByte(y, buf[i], i);
    if r.Some? {
      hide HostByte;
      var was := HostParts(y.parts);
      HostMoves(y.s, buf[i]);
      HostByteParts(i, y, buf[i]);
      HostByteStarted(i, y, buf[i]);
      SameState(y, buf[i], i);
      var k := HostPartOf(r.value.s);
      if k.None? {
        LaidSkip(buf, lo, i, was);
      } else if HostPartOf(y.s) == k {
        SamePart(y.parts, k.value);
        LaidLonger(buf, lo, i, was, k.value);
      } else {
        LaidNew(buf, lo, i, was, k.value);
      }
    }
  }

  lemma SameState(y: HostPass, ch: char, i: nat)
    requires HostPassOk(y) && HostByte(y, ch, i).Some?
    ensures HostChar(y.s, ch) == Some(HostByte(y, ch, i).value.s)
  {
    hide HostChar;
  }

  lemma SamePart(parts: Parts, k: Part)
    requires k in HostParts(parts)
    ensures k in parts && HostParts(parts)[k] == parts[k]
  {
  }

  predicate PlainHost(buf: string, h: Slice) {
    EndOf(h) <= |buf| && forall j :: h.off <= j < EndOf(h) ==> IsHostChar(buf[j])
  }

  /** An IPv6 address, with its zone, behind an opening bracket. */
  predicate BracketedHost(buf: string, h: Slice) {
    0 < h.off && EndOf(h) <= |buf| && buf[h.off - 1] == '[' &&
    forall j :: h.off <= j < EndOf(h) ==> IsV6Char(buf[j]) || IsZoneChar(buf[j])
  }

  predicate HostSpelled(buf: string, h: Slice) {
    PlainHost(buf, h) || (BracketedHost(buf, h) && EndOf(h) < |buf| && buf[EndOf(h)] == ']')
  }

  predicate HostText(buf: string, i: nat, s: HostState, h: Slice)
    requires i <= |buf|
  {
    match s
    case UserinfoStart | Userinfo | HostStart => true
    case V6Start => i > 0 && buf[i - 1] == '['
    case InHost => PlainHost(buf, h)
    case V6 | V6ZoneStart | V6Zone => BracketedHost(buf, h)
    case V6End => BracketedHost(buf, h) && EndOf(h) + 1 == i && buf[i - 1] == ']'
    case PortStart | InPort => HostSpelled(buf, h)
  }

  predicate HostWhere(buf: string, lo: nat, i: nat, y: HostPass)
    requires i <= |buf|
  {
    HostPassOk(y) && HostText(buf, i, y.s, y.parts[Host]) &&
    (UserInfo in y.parts ==>
      var u := y.parts[UserInfo]; u.off == lo && (y.s.Userinfo? || (EndOf(u) < |buf| && buf[EndOf(u)] == '@'))) &&
    (Port in y.parts ==> var q := y.parts[Port]; 0 < q.off <= |buf| && buf[q.off - 1] == ':') &&
    (y.s.PortStart? ==> i > 0 && buf[i - 1] == ':') && (y.s.UserinfoStart? ==> i == lo)
  }

  lemma HostLonger(buf: string, h: Slice)
    requires EndOf(h) < |buf|
    ensures PlainHost(buf, h) && IsHostChar(buf[EndOf(h)]) ==> PlainHost(buf, Slice(h.off, h.len + 1))
    ensures BracketedHost(buf, h) && (IsV6Char(buf[EndOf(h)]) || IsZoneChar(buf[EndOf(h)])) ==>
      BracketedHost(buf, Slice(h.off, h.len + 1))
  {
    hide IsHostChar, IsV6Char, IsZoneChar;
  }

  lemma HostNew(buf: string, i: nat)
    requires i < |buf|
    ensures IsHostChar(buf[i]) ==> PlainHost(buf, Slice(i, 1))
    ensures i > 0 && buf[i - 1] == '[' && IsV6Char(buf[i]) ==> BracketedHost(buf, Slice(i, 1))
  {
    hide IsHostChar, IsV6Char, IsZoneChar;
  }

  lemma HostEnds(buf: string, h: Slice)
    ensures PlainHost(buf, h) ==> HostSpelled(buf, h)
    ensures BracketedHost(buf, h) && EndOf(h) < |buf| && buf[EndOf(h)] == ']' ==> HostSpelled(buf, h)
  {
    hide PlainHost, BracketedHost;
  }

  /** The host field after byte i. */
  function HostAfter(s: HostState, h: Slice, i: nat, t: HostState): Slice {
    if HostPartOf(t) != Some(Host) then h
    else if HostPartOf(s) == Some(Host) then Slice(h.off, h.len + 1) else Slice(i, 1)
  }

  /** Which byte leads from where into a state. */
  lemma HostKinds(s: HostState, ch: char)
    requires HostChar(s, ch).Some?
    ensures var t := HostChar(s, ch).value;
      (t.InHost? ==> IsHostChar(ch)) && (t.V6? ==> IsV6Char(ch)) && (t.V6ZoneStart? || t.V6Zone? ==> IsZoneChar(ch)) &&
      (t.V6Start? ==> ch == '[') && (t.V6End? ==> ch == ']' && (s.V6? || s.V6Zone?)) &&
      (t.InHost? ==> s.InHost? || s.HostStart?) && (t.V6? ==> s.V6? || s.V6Start?) &&
      (t.V6ZoneStart? || t.V6Zone? ==> s.V6? || s.V6ZoneStart? || s.V6Zone?) &&
      (t.PortStart? ==> s.InHost? || s.V6End?) && (t.InPort? ==> s.PortStart? || s.InPort?)
  {
  }

  lemma HostTextMoves(buf: string, i: nat, s: HostState, h: Slice, t: HostState)
    requires i < |buf| && HostText(buf, i, s, h) && HostChar(s, buf[i]) == Some(t)
    requires HostPartOf(s) == Some(Host) ==> EndOf(h) == i
    ensures HostText(buf, i + 1, t, HostAfter(s, h, i, t))
  {
    hide HostChar, PlainHost, BracketedHost, HostSpelled, IsHostChar, IsV6Char, IsZoneChar;
    HostKinds(s, buf[i]);
    if t.InHost? {
      if s.InHost? { HostLonger(buf, h); } else { HostNew(buf, i); }
    } else if t.V6? {
      if s.V6? { HostLonger(buf, h); } else { HostNew(buf, i); }
    } else if t.V6ZoneStart? || t.V6Zone? {
      HostLonger(buf, h);
    } else {
      HostEnds(buf, h);
    }
  }

  lemma HostSlice(y: HostPass, ch: char, i: nat)
    requires HostStarted(i, y) && HostByte(y, ch, i).Some?
    ensures var z, h := HostByte(y, ch, i).value, y.parts[Host];
      z.parts[Host] == HostAfter(y.s, h, i, z.s)
  {
    hide HostChar;
    HostMoves(y.s, ch);
  }

  lemma HostByteWhere(buf: string, lo: nat, i: nat, y: HostPass)
    requires lo <= i < |buf| && HostStarted(i, y) && HostWhere(buf, lo, i, y)
    ensures var r := HostByte(y, buf[i], i); r.Some? ==> HostWhere(buf, lo, i + 1, r.value)
  {
    hide HostText;
    if HostByte(y, buf[i], i).Some? {
      SameState(y, buf[i], i);
      HostSlice(y, buf[i], i);
      HostMoves(y.s, buf[i]);
      HostTextMoves(buf, i, y.s, y.parts[Host], HostChar(y.s, buf[i]).value);
    }
  }

  predicate HostFrame(base: Parts, parts: Parts) {
    forall k :: k != UserInfo && k != Host && k != Port ==>
      (k in parts <==> k in base) && (k in base ==> parts[k] == base[k])
  }

  predicate HostBase(parts: Parts) { Host in parts && UserInfo !in parts && Port !in parts }

  lemma {:induction false} HostScanLaid(buf: string, base: Parts, at: bool, n: nat)
    requires HostBase(base) && base[Host].off + n <= |buf|
    ensures var lo, r := base[Host].off, HostScan(buf, base, at, n);
      r.Some? ==>
        HostStarted(lo + n, r.value) && Laid(buf, lo, lo + n, HostParts(r.value.parts)) &&
        HostWhere(buf, lo, lo + n, r.value) &&
        HostFrame(base, r.value.parts)
  {
    hide Laid, HostWhere, HostByte, HostParts, HostStarted;
    var lo := base[Host].off;
    if n == 0 {
      HostScanStart(buf, base, at);
    } else {
      HostScanLaid(buf, base, at, n - 1);
      var r := HostScan(buf, base, at, n - 1);
      if r.Some? && HostByte(r.value, buf[lo + n - 1], lo + n - 1).Some? {
        HostByteLaid(buf, lo, lo + n - 1, r.value);
        HostByteWhere(buf, lo, lo + n - 1, r.value);
        HostByteFrame(r.value, buf[lo + n - 1], lo + n - 1);
      }
    }
  }

  lemma HostScanStart(buf: string, base: Parts, at: bool)
    requires HostBase(base) && base[Host].off <= |buf|
    ensures var lo, r := base[Host].off, FirstHostPass(base, at);
      HostStarted(lo, r) && Laid(buf, lo, lo, HostParts(r.parts)) && HostWhere(buf, lo, lo, r) &&
      HostFrame(base, r.parts)
  {
    assert HostParts(FirstHostPass(base, at).parts) == map[];
  }

  lemma HostByteFrame(y: HostPass, ch: char, i: nat)
    requires HostPassOk(y) && HostByte(y, ch, i).Some?
    ensures HostFrame(y.parts, HostByte(y, ch, i).value.parts)
  {
    hide HostChar;
  }

  // ----- Both passes

  /** What a successful split says about the text of the URL. */
  ghost predicate SplitOf(buf: string, parts: Parts) {
    Laid(buf, 0, |buf|, parts) && Separated(buf, parts) &&
    (Schema in parts || UserInfo in parts || Port in parts ==> Host in parts) &&
    (UserInfo in parts ==>
      var u := parts[UserInfo]; u.off == AfterSchema(parts) && EndOf(u) < |buf| && buf[EndOf(u)] == '@') &&
    (Port in parts ==> var q := parts[Port]; 0 < q.off <= |buf| && buf[q.off - 1] == ':') &&
    (Host in parts ==> HostSpelled(buf, parts[Host]))
  }

  /** The host region of the first pass, filled by the fields of the second. */
  lemma Merged(buf: string, base: Parts, parts: Parts)
    requires HostBase(base) && Laid(buf, 0, |buf|, base) && HostFrame(base, parts) && Host in parts &&
      parts[Host].len > 0
    requires Laid(buf, base[Host].off, EndOf(base[Host]), HostParts(parts))
    ensures Laid(buf, 0, |buf|, parts)
  {
    hide IsDelimiter, PartChar, Covered;
    var sub := HostParts(parts);
    var lo, hi := base[Host].off, EndOf(base[Host]);
    assert forall k :: k in parts ==> (k in sub && parts[k] == sub[k]) || (k in base && k != Host && parts[k] == base[k]);
    assert Inside(0, |buf|, parts) by { hide Filled, Typed, Ordered; }
    assert Typed(buf, parts) by { hide Filled, Inside, Ordered; }
    assert Ordered(parts) by {
      hide Filled, Typed;
      MergedOrder(base, parts);
    }
    assert Filled(buf, 0, |buf|, parts) by {
      hide Typed, Inside, Ordered, HostParts;
      forall i | 0 <= i < |buf| && !Covered(parts, i) ensures IsDelimiter(buf[i]) {
        MergedCover(base, parts, i);
      }
    }
  }

  lemma MergedOrder(base: Parts, parts: Parts)
    requires HostBase(base) && Ordered(base) && HostFrame(base, parts) && Host in parts && parts[Host].len > 0
    requires Ordered(HostParts(parts)) && Inside(base[Host].off, EndOf(base[Host]), HostParts(parts))
    ensures Ordered(parts)
  {
    hide Ordered;
    var sub := HostParts(parts);
    forall j, k | j in parts && k in parts && Rank(j) < Rank(k) ensures EndOf(parts[j]) <= parts[k].off {
      if j in sub && k in sub {
        OrderedAt(sub, j, k);
      } else if j in sub {
        OrderedAt(base, Host, k);
      } else if k in sub {
        OrderedAt(base, j, Host);
      } else {
        OrderedAt(base, j, k);
      }
    }
    AllOrdered(parts);
  }

  lemma AllOrdered(parts: Parts)
    requires forall j, k :: j in parts && k in parts && Rank(j) < Rank(k) ==> EndOf(parts[j]) <= parts[k].off
    ensures Ordered(parts)
  {
  }

  lemma MergedCover(base: Parts, parts: Parts, i: nat)
    requires HostBase(base) && HostFrame(base, parts) && Host in parts
    ensures Covered(HostParts(parts), i) ==> Covered(parts, i)
    ensures Covered(base, i) && !(base[Host].off <= i < EndOf(base[Host])) ==> Covered(parts, i)
  {
    var sub := HostParts(parts);
    if Covered(sub, i) {
      var k :| k in sub && sub[k].off <= i < EndOf(sub[k]);
      assert k in parts && parts[k].off <= i < EndOf(parts[k]);
    }
    if Covered(base, i) && !(base[Host].off <= i < EndOf(base[Host])) {
      var k :| k in base && base[k].off <= i < EndOf(base[k]);
      assert k in parts && parts[k].off <= i < EndOf(parts[k]);
    }
  }

  /** The second pass splits the host region of the first. */
  lemma HostSplit(buf: string, base: Parts, at: bool)
    requires Laid(buf, 0, |buf|, base) && Separated(buf, base) && HostBase(base) && base[Host].off == AfterSchema(base)
    ensures EndOf(base[Host]) <= |buf|
    ensures var y := HostScan(buf, base, at, base[Host].len);
      y.Some? && HostDone(y.value.s) ==> SplitOf(buf, y.value.parts)
  {
    hide Laid, Separated, HostScan, HostParts, HostStarted, HostWhere, HostFrame, SplitOf;
    HostInside(buf, base);
    HostScanLaid(buf, base, at, base[Host].len);
    var y := HostScan(buf, base, at, base[Host].len);
    if y.Some? && HostDone(y.value.s) {
      HostFilled(EndOf(base[Host]), y.value);
      Merged(buf, base, y.value.parts);
      HostSplitDone(buf, base, y.value);
    }
  }

  lemma HostFilled(i: nat, y: HostPass)
    requires HostStarted(i, y) && HostDone(y.s)
    ensures Host in y.parts && y.parts[Host].len > 0
  {
    hide HostParts;
  }

  lemma HostSplitDone(buf: string, base: Parts, y: HostPass)
    requires Separated(buf, base) && HostBase(base) && EndOf(base[Host]) <= |buf| && base[Host].off == AfterSchema(base)
    requires HostWhere(buf, base[Host].off, EndOf(base[Host]), y) && HostDone(y.s) && HostFrame(base, y.parts)
    requires Laid(buf, 0, |buf|, y.parts)
    ensures SplitOf(buf, y.parts)
  {
    hide Laid, Separated, HostText, HostSpelled, HostFrame, AfterSchema;
    SeparatedFrame(buf, base, y.parts);
    HostTextDone(buf, EndOf(base[Host]), y.s, y.parts[Host]);
  }

  lemma HostTextDone(buf: string, i: nat, s: HostState, h: Slice)
    requires i <= |buf| && HostText(buf, i, s, h) && HostDone(s)
    ensures HostSpelled(buf, h)
  {
    hide PlainHost;
  }

  /** Whenever both passes succeed, the fields are non-empty slices of the URL in the order
      schema, userinfo, host, port, path, query, fragment, each of its own characters,
      each behind its own delimiter, and nothing but delimiters lies outside them. */
  lemma FieldsSound(buf: string, connect: bool)
    ensures var r := PartsOf(buf, connect); r.Some? ==> SplitOf(buf, r.value)
  {
    hide Laid, Separated, Placed, Scan, HostScan, SplitOf;
    ScanLaid(buf, connect, |buf|);
    var r := Scan(buf, connect, |buf|);
    if PartsOf(buf, connect).Some? {
      ScanSeparated(buf, r.value);
      if Host in r.value.parts {
        HostSplit(buf, r.value.parts, r.value.at);
      } else {
        NoHostSplit(buf, r.value.parts);
      }
    }
  }

  lemma NoHostSplit(buf: string, parts: Parts)
    requires Laid(buf, 0, |buf|, parts) && Separated(buf, parts)
    requires Schema !in parts && UserInfo !in parts && Host !in parts && Port !in parts
    ensures SplitOf(buf, parts)
  {
    hide Laid, Separated;
  }

  lemma HostInside(buf: string, parts: Parts)
    requires Laid(buf, 0, |buf|, parts) && Host in parts
    ensures EndOf(parts[Host]) <= |buf|
  {
    hide Ordered, Filled, Typed;
  }

  lemma SeparatedFrame(buf: string, base: Parts, parts: Parts)
    requires Separated(buf, base) && HostFrame(base, parts)
    ensures Separated(buf, parts) && AfterSchema(parts) == AfterSchema(base)
  {
  }

  /** A first pass that stops inside "schema://" has found no host. */
  lemma ScanSeparated(buf: string, x: Pass)
    requires Placed(buf, |buf|, x)
    ensures (Schema in x.parts && Host !in x.parts) || Separated(buf, x.parts)
    ensures UserInfo !in x.parts && Port !in x.parts && (Host in x.parts ==> x.parts[Host].off == AfterSchema(x.parts))
  {
    assert forall k: Part :: Rank(k) >= 0;
  }

  lemma OrderedAt(parts: Parts, j: Part, k: Part)
    requires Ordered(parts) && j in parts && k in parts
    ensures Rank(j) < Rank(k) ==> EndOf(parts[j]) <= parts[k].off
    ensures Rank(j) > Rank(k) ==> EndOf(parts[k]) <= parts[j].off
  {
  }

  lemma NoDigitAfterPort(buf: string, parts: Parts)
    requires Laid(buf, 0, |buf|, parts) && Separated(buf, parts) && Port in parts
    ensures var e := EndOf(parts[Port]); e <= |buf| && (e < |buf| ==> !IsNum(buf[e]))
  {
    hide Ordered, AfterSchema;
    var e := EndOf(parts[Port]);
    assert PartChar(Port, buf[e - 1]);
    if e < |buf| && Covered(parts, e) {
      hide Filled, Typed;
      var k :| k in parts && parts[k].off <= e < EndOf(parts[k]);
      OrderedAt(parts, k, Port);
    }
  }

  /** The byte behind a port is no digit, so strtoul reads exactly the port. */
  lemma PortEnds(buf: string, parts: Parts)
    requires SplitOf(buf, parts) && Port in parts
    ensures EndOf(parts[Port]) <= |buf| && DigitsEnd(buf, parts[Port].off) == EndOf(parts[Port])
    ensures forall i :: 0 <= i < parts[Port].len ==> IsNum(Text(buf, parts[Port])[i])
  {
    hide Separated, Filled, Ordered, HostSpelled;
    var q := parts[Port];
    assert forall i :: q.off <= i < EndOf(q) ==> PartChar(Port, buf[i]);
    NoDigitAfterPort(buf, parts);
    DigitsRun(buf, q.off, EndOf(q));
  }

  lemma {:induction false} DigitsRun(buf: string, from: nat, e: nat)
    requires from <= e <= |buf| && (forall i :: from <= i < e ==> IsNum(buf[i])) && (e < |buf| ==> !IsNum(buf[e]))
    ensures DigitsEnd(buf, from) == e
    decreases e - from
  {
    if from < e {
      DigitsRun(buf, from + 1, e);
    }
  }

  /** When http_parser_parse_url returns 0. */
  predicate Accepted(buf: string, connect: bool) {
    match PartsOf(buf, connect)
    case None => false
    case Some(parts) =>
      FieldsSound(buf, connect); // a port lies inside the text
      (connect ==> parts.Keys == {Host, Port}) &&
      (Port in parts ==> Decimal(buf[parts[Port].off..DigitsEnd(buf, parts[Port].off)]) <= 0xFFFF)
  }

  /** strtoul(buf + off, NULL, 10) where the text at `off` is a digit: it reads digits and
      saturates. */
  method StrToUl(buf: string, off: nat) returns (v: nat)
    requires off < |buf| && IsNum(buf[off])
    ensures var d := Decimal(buf[off..DigitsEnd(buf, off)]); v == if d <= ULONG_MAX then d else ULONG_MAX
  {
    v := 0;
    var i := off;
    DigitsRun(buf, off, DigitsEnd(buf, off));
    while i < |buf| && IsNum(buf[i])
      invariant off <= i <= DigitsEnd(buf, off)
      invariant var d := Decimal(buf[off..i]); v == if d <= ULONG_MAX then d else ULONG_MAX
    {
      assert buf[off..i + 1][..i - off] == buf[off..i];
      v := v * 10 + Digit(buf[i]);
      if v > ULONG_MAX {
        v := ULONG_MAX;
      }
      i := i + 1;
    }
  }

  /** struct http_parser_url: `fields` is `field_data` on the bits of `field_set`. */
  class HttpParserUrl {
    var fields: Parts
    var port: nat

    constructor ()
      ensures fields == map[] && port == 0
    {
      fields, port := map[], 0;
    }

    /** http_parse_host */
    method ParseHost(buf: string, foundAt: bool) returns (failed: bool)
      requires Host in fields && EndOf(fields[Host]) <= |buf|
      modifies this`fields
      ensures match HostScan(buf, old(fields), foundAt, old(fields)[Host].len)
              case None => failed
              case Some(y) => failed == !HostDone(y.s) && fields == y.parts
    {
      hide HostChar, HostScan;
      var off, end := fields[Host].off, EndOf(fields[Host]);
      HostScanNothing(buf, fields, foundAt);
      fields := fields[Host := Slice(off, 0)];
      var s := if foundAt then UserinfoStart else HostStart;
      var p := off;
      while p < end
        invariant off <= p <= end
        invariant HostScan(buf, old(fields), foundAt, p - off) == Some(HostPass(s, fields))
      {
        var t := HostChar(s, buf[p]);
        if t.None? {
          HostScanStep(buf, old(fields), foundAt, p + 1 - off, HostPass(s, fields));
          HostScanNone(buf, old(fields), foundAt, p + 1 - off, end - off);
          return true;
        }
        ghost var was := HostPass(s, fields);
        match t.value {
          case InHost =>
            fields := if s.InHost? then Longer(fields, Host) else fields[Host := Slice(p, fields[Host].len + 1)];
          case V6 =>
            fields := if s.V6? then Longer(fields, Host) else fields[Host := Slice(p, fields[Host].len + 1)];
          case V6ZoneStart | V6Zone =>
            fields := Longer(fields, Host);
          case InPort =>
            fields := if s.InPort? then Longer(fields, Port) else fields[Port := Slice(p, 1)];
          case Userinfo =>
            fields := if s.Userinfo? then Longer(fields, UserInfo) else fields[UserInfo := Slice(p, 1)];
          case _ =>
        }
        s := t.value;
        assert HostByte(was, buf[p], p) == Some(HostPass(s, fields));
        p := p + 1;
        HostScanStep(buf, old(fields), foundAt, p - off, was);
      }
      failed := !HostDone(s);
    }

    /** http_parser_parse_url on a NUL-terminated string that its 16-bit offsets can
        address.  On success it has split the whole URL. */
    method ParseUrl(buf: string, isConnect: bool) returns (failed: bool)
      requires |buf| <= 0xFFFF
      modifies this
      ensures !failed <==> Accepted(buf, isConnect)
      ensures !failed ==> PartsOf(buf, isConnect) == Some(fields) && SplitOf(buf, fields)
      ensures !failed && isConnect ==> fields.Keys == {Host, Port}
      ensures !failed && Port in fields ==>
        EndOf(fields[Port]) <= |buf| && (forall i :: 0 <= i < fields[Port].len ==> IsNum(Text(buf, fields[Port])[i])) &&
        port == Decimal(Text(buf, fields[Port])) <= 0xFFFF
      ensures !failed && Port !in fields ==> port == 0
    {
      hide Laid, Separated, HostSpelled, DigitsEnd, HostStarted, HostWhere;
      fields, port := map[], 0;
      var s := if isConnect then ReqServerStart else ReqSpacesBeforeUrl;
      var last: Option<Part> := None;
      var foundAt := false;
      FieldsSound(buf, isConnect);
      var p := 0;
      while p < |buf|
        invariant p <= |buf| && port == 0
        invariant Scan(buf, isConnect, p) == Some(Pass(s, last, foundAt, fields))
      {
        var t := ParseUrlChar(s, buf[p]);
        if t.None? {
          ScanNone(buf, isConnect, p + 1, |buf|);
          return true;
        }
        s := t.value;
        if s.ReqServerWithAt? {
          foundAt := true;
        }
        var uf := PartOf(s);
        if uf.Some? {
          fields := if uf == last then Longer(fields, uf.value) else fields[uf.value := Slice(p, 1)];
          last := uf;
        }
        p := p + 1;
      }
      ScanLaid(buf, isConnect, |buf|);
      if Schema in fields && Host !in fields {
        return true;
      }
      if Host in fields {
        HostInside(buf, fields);
        failed := ParseHost(buf, foundAt);
        if failed {
          return;
        }
      }
      assert PartsOf(buf, isConnect) == Some(fields);
      if isConnect && fields.Keys != {Host, Port} {
        return true;
      }
      if Port in fields {
        PortEnds(buf, fields);
        PortFirst(buf, fields);
        var v := StrToUl(buf, fields[Port].off);
        if v > 0xFFFF {
          return true;
        }
        port := v;
      }
      failed := false;
    }
  }

  lemma PortFirst(buf: string, parts: Parts)
    requires SplitOf(buf, parts) && Port in parts
    ensures parts[Port].off < |buf| && IsNum(buf[parts[Port].off])
  {
    assert PartChar(Port, buf[parts[Port].off]);
  }

  lemma {:induction false} ScanNone(buf: string, connect: bool, m: nat, n: nat)
    requires m <= n <= |buf| && Scan(buf, connect, m).None?
    ensures Scan(buf, connect, n).None?
    decreases n
  {
    hide UrlByte;
    if m < n { ScanNone(buf, connect, m, n - 1); }
  }

  lemma HostScanNothing(buf: string, parts: Parts, at: bool)
    requires Host in parts && parts[Host].off <= |buf|
    ensures HostScan(buf, parts, at, 0) == Some(FirstHostPass(parts, at))
  {
  }

  lemma HostScanStep(buf: string, parts: Parts, at: bool, n: nat, y: HostPass)
    requires Host in parts && 0 < n && parts[Host].off + n <= |buf| && HostScan(buf, parts, at, n - 1) == Some(y)
    ensures var i := parts[Host].off + n - 1; HostScan(buf, parts, at, n) == HostByte(y, buf[i], i)
  {
    hide HostByte;
  }

  lemma {:induction false} HostScanNone(buf: string, parts: Parts, at: bool, m: nat, n: nat)
    requires Host in parts && m <= n && parts[Host].off + n <= |buf| && HostScan(buf, parts, at, m).None?
    ensures HostScan(buf, parts, at, n).None?
    decreases n
  {
    hide HostByte;
    if m < n { HostScanNone(buf, parts, at, m, n - 1); }
  }

  lemma Replaced(a: Slice, b: Slice)
    ensures map[Host := a][Host := b] == map[Host := b]
  {
  }
}
