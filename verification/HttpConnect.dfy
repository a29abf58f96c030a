/** Which targets http_parser_parse_url accepts for CONNECT: "hostname:port" and, because
    some bytes set no field, a little more. */
module HttpConnect {
  import opened HttpTypes
  import opened HttpUrl

  // ----- The texts

  predicate AllHostChars(s: string) { forall i :: 0 <= i < |s| ==> IsHostChar(s[i]) }
  predicate AllV6Chars(s: string) { forall i :: 0 <= i < |s| ==> IsV6Char(s[i]) }
  predicate AllZoneChars(s: string) { forall i :: 0 <= i < |s| ==> IsZoneChar(s[i]) }
  predicate AllDigits(s: string) { forall i :: 0 <= i < |s| ==> IsNum(s[i]) }

  /** "%" and a zone. */
  predicate Zone(s: string) { |s| > 1 && s[0] == '%' && AllZoneChars(s[1..]) }

  /** An IPv6 address in brackets, perhaps with a zone. */
  ghost predicate Bracketed(h: string) {
    exists address, zone :: h == "[" + address + zone + "]" && IsAddress(address, zone)
  }

  predicate IsAddress(address: string, zone: string) {
    address != "" && AllV6Chars(address) && (zone == "" || Zone(zone))
  }

  ghost predicate HostName(h: string) { (h != "" && AllHostChars(h)) || Bracketed(h) }

  predicate PortNumber(p: string) { p != "" && AllDigits(p) && Decimal(p) <= 0xFFFF }

  /** Nothing, or "?" and any number of "#". */
  predicate EmptyTail(t: string) { t == "" || (t[0] == '?' && forall i :: 1 <= i < |t| ==> t[i] == '#') }

  /** hostname:port */
  ghost predicate HostAndPort(s: string) {
    exists host, port :: s == host + ":" + port && HostName(host) && PortNumber(port)
  }

  ghost predicate ConnectTarget(s: string) {
    exists at, name, tail ::
      s == at + name + tail && (at == "" || at == "@") && HostAndPort(name) && EmptyTail(tail)
  }

  // ----- The first pass

  predicate IsServerChar(c: char) { c == '@' || IsUserinfoChar(c) || c == '[' || c == ']' }

  /** What the first pass takes for a server. */
  predicate ServerText(s: string) {
    forall i :: 0 <= i < |s| ==> IsServerChar(s[i]) && (i > 0 ==> s[i] != '@' || s[i - 1] != '@')
  }

  /** The pass after n bytes of a server of k bytes and an empty tail. */
  function ServerPass(buf: string, k: nat, n: nat): Pass
    requires k <= n <= |buf|
  {
    Pass(if n > k + 1 then ReqFragmentStart else if n == k + 1 then ReqQueryStringStart
         else if k == 0 then ReqServerStart else if buf[k - 1] == '@' then ReqServerWithAt else ReqServer,
         if k == 0 then None else Some(Host), '@' in buf[..k], if k == 0 then map[] else map[Host := Slice(0, k)])
  }

  lemma ServerByte(s: TargetState, ch: char)
    requires s.ReqServerStart? || s.ReqServer? || s.ReqServerWithAt?
    ensures var t := ParseUrlChar(s, ch);
      if ch == '@' && s.ReqServerWithAt? then t.None?
      else if IsServerChar(ch) then t == Some(if ch == '@' then ReqServerWithAt else ReqServer)
      else if ch == '?' then t == Some(ReqQueryStringStart)
      else t.None? || t == Some(ReqPath)
  {
  }

  lemma TailByte(s: TargetState, ch: char)
    requires s.ReqQueryStringStart? || s.ReqFragmentStart?
    ensures var t := ParseUrlChar(s, ch);
      if ch == '#' then t == Some(ReqFragmentStart)
      else t.None? || t == Some(ReqQueryString) || t == Some(ReqFragment)
  {
  }

  /** The k bytes of a server, then an empty tail, up to n. */
  predicate Shape(buf: string, k: nat, n: nat)
    requires k <= n <= |buf|
  {
    ServerText(buf[..k]) && EmptyTail(buf[k..n])
  }

  lemma ServerLonger(buf: string, k: nat)
    requires k < |buf|
    ensures ServerText(buf[..k + 1]) <==>
      ServerText(buf[..k]) && IsServerChar(buf[k]) && (k > 0 ==> buf[k] != '@' || buf[k - 1] != '@')
    ensures '@' in buf[..k + 1] <==> '@' in buf[..k] || buf[k] == '@'
  {
    hide IsServerChar;
    assert buf[..k + 1] == buf[..k] + [buf[k]];
  }

  lemma TailLonger(buf: string, k: nat, n: nat)
    requires k <= n < |buf|
    ensures EmptyTail(buf[k..n + 1]) <==> EmptyTail(buf[k..n]) && buf[n] == if k == n then '?' else '#'
  {
    var t, u := buf[k..n], buf[k..n + 1];
    assert u == t + [buf[n]];
    if t != "" {
      assert u[0] == t[0] && u[|t|] == buf[n];
      assert forall i :: 1 <= i < |t| ==> u[i] == t[i];
    }
  }

  /** One byte of the first pass on such a text. */
  lemma ServerStep(buf: string, k: nat, n: nat)
    requires k <= n < |buf| && Shape(buf, k, n)
    ensures var r := UrlByte(ServerPass(buf, k, n), buf[n], n);
      if Shape(buf, k, n + 1) then r == Some(ServerPass(buf, k, n + 1))
      else if k == n && Shape(buf, n + 1, n + 1) then r == Some(ServerPass(buf, n + 1, n + 1))
      else r.None? || Path in r.value.parts || Query in r.value.parts || Fragment in r.value.parts
  {
    hide ParseUrlChar, ServerText, EmptyTail, IsServerChar;
    TailLonger(buf, k, n);
    if k == n {
      ServerLonger(buf, k);
      ServerByte(ServerPass(buf, k, n).s, buf[n]);
      EmptyAt(buf, n + 1);
      NoQuestionMark();
      if k > 0 { Replaced(Slice(0, k), Slice(0, k + 1)); }
    } else {
      TailByte(ServerPass(buf, k, n).s, buf[n]);
    }
  }

  lemma EmptyAt(buf: string, n: nat)
    requires n <= |buf|
    ensures EmptyTail(buf[n..n])
  {
  }

  lemma NoQuestionMark()
    ensures !IsServerChar('?')
  {
  }

  /** The first pass finds only a host, if anything, exactly in a server with an empty tail. */
  lemma {:induction false} ServerScan(buf: string, n: nat)
    requires n <= |buf|
    ensures forall k: nat :: k <= n && Shape(buf, k, n) ==> Scan(buf, true, n) == Some(ServerPass(buf, k, n))
    ensures var r := Scan(buf, true, n);
      r.Some? && Path !in r.value.parts && Query !in r.value.parts && Fragment !in r.value.parts ==>
        exists k: nat :: k <= n && Shape(buf, k, n)
  {
    hide Shape, ServerPass, UrlByte;
    if n == 0 {
      assert Shape(buf, 0, 0) by { ServerNothing(buf); }
      ServerNothing(buf);
    } else {
      ServerScan(buf, n - 1);
      forall k: nat | k <= n && Shape(buf, k, n) ensures Scan(buf, true, n) == Some(ServerPass(buf, k, n)) {
        ShapeBefore(buf, k, n);
        ServerStep(buf, if k < n then k else n - 1, n - 1);
      }
      var x, r := Scan(buf, true, n - 1), Scan(buf, true, n);
      if r.Some? && Path !in r.value.parts && Query !in r.value.parts && Fragment !in r.value.parts {
        FieldsStay(x.value, buf[n - 1], n - 1);
        var k: nat :| k <= n - 1 && Shape(buf, k, n - 1);
        ServerStep(buf, k, n - 1);
      }
    }
  }

  lemma FieldsStay(x: Pass, ch: char, i: nat)
    requires PassOk(x)
    ensures UrlByte(x, ch, i).Some? ==> forall k :: k in x.parts ==> k in UrlByte(x, ch, i).value.parts
  {
    hide ParseUrlChar;
  }

  lemma ShapeBefore(buf: string, k: nat, n: nat)
    requires 0 < n && k <= n <= |buf| && Shape(buf, k, n)
    ensures if k < n then Shape(buf, k, n - 1) else Shape(buf, n - 1, n - 1) && !Shape(buf, n - 1, n)
  {
    hide ServerText, EmptyTail, IsServerChar;
    if k < n {
      TailLonger(buf, k, n - 1);
    } else {
      ServerLonger(buf, n - 1);
      TailLonger(buf, n - 1, n - 1);
      EmptyAt(buf, n - 1);
      NoQuestionMark();
    }
  }

  lemma ServerNothing(buf: string)
    ensures Shape(buf, 0, 0) && ServerPass(buf, 0, 0) == FirstPass(true) && Scan(buf, true, 0) == Some(FirstPass(true))
  {
    assert buf[..0] == "" && buf[0..0] == "";
  }

  // ----- The second pass

  function HostRun(s: HostState, w: string): Option<HostState> {
    if w == "" then Some(s) else
    match HostRun(s, w[..|w| - 1])
    case None => None
    case Some(t) => HostChar(t, w[|w| - 1])
  }

  lemma {:induction false} RunMore(s: HostState, a: string, t: HostState, b: string)
    requires HostRun(s, a) == Some(t)
    ensures HostRun(s, a + b) == HostRun(t, b)
  {
    hide HostChar;
    if b == "" {
      assert a + b == a;
    } else {
      var k := |b| - 1;
      RunMore(s, a, t, b[..k]);
      assert (a + b)[..|a| + k] == a + b[..k];
    }
  }

  lemma RunOne(s: HostState, ch: char)
    ensures HostRun(s, [ch]) == HostChar(s, ch)
  {
    hide HostChar;
    assert [ch][..0] == "";
  }

  /** A state that stays as it is on these bytes. */
  lemma {:induction false} RunStays(s: HostState, w: string)
    requires forall i :: 0 <= i < |w| ==> HostChar(s, w[i]) == Some(s)
    ensures HostRun(s, w) == Some(s)
  {
    hide HostChar;
    if w != "" {
      RunStays(s, w[..|w| - 1]);
    }
  }

  /** First one byte, then those that change nothing. */
  lemma RunOneStays(s: HostState, ch: char, t: HostState, w: string)
    requires HostChar(s, ch) == Some(t) && forall i :: 0 <= i < |w| ==> HostChar(t, w[i]) == Some(t)
    ensures HostRun(s, [ch] + w) == Some(t)
  {
    hide HostChar;
    RunOne(s, ch);
    RunMore(s, [ch], t, w);
    RunStays(t, w);
  }

  predicate Named(s: HostState) { s.InHost? || s.V6End? }

  lemma BracketedRun(address: string, zone: string)
    requires IsAddress(address, zone)
    ensures HostRun(HostStart, "[" + address + zone + "]") == Some(V6End)
  {
    hide HostRun;
    RunOne(HostStart, '[');
    assert address == [address[0]] + address[1..];
    RunOneStays(V6Start, address[0], V6, address[1..]);
    RunMore(HostStart, "[", V6Start, address);
    var t := V6;
    if zone == "" {
      RunStays(V6, "");
    } else {
      t := V6Zone;
      assert zone == "%" + ([zone[1]] + zone[2..]);
      RunOne(V6, '%');
      RunOneStays(V6ZoneStart, zone[1], V6Zone, zone[2..]);
      RunMore(V6, "%", V6ZoneStart, [zone[1]] + zone[2..]);
    }
    RunMore(HostStart, "[" + address, V6, zone);
    RunOne(t, ']');
    RunMore(HostStart, "[" + address + zone, t, "]");
  }

  lemma NameRun(h: string)
    requires HostName(h)
    ensures HostRun(HostStart, h).Some? && Named(HostRun(HostStart, h).value)
  {
    hide HostRun;
    if Bracketed(h) {
      var address, zone :| h == "[" + address + zone + "]" && IsAddress(address, zone);
      BracketedRun(address, zone);
    } else {
      assert h == [h[0]] + h[1..];
      RunOneStays(HostStart, h[0], InHost, h[1..]);
    }
  }

  lemma PortRun(h: string, p: string)
    requires HostName(h) && p != "" && AllDigits(p)
    ensures HostRun(HostStart, h + ":" + p) == Some(InPort)
  {
    hide HostRun;
    NameRun(h);
    var t := HostRun(HostStart, h).value;
    RunOne(t, ':');
    RunMore(HostStart, h, t, ":");
    assert p == [p[0]] + p[1..];
    RunOneStays(PortStart, p[0], InPort, p[1..]);
    RunMore(HostStart, h + ":", PortStart, p);
  }

  /** The texts that lead from the start of a host into a state. */
  ghost predicate NameShape(s: HostState, w: string) {
    match s
    case UserinfoStart | Userinfo => false
    case HostStart => w == ""
    case InHost => w != "" && AllHostChars(w)
    case V6Start => w == "["
    case V6 => exists address :: w == "[" + address && IsAddress(address, "")
    case V6ZoneStart => exists address :: w == "[" + address + "%" && IsAddress(address, "")
    case V6Zone => exists address, zone :: w == "[" + address + zone && IsAddress(address, zone) && zone != ""
    case V6End => Bracketed(w)
    case PortStart => exists h :: w == h + ":" && HostName(h)
    case InPort => exists h, p :: w == h + ":" + p && HostName(h) && p != "" && AllDigits(p)
  }

  lemma BracketStep(s: HostState, w: string, ch: char)
    requires NameShape(s, w) && HostChar(s, ch).Some? && (s.V6Start? || s.V6? || s.V6ZoneStart? || s.V6Zone?)
    ensures NameShape(HostChar(s, ch).value, w + [ch])
  {
    match s
    case V6Start => assert w + [ch] == "[" + [ch] && IsAddress([ch], "");
    case V6 =>
      var address :| w == "[" + address && IsAddress(address, "");
      if ch == ']' {
        assert w + [ch] == "[" + address + "" + "]";
      } else if ch == '%' {
        assert w + [ch] == "[" + address + "%";
      } else {
        assert w + [ch] == "[" + (address + [ch]) && IsAddress(address + [ch], "");
      }
    case V6ZoneStart =>
      var address :| w == "[" + address + "%" && IsAddress(address, "");
      var zone := "%" + [ch];
      assert w + [ch] == "[" + address + zone && IsAddress(address, zone);
    case V6Zone =>
      var address, zone :| w == "[" + address + zone && IsAddress(address, zone) && zone != "";
      if ch == ']' {
        assert w + [ch] == "[" + address + zone + "]";
      } else {
        assert w + [ch] == "[" + address + (zone + [ch]);
        assert IsAddress(address, zone + [ch]);
      }
  }

  lemma NameStep(s: HostState, w: string, ch: char)
    requires NameShape(s, w) && HostChar(s, ch).Some?
    ensures NameShape(HostChar(s, ch).value, w + [ch])
  {
    match s
    case V6Start | V6 | V6ZoneStart | V6Zone => BracketStep(s, w, ch);
    case HostStart => assert w + [ch] == [ch];
    case InHost => if ch == ':' { assert HostName(w); }
    case V6End => assert HostName(w);
    case PortStart =>
      var h :| w == h + ":" && HostName(h);
      assert w + [ch] == h + ":" + [ch] && AllDigits([ch]);
    case InPort =>
      var h, p :| w == h + ":" + p && HostName(h) && p != "" && AllDigits(p);
      assert w + [ch] == h + ":" + (p + [ch]) && AllDigits(p + [ch]);
  }

  lemma {:induction false} RunShape(w: string)
    requires HostRun(HostStart, w).Some?
    ensures NameShape(HostRun(HostStart, w).value, w)
  {
    hide HostChar, NameShape;
    if w == "" {
      NoName();
    } else {
      RunShape(w[..|w| - 1]);
      NameStep(HostRun(HostStart, w[..|w| - 1]).value, w[..|w| - 1], w[|w| - 1]);
      assert w == w[..|w| - 1] + [w[|w| - 1]];
    }
  }

  lemma NoName()
    ensures NameShape(HostStart, "")
  {
  }

  function FirstState(at: bool): HostState { if at then UserinfoStart else HostStart }

  predicate RunsAs(x: Option<HostPass>, r: Option<HostState>) {
    match r
    case None => x.None?
    case Some(t) => x.Some? && x.value.s == t && (Port in x.value.parts <==> t.InPort?)
  }

  /** The second pass over a server at the front of the text runs through these states; it
      sets UserInfo unless the text begins with the '@' that made it look for one. */
  lemma {:induction false} ServerRun(buf: string, k: nat, at: bool, n: nat)
    requires n <= k <= |buf|
    ensures RunsAs(HostScan(buf, map[Host := Slice(0, k)], at, n), HostRun(FirstState(at), buf[..n]))
    ensures var x := HostScan(buf, map[Host := Slice(0, k)], at, n);
      x.Some? ==>
        (UserInfo in x.value.parts <==> at && n > 0 && buf[0] != '@') && (n > 0 ==> !x.value.s.UserinfoStart?)
  {
    hide HostChar;
    if n > 0 {
      ServerRun(buf, k, at, n - 1);
      assert buf[..n][..n - 1] == buf[..n - 1];
      var x := HostScan(buf, map[Host := Slice(0, k)], at, n - 1);
      if x.Some? { RunStep(x.value.s, buf[n - 1]); }
    }
  }

  lemma RunStep(s: HostState, ch: char)
    ensures HostChar(s, ch).Some? ==>
      var t := HostChar(s, ch).value;
      !t.UserinfoStart? && (s.InPort? ==> t.InPort?) && (t.Userinfo? ==> s.Userinfo? || s.UserinfoStart?) &&
      (s.UserinfoStart? ==> (t.Userinfo? <==> ch != '@'))
  {
  }

  /** What follows a leading '@' is read as a host. */
  lemma SkipAt(w: string)
    requires w != "" && w[0] == '@'
    ensures HostRun(UserinfoStart, w) == HostRun(HostStart, w[1..])
  {
    hide HostRun;
    RunOne(UserinfoStart, '@');
    RunMore(UserinfoStart, "@", HostStart, w[1..]);
    assert w == "@" + w[1..];
  }

  // ----- Both passes

  /** The server is split into an optional '@', a host name, a colon and digits. */
  ghost predicate ServerSplits(buf: string, k: nat)
    requires k <= |buf|
  {
    var at := '@' in buf[..k];
    HostRun(FirstState(at), buf[..k]) == Some(InPort) && (at ==> buf[0] == '@')
  }

  /** The fields after the second pass over such a server. */
  lemma SecondPass(buf: string, k: nat, at: bool)
    requires 0 < k <= |buf| && (at <==> '@' in buf[..k])
    ensures var y := HostScan(buf, map[Host := Slice(0, k)], at, k);
      if ServerSplits(buf, k) then y.Some? && y.value.s == InPort && y.value.parts.Keys == {Host, Port}
      else y.None? || !HostDone(y.value.s) || y.value.parts.Keys != {Host, Port}
  {
    hide HostScan, HostRun;
    var base: Parts := map[Host := Slice(0, k)];
    ServerRun(buf, k, at, k);
    HostScanFrame(buf, base, at, k);
    var y := HostScan(buf, base, at, k);
    if y.Some? {
      assert forall p: Part :: p in y.value.parts ==> p == Host || p == Port || p == UserInfo;
    }
  }

  lemma {:induction false} HostScanFrame(buf: string, base: Parts, at: bool, n: nat)
    requires HostBase(base) && base[Host].off + n <= |buf|
    ensures var r := HostScan(buf, base, at, n); r.Some? ==> HostFrame(base, r.value.parts)
  {
    hide HostByte;
    if n > 0 {
      HostScanFrame(buf, base, at, n - 1);
      var r, i := HostScan(buf, base, at, n - 1), base[Host].off + n - 1;
      if r.Some? && HostByte(r.value, buf[i], i).Some? {
        HostByteFrame(r.value, buf[i], i);
      }
    }
  }

  lemma FoundOnly(buf: string)
    requires PartsOf(buf, true).Some? && PartsOf(buf, true).value.Keys == {Host, Port}
    ensures var r := Scan(buf, true, |buf|);
      r.Some? && Host in r.value.parts &&
      Path !in r.value.parts && Query !in r.value.parts && Fragment !in r.value.parts
  {
    hide HostScan, Laid, Placed, Scan, HostByte;
    ScanLaid(buf, true, |buf|);
    var x := Scan(buf, true, |buf|).value;
    NoSecondParts(buf, x);
    if Host in x.parts {
      HostInside(buf, x.parts);
      HostScanFrame(buf, x.parts, x.at, x.parts[Host].len);
    }
  }

  lemma NoSecondParts(buf: string, x: Pass)
    requires Placed(buf, |buf|, x)
    ensures UserInfo !in x.parts && Port !in x.parts
  {
    hide Separated;
    ScanSeparated(buf, x);
  }

  /** The two passes find a host and a port and nothing else exactly in such a server with
      an empty tail. */
  lemma HostPortOnly(buf: string)
    ensures PartsOf(buf, true).Some? && PartsOf(buf, true).value.Keys == {Host, Port} <==>
      exists k: nat :: 0 < k <= |buf| && Shape(buf, k, |buf|) && ServerSplits(buf, k)
  {
    hide Shape, HostScan, Scan, ServerSplits;
    ServerScan(buf, |buf|);
    if PartsOf(buf, true).Some? && PartsOf(buf, true).value.Keys == {Host, Port} {
      FoundOnly(buf);
      var k: nat :| k <= |buf| && Shape(buf, k, |buf|);
      assert Scan(buf, true, |buf|) == Some(ServerPass(buf, k, |buf|));
      SecondPass(buf, k, ServerPass(buf, k, |buf|).at);
    }
    if k: nat :| 0 < k <= |buf| && Shape(buf, k, |buf|) && ServerSplits(buf, k) {
      assert Scan(buf, true, |buf|) == Some(ServerPass(buf, k, |buf|));
      SecondPass(buf, k, ServerPass(buf, k, |buf|).at);
    }
  }

  // ----- Accepted targets

  /** A host name, a colon and digits. */
  ghost predicate Spells(s: string, host: string, port: string) {
    s == host + ":" + port && HostName(host) && port != "" && AllDigits(port)
  }

  lemma SplitsForm(buf: string, k: nat) returns (at: string, host: string, port: string)
    requires 0 < k <= |buf| && ServerSplits(buf, k)
    ensures (at == "" || at == "@") && |at| <= k && buf[..k] == at + buf[|at|..k] && Spells(buf[|at|..k], host, port)
  {
    hide HostRun, HostName;
    at := if '@' in buf[..k] then "@" else "";
    if '@' in buf[..k] {
      SkipAt(buf[..k]);
      assert buf[..k][1..] == buf[1..k];
    } else {
      assert buf[0..k] == buf[..k];
    }
    RunShape(buf[|at|..k]);
    host, port :| buf[|at|..k] == host + ":" + port && HostName(host) && port != "" && AllDigits(port);
  }

  lemma FormSplits(buf: string, at: string, name: string, host: string, port: string, tail: string)
    requires buf == at + name + tail && (at == "" || at == "@") && Spells(name, host, port) && EmptyTail(tail)
    ensures var k := |at| + |name|;
      0 < k <= |buf| && buf[..k] == at + name && Shape(buf, k, |buf|) && ServerSplits(buf, k)
  {
    hide HostRun, HostName, EmptyTail;
    var k := |at| + |name|;
    assert buf[..k] == at + name && buf[k..|buf|] == tail;
    NameText(name, host, port);
    PortRun(host, port);
    if at == "@" {
      SkipAt(at + name);
      assert (at + name)[1..] == name;
    } else {
      assert at + name == name;
    }
  }

  /** Such a name has neither '@' nor '?' in it. */
  lemma NameText(name: string, host: string, port: string)
    requires Spells(name, host, port)
    ensures forall i :: 0 <= i < |name| ==> IsServerChar(name[i]) && name[i] != '@' && name[i] != '?'
  {
    hide IsServerChar, IsHostChar, IsV6Char, IsZoneChar, IsNum;
    forall ch | NameChar(ch) ensures IsServerChar(ch) && ch != '@' && ch != '?' { NameCharIs(ch); }
    forall ch ensures IsHostChar(ch) || IsV6Char(ch) || IsZoneChar(ch) || IsNum(ch) ==> NameChar(ch) {}
    HostNameText(host);
    forall i | 0 <= i < |name| ensures NameChar(name[i]) {
      if i < |host| {
        assert name[i] == host[i];
      } else if i > |host| {
        assert name[i] == port[i - |host| - 1];
      }
    }
  }

  predicate NameChar(ch: char) {
    IsHostChar(ch) || IsV6Char(ch) || IsZoneChar(ch) || IsNum(ch) || ch == '[' || ch == ']' || ch == ':' || ch == '%'
  }

  lemma NameCharIs(ch: char)
    requires NameChar(ch)
    ensures IsServerChar(ch) && ch != '@' && ch != '?'
  {
  }

  lemma HostNameText(host: string)
    requires HostName(host)
    ensures forall i :: 0 <= i < |host| ==> NameChar(host[i])
  {
    hide IsHostChar, IsV6Char, IsZoneChar, IsNum;
    if Bracketed(host) {
      var address, zone :| host == "[" + address + zone + "]" && IsAddress(address, zone);
      forall i | 0 <= i < |host| ensures NameChar(host[i]) {
        if 1 <= i <= |address| {
          assert host[i] == address[i - 1];
        } else if |address| < i <= |address| + |zone| {
          assert host[i] == zone[i - 1 - |address|];
          assert i - 1 - |address| > 0 ==> host[i] == zone[1..][i - 2 - |address|];
        }
      }
    }
  }

  /** The port field is the digits behind the last colon of the server. */
  lemma PortIs(buf: string, k: nat, at: string, host: string, port: string)
    requires 0 < k <= |buf| && Shape(buf, k, |buf|) && PartsOf(buf, true).Some?
    requires PartsOf(buf, true).value.Keys == {Host, Port}
    requires |at| <= k && buf[..k] == at + buf[|at|..k] && Spells(buf[|at|..k], host, port)
    ensures var q := PartsOf(buf, true).value[Port];
      EndOf(q) == k && DigitsEnd(buf, q.off) == k && buf[q.off..k] == port
  {
    hide Shape, HostScan, Scan, HostName, Laid, HostParts, Separated, HostSpelled, DigitsEnd, HostStarted, HostWhere,
      AllDigits, HostRun, SplitOf, Decimal;
    ServerScan(buf, |buf|);
    var base: Parts, x := map[Host := Slice(0, k)], ServerPass(buf, k, |buf|);
    HostScanLaid(buf, base, x.at, k);
    ServerRun(buf, k, x.at, k);
    var y := HostScan(buf, base, x.at, k).value;
    FieldsSound(buf, true);
    PortEnds(buf, y.parts);
    InPortEnds(buf, base, x.at, k, y);
    BehindColon(buf, y.parts);
    LastDigits(buf, k, |at|, host, port, y.parts[Port]);
  }

  lemma BehindColon(buf: string, parts: Parts)
    requires SplitOf(buf, parts) && Port in parts
    ensures 0 < parts[Port].off <= |buf| && buf[parts[Port].off - 1] == ':'
  {
    hide Laid, Separated, HostSpelled;
  }

  /** Digits up to k behind a colon are all digits up to k. */
  lemma LastDigits(buf: string, k: nat, from: nat, host: string, port: string, q: Slice)
    requires from <= k <= |buf| && buf[from..k] == host + ":" + port && AllDigits(port)
    requires EndOf(q) == k && 0 < q.off && buf[q.off - 1] == ':'
    requires forall i :: 0 <= i < q.len ==> IsNum(Text(buf, q)[i])
    ensures buf[q.off..k] == port
  {
    var o := k - |port|;
    assert buf[o - 1] == ':' by {
      assert buf[from..k][|host|] == ':';
    }
    forall i | o <= i < k ensures buf[i] == port[i - o] && IsNum(buf[i]) {
      assert buf[i] == buf[from..k][i - from];
    }
    forall i | q.off <= i < k ensures IsNum(buf[i]) {
      assert IsNum(Text(buf, q)[i - q.off]);
    }
  }

  lemma InPortEnds(buf: string, base: Parts, at: bool, n: nat, y: HostPass)
    requires HostBase(base) && base[Host].off + n <= |buf| && HostScan(buf, base, at, n) == Some(y)
    requires HostStarted(base[Host].off + n, y) && Port in y.parts && HostDone(y.s) && base[Host].off == 0
    requires RunsAs(Some(y), Some(y.s))
    ensures EndOf(y.parts[Port]) == n
  {
  }

  lemma AcceptedForm(buf: string)
    requires Accepted(buf, true)
    ensures ConnectTarget(buf)
  {
    hide Shape, ServerSplits, HostName, PartsOf, DigitsEnd, EmptyTail, AllDigits, SplitOf, Decimal;
    HostPortOnly(buf);
    var k: nat :| 0 < k <= |buf| && Shape(buf, k, |buf|) && ServerSplits(buf, k);
    var at, host, port := SplitsForm(buf, k);
    PortIs(buf, k, at, host, port);
    TailIs(buf, k);
    assert buf == at + buf[|at|..k] + buf[k..];
    assert PortNumber(port) && HostAndPort(buf[|at|..k]);
  }

  lemma FormAccepted(buf: string)
    requires ConnectTarget(buf)
    ensures Accepted(buf, true)
  {
    hide Shape, ServerSplits, HostName, PartsOf, DigitsEnd, EmptyTail, AllDigits, SplitOf, Decimal;
    var at, name, tail :| buf == at + name + tail && (at == "" || at == "@") && HostAndPort(name) && EmptyTail(tail);
    var host, port :| name == host + ":" + port && HostName(host) && PortNumber(port);
    FormSplits(buf, at, name, host, port, tail);
    HostPortOnly(buf);
    var k := |at| + |name|;
    assert buf[|at|..k] == name;
    PortIs(buf, k, at, host, port);
  }

  /** http_parser_parse_url accepts for CONNECT exactly: perhaps an '@', then hostname:port,
      then nothing or a '?' and any number of '#'. */
  lemma ConnectTargets(buf: string)
    ensures Accepted(buf, true) <==> ConnectTarget(buf)
  {
    hide Accepted, ConnectTarget;
    if Accepted(buf, true) { AcceptedForm(buf); }
    if ConnectTarget(buf) { FormAccepted(buf); }
  }

  lemma TailIs(buf: string, k: nat)
    requires k <= |buf| && Shape(buf, k, |buf|)
    ensures EmptyTail(buf[k..])
  {
    hide EmptyTail;
    assert buf[k..|buf|] == buf[k..];
  }

  /** An accepted target is "hostname:port" unless it begins with '@' or has a '?'. */
  lemma PlainConnectTargets(buf: string)
    requires Accepted(buf, true)
    ensures HostAndPort(buf) <==> buf[0] != '@' && '?' !in buf
  {
    hide Accepted, HostName;
    ConnectTargets(buf);
    var at, name, tail :| buf == at + name + tail && (at == "" || at == "@") && HostAndPort(name) && EmptyTail(tail);
    var host, port :| name == host + ":" + port && HostName(host) && PortNumber(port);
    NameText(name, host, port);
    TailFirst(at + name, tail);
    if buf[0] != '@' && '?' !in buf {
      assert buf == name;
    }
    if HostAndPort(buf) {
      var h, p :| buf == h + ":" + p && HostName(h) && PortNumber(p);
      NameText(buf, h, p);
    }
  }

  lemma TailFirst(s: string, tail: string)
    requires EmptyTail(tail)
    ensures tail != "" ==> '?' in s + tail
  {
    assert tail != "" ==> (s + tail)[|s|] == '?';
  }

  /** Two of the targets beyond hostname:port. */
  lemma ConnectWithAtSign()
    ensures Accepted("@h:1", true) && Accepted("h:1?#", true)
  {
    hide Accepted;
    assert "1"[..0] == "" && Decimal("1") == 1;
    assert HostName("h") && PortNumber("1") && "h:1" == "h" + ":" + "1";
    assert HostAndPort("h:1") && EmptyTail("") && EmptyTail("?#");
    assert "@h:1" == "@" + "h:1" + "" && "h:1?#" == "" + "h:1" + "?#";
    ConnectTargets("@h:1");
    ConnectTargets("h:1?#");
  }
}
