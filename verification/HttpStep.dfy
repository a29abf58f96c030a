/** One run of the `switch (CURRENT_STATE())` of http_parser_execute on one byte. */
module HttpStep {
  import opened HttpTypes

  function To(f: Fields, s: State): Fields { f.(state := s) }
  function Stay(f: Fields): Micro { Next(f, NOTHING) }
  function Goto(f: Fields, s: State): Micro { Next(To(f, s), NOTHING) }
  function Error(f: Fields, e: Errno): Micro
    requires e != OK
  {
    Fail(f.(errno := e))
  }
  /** STRICT_CHECK, then move on. */
  function Expect(ok: bool, f: Fields, s: State): Micro {
    if ok then Goto(f, s) else Error(f, StrictError)
  }
  function Inc(i: nat): nat { (i + 1) % 128 } // `index` is a 7-bit field

  function Switch(f: Fields, ch: char, unchecked: bool): Micro {
    match f.state
    case Start(s) => StartSwitch(f, s, ch)
    case StatusLine(s) => StatusLineSwitch(f, s, ch)
    case Method => MethodSwitch(f, ch)
    case Target(s) => TargetSwitch(f, s, ch)
    case Version(s) => VersionSwitch(f, s, ch)
    case Header(s) =>
      if s.HeaderFieldStart? || s.HeaderField? then FieldSwitch(f, s, ch) else ValueSwitch(f, s, ch, unchecked)
    case HeadersEnd(s) => HeadersEndSwitch(f, s, ch)
    case ChunkLine(s) => ChunkLineSwitch(f, s, ch)
    case Payload(s) => PayloadSwitch(f, s, ch)
  }

  // ----- Start of a message

  function Fresh(f: Fields): Fields { f.(flags := NO_FLAGS, contentLength := NO_LENGTH) }

  function StartSwitch(f: Fields, s: StartState, ch: char): Micro {
    match s
    case StartReqOrRes =>
      if IsLineEnd(ch) then Stay(f)
      else if ch == 'H' then Next(To(Fresh(f), Start(ResOrRespH)), Notifying(MessageBegin))
      else Again(To(Fresh(f), Start(StartReq)).(kind := Request), NOTHING)
    case ResOrRespH =>
      if ch == 'T' then Goto(f.(kind := Response), StatusLine(ResHT))
      else if ch == 'E' then Goto(f.(kind := Request, meth := HTTP_HEAD, index := 2), Method)
      else Error(f, InvalidConstant)
    case StartRes =>
      if ch == 'H' then Next(To(Fresh(f), StatusLine(ResH)), Notifying(MessageBegin))
      else if IsLineEnd(ch) then Next(Fresh(f), Notifying(MessageBegin))
      else Error(Fresh(f), InvalidConstant)
    case StartReq =>
      if IsLineEnd(ch) then Stay(f)
      else if !IsAlpha(ch) then Error(Fresh(f), InvalidMethod)
      else if FirstMethod(ch).None? then Error(Fresh(f).(meth := 0, index := 1), InvalidMethod)
      else Next(To(Fresh(f), Method).(meth := FirstMethod(ch).value, index := 1), Notifying(MessageBegin))
    case _ => // s_dead
      if IsLineEnd(ch) then Stay(f) else Error(f, ClosedConnection)
  }

  /** The method assumed after its first letter. */
  function FirstMethod(ch: char): Option<nat> {
    if ch == 'A' then Some(19) else if ch == 'B' then Some(16) else if ch == 'C' then Some(5)
    else if ch == 'D' then Some(0) else if ch == 'G' then Some(1) else if ch == 'H' then Some(2)
    else if ch == 'L' then Some(9) else if ch == 'M' then Some(10) else if ch == 'N' then Some(25)
    else if ch == 'O' then Some(6) else if ch == 'P' then Some(3) else if ch == 'R' then Some(20)
    else if ch == 'S' then Some(26) else if ch == 'T' then Some(7) else if ch == 'U' then Some(15)
    else None
  }

  /** The 18 places where a byte changes the guess (the XX table). */
  function Reguess(m: nat, pos: nat, ch: char): Option<nat> {
    if m == 3 && pos == 1 && ch == 'U' then Some(4)
    else if m == 3 && pos == 1 && ch == 'A' then Some(28)
    else if m == 3 && pos == 1 && ch == 'R' then Some(12)
    else if m == 4 && pos == 2 && ch == 'R' then Some(29)
    else if m == 5 && pos == 1 && ch == 'H' then Some(22)
    else if m == 5 && pos == 2 && ch == 'P' then Some(8)
    else if m == 10 && pos == 1 && ch == 'O' then Some(11)
    else if m == 10 && pos == 1 && ch == 'E' then Some(23)
    else if m == 10 && pos == 1 && ch == '-' then Some(24)
    else if m == 10 && pos == 2 && ch == 'A' then Some(21)
    else if m == 10 && pos == 3 && ch == 'A' then Some(30)
    else if m == 26 && pos == 1 && ch == 'E' then Some(14)
    else if m == 20 && pos == 2 && ch == 'B' then Some(17)
    else if m == 12 && pos == 4 && ch == 'P' then Some(13)
    else if m == 9 && pos == 1 && ch == 'I' then Some(31)
    else if m == 15 && pos == 2 && ch == 'S' then Some(27)
    else if m == 15 && pos == 2 && ch == 'B' then Some(18)
    else if m == 15 && pos == 3 && ch == 'I' then Some(32)
    else None
  }

  function MethodSwitch(f: Fields, ch: char): Micro {
    if f.meth >= METHOD_COUNT then Abort else
    var matcher := MethodName(f.meth);
    if ch == '\0' then Error(f, InvalidMethod)
    else if ch == ' ' && CharAt(matcher, f.index) == '\0'
    then Goto(f.(index := Inc(f.index)), Target(ReqSpacesBeforeUrl))
    else if ch == CharAt(matcher, f.index) then Stay(f.(index := Inc(f.index)))
    else if ('A' <= ch <= 'Z' || ch == '-') && Reguess(f.meth, f.index, ch).Some?
    then Stay(f.(meth := Reguess(f.meth, f.index, ch).value, index := Inc(f.index)))
    else Error(f, InvalidMethod)
  }

  // ----- Status line

  function StatusLineSwitch(f: Fields, s: StatusLineState, ch: char): Micro {
    match s
    case ResH => Expect(ch == 'T', f, StatusLine(ResHT))
    case ResHT => Expect(ch == 'T', f, StatusLine(ResHTT))
    case ResHTT => Expect(ch == 'P', f, StatusLine(ResHTTP))
    case ResHTTP => Expect(ch == '/', f, StatusLine(ResHttpMajor))
    case ResHttpMajor => if IsNum(ch) then Goto(f.(major := Digit(ch)), StatusLine(ResHttpDot)) else Error(f, InvalidVersion)
    case ResHttpDot => if ch == '.' then Goto(f, StatusLine(ResHttpMinor)) else Error(f, InvalidVersion)
    case ResHttpMinor => if IsNum(ch) then Goto(f.(minor := Digit(ch)), StatusLine(ResHttpEnd)) else Error(f, InvalidVersion)
    case ResHttpEnd => if ch == ' ' then Goto(f, StatusLine(ResFirstStatusCode)) else Error(f, InvalidVersion)
    case ResFirstStatusCode =>
      if IsNum(ch) then Goto(f.(statusCode := Digit(ch)), StatusLine(ResStatusCode))
      else if ch == ' ' then Stay(f) else Error(f, InvalidStatus)
    case ResStatusCode =>
      if IsNum(ch) then
        var g := f.(statusCode := f.statusCode * 10 + Digit(ch));
        if g.statusCode > 999 then Error(g, InvalidStatus) else Stay(g)
      else if ch == ' ' then Goto(f, StatusLine(ResStatusStart))
      else if IsLineEnd(ch) then Again(To(f, StatusLine(ResStatusStart)), NOTHING)
      else Error(f, InvalidStatus)
    case ResStatusStart =>
      var g := To(f, StatusLine(ResStatus)).(index := 0);
      if IsLineEnd(ch) then Again(g, Marking(Status)) else Next(g, Marking(Status))
    case ResStatus =>
      if ch == '\r' then Next(To(f, StatusLine(ResLineAlmostDone)), Flushing(Status))
      else if ch == '\n' then Next(To(f, Header(HeaderFieldStart)), Flushing(Status))
      else Stay(f)
    case _ => // s_res_line_almost_done
      Expect(ch == '\n', f, Header(HeaderFieldStart))
  }

  // ----- Request target and version

  function TargetSwitch(f: Fields, s: TargetState, ch: char): Micro {
    match s
    case ReqSpacesBeforeUrl =>
      if ch == ' ' then Stay(f) else
      var from := if f.meth == HTTP_CONNECT then ReqServerStart else ReqSpacesBeforeUrl;
      UrlByte(f, ParseUrlChar(from, ch), Marking(Url))
    case ReqSchema | ReqSchemaSlash | ReqSchemaSlashSlash | ReqServerStart =>
      if ch == ' ' || IsLineEnd(ch) then Error(f, InvalidUrl) else UrlByte(f, ParseUrlChar(s, ch), NOTHING)
    case _ =>
      if ch == ' ' then Next(To(f, Version(ReqHttpStart)), Flushing(Url))
      else if IsLineEnd(ch) then
        Next(To(f, if ch == '\r' then Version(ReqLineAlmostDone) else Header(HeaderFieldStart)).(major := 0, minor := 9),
             Flushing(Url))
      else UrlByte(f, ParseUrlChar(s, ch), NOTHING)
  }

  function UrlByte(f: Fields, t: Option<TargetState>, act: Act): Micro {
    if t.None? then Error(To(f, Start(Dead)), InvalidUrl) else Next(To(f, Target(t.value)), act)
  }

  function VersionSwitch(f: Fields, s: VersionState, ch: char): Micro {
    match s
    case ReqHttpStart =>
      if ch == 'H' then Goto(f, Version(ReqHttpH)) else if ch == ' ' then Stay(f) else Error(f, InvalidConstant)
    case ReqHttpH => Expect(ch == 'T', f, Version(ReqHttpHT))
    case ReqHttpHT => Expect(ch == 'T', f, Version(ReqHttpHTT))
    case ReqHttpHTT => Expect(ch == 'P', f, Version(ReqHttpHTTP))
    case ReqHttpHTTP => Expect(ch == '/', f, Version(ReqHttpMajor))
    case ReqHttpMajor => if IsNum(ch) then Goto(f.(major := Digit(ch)), Version(ReqHttpDot)) else Error(f, InvalidVersion)
    case ReqHttpDot => if ch == '.' then Goto(f, Version(ReqHttpMinor)) else Error(f, InvalidVersion)
    case ReqHttpMinor => if IsNum(ch) then Goto(f.(minor := Digit(ch)), Version(ReqHttpEnd)) else Error(f, InvalidVersion)
    case ReqHttpEnd =>
      if ch == '\r' then Goto(f, Version(ReqLineAlmostDone))
      else if ch == '\n' then Goto(f, Header(HeaderFieldStart)) else Error(f, InvalidVersion)
    case _ => // s_req_line_almost_done
      if ch == '\n' then Goto(f, Header(HeaderFieldStart)) else Error(f, LfExpected)
  }

  // ----- Header fields

  /** Matching of a known header name or value, one byte further. */
  function MatchWord(f: Fields, word: string, c: char, stay: HeaderState, hit: HeaderState, miss: HeaderState): Fields {
    var i := Inc(f.index);
    f.(index := i,
       hs := if i > |word| || c != CharAt(word, i) then miss
             else if i + 1 == |word| then hit
             else stay)
  }

  /** The inner switch of s_header_field; None is `assert(0 && "Unknown header_state")`. */
  function FieldByte(f: Fields, ch: char): Option<Fields> {
    var c := Token(ch);
    match f.hs
    case General => Some(f)
    case HC => Some(f.(index := Inc(f.index), hs := if c == 'o' then HCO else General))
    case HCO => Some(f.(index := Inc(f.index), hs := if c == 'n' then HCON else General))
    case HCON => Some(f.(index := Inc(f.index), hs := if c == 'n' then MatchingConnection
                                                    else if c == 't' then MatchingContentLength else General))
    case MatchingConnection => Some(MatchWord(f, "connection", c, f.hs, HConnection, General))
    case MatchingProxyConnection => Some(MatchWord(f, "proxy-connection", c, f.hs, HConnection, General))
    case MatchingContentLength => Some(MatchWord(f, "content-length", c, f.hs, HContentLength, General))
    case MatchingTransferEncoding => Some(MatchWord(f, "transfer-encoding", c, f.hs, HTransferEncoding, General))
    case MatchingUpgrade => Some(MatchWord(f, "upgrade", c, f.hs, HUpgrade, General))
    case HConnection | HContentLength | HTransferEncoding | HUpgrade =>
      Some(if ch != ' ' then f.(hs := General) else f)
    case _ => None
  }

  function FieldSwitch(f: Fields, s: HeaderPosition, ch: char): Micro {
    if s.HeaderFieldStart? then
      if ch == '\r' then Goto(f, HeadersEnd(HeadersAlmostDone))
      else if ch == '\n' then Again(To(f, HeadersEnd(HeadersAlmostDone)), NOTHING)
      else if Token(ch) == '\0' then Error(f, InvalidHeaderToken)
      else
        var c := Token(ch);
        Next(To(f, Header(HeaderField)).(index := 0,
                                 hs := if c == 'c' then HC else if c == 'p' then MatchingProxyConnection
                                       else if c == 't' then MatchingTransferEncoding
                                       else if c == 'u' then MatchingUpgrade else General),
             Marking(Field))
    else if Token(ch) != '\0' then
      var g := FieldByte(f, ch);
      if g.None? then Abort else Stay(g.value)
    else if ch == ':' then Next(To(f, Header(HeaderValueDiscardWs)), Flushing(Field))
    else Error(f, InvalidHeaderToken)
  }

  // ----- Header values

  /** F_CONNECTION_* and F_CHUNKED set at the end of a value. */
  function Finished(f: Fields): Fields {
    match f.hs
    case ConnectionKeepAlive => f.(flags := f.flags.(keepAlive := true))
    case ConnectionClose => f.(flags := f.flags.(close := true))
    case TransferEncodingChunked => f.(flags := f.flags.(chunked := true))
    case ConnectionUpgrade => f.(flags := f.flags.(connectionUpgrade := true))
    case _ => f
  }

  /** s_header_value_start */
  function ValueStart(f: Fields, ch: char): Micro {
    var c := Lower(ch);
    var g := To(f, Header(HeaderValue)).(index := 0);
    var act := Marking(Value);
    match f.hs
    case HUpgrade => Next(g.(flags := g.flags.(upgrade := true), hs := General), act)
    case HTransferEncoding => Next(g.(hs := if c == 'c' then MatchingTransferEncodingChunked else General), act)
    case HContentLength =>
      if !IsNum(ch) then Error(g, InvalidContentLength)
      else if g.flags.contentLength then Error(g, UnexpectedContentLength)
      else Next(g.(flags := g.flags.(contentLength := true), contentLength := Digit(ch)), act)
    case HConnection =>
      Next(g.(hs := if c == 'k' then MatchingConnectionKeepAlive else if c == 'c' then MatchingConnectionClose
                    else if c == 'u' then MatchingConnectionUpgrade else MatchingConnectionToken), act)
    case MatchingConnectionTokenStart => Next(g, act)
    case _ => Next(g.(hs := General), act)
  }

  datatype ValueByteResult = Scanned(f: Fields) | BadLength | Unreachable

  /** The inner switch of s_header_value. */
  function ValueByte(f: Fields, ch: char): ValueByteResult {
    var c := Lower(ch);
    match f.hs
    case General => Scanned(f)
    case HConnection | HTransferEncoding => Unreachable
    case HContentLength =>
      if ch == ' ' then Scanned(f)
      else if !IsNum(ch) then BadLength
      else if (NO_LENGTH - 10) / 10 < f.contentLength then BadLength
      else Scanned(f.(contentLength := (f.contentLength * 10 + Digit(ch)) % U64))
    case MatchingTransferEncodingChunked =>
      Scanned(MatchWord(f, "chunked", c, f.hs, TransferEncodingChunked, General))
    case MatchingConnectionTokenStart =>
      Scanned(f.(hs := if c == 'k' then MatchingConnectionKeepAlive else if c == 'c' then MatchingConnectionClose
                       else if c == 'u' then MatchingConnectionUpgrade
                       else if Token(c) != '\0' then MatchingConnectionToken
                       else if c == ' ' || c == '\t' then f.hs else General))
    case MatchingConnectionKeepAlive =>
      Scanned(MatchWord(f, "keep-alive", c, f.hs, ConnectionKeepAlive, MatchingConnectionToken))
    case MatchingConnectionClose =>
      Scanned(MatchWord(f, "close", c, f.hs, ConnectionClose, MatchingConnectionToken))
    case MatchingConnectionUpgrade =>
      Scanned(MatchWord(f, "upgrade", c, f.hs, ConnectionUpgrade, MatchingConnectionToken))
    case MatchingConnectionToken =>
      Scanned(if ch == ',' then f.(hs := MatchingConnectionTokenStart, index := 0) else f)
    case TransferEncodingChunked => Scanned(if ch != ' ' then f.(hs := General) else f)
    case ConnectionKeepAlive | ConnectionClose | ConnectionUpgrade =>
      Scanned(if ch == ',' then Finished(f).(hs := MatchingConnectionTokenStart, index := 0)
              else if ch != ' ' then f.(hs := MatchingConnectionToken) else f)
    case _ => Scanned(f.(hs := General))
  }

  function ValueSwitch(f: Fields, s: HeaderPosition, ch: char, unchecked: bool): Micro {
    match s
    case HeaderValueDiscardWs =>
      if ch == ' ' || ch == '\t' then Stay(f)
      else if ch == '\r' then Goto(f, Header(HeaderValueDiscardWsAlmostDone))
      else if ch == '\n' then Goto(f, Header(HeaderValueDiscardLws))
      else ValueStart(f, ch)
    case HeaderValueStart => ValueStart(f, ch)
    case HeaderValue =>
      if ch == '\r' then Next(To(f, Header(HeaderAlmostDone)), Flushing(Value))
      else if ch == '\n' then Again(To(f, Header(HeaderAlmostDone)), Flushing(Value))
      else if !unchecked && !f.lenient && !IsHeaderChar(ch) then Error(f, InvalidHeaderToken)
      else (match ValueByte(f, ch)
            case Scanned(g) => Stay(g)
            case BadLength => Error(f, InvalidContentLength)
            case Unreachable => Abort)
    case HeaderAlmostDone => if ch == '\n' then Goto(f, Header(HeaderValueLws)) else Error(f, LfExpected)
    case HeaderValueLws =>
      if ch == ' ' || ch == '\t' then Again(To(f, Header(HeaderValueStart)), NOTHING)
      else Again(To(Finished(f), Header(HeaderFieldStart)), NOTHING)
    case HeaderValueDiscardWsAlmostDone => Expect(ch == '\n', f, Header(HeaderValueDiscardLws))
    case _ => // s_header_value_discard_lws
      if ch == ' ' || ch == '\t' then Goto(f, Header(HeaderValueDiscardWs))
      else Again(To(Finished(f), Header(HeaderFieldStart)), Act(Some(Value), Some(Value), false, false, None))
  }

  // ----- End of the headers

  function HeadersEndSwitch(f: Fields, s: HeadersEndState, ch: char): Micro {
    if ch != '\n' then Error(f, StrictError)
    else if s.HeadersAlmostDone? then
      if f.flags.trailing then Again(To(f, Payload(MessageDone)), Notifying(ChunkComplete))
      else if f.flags.chunked && f.flags.contentLength then Error(f, UnexpectedContentLength)
      else
        var up := if f.flags.upgrade && f.flags.connectionUpgrade
                  then f.kind == Request || f.statusCode == 101
                  else f.meth == HTTP_CONNECT;
        Again(To(f, HeadersEnd(HeadersDone)).(upgrade := up), Notifying(HeadersComplete))
    else
      var hasBody := f.flags.chunked || (f.contentLength > 0 && f.contentLength != NO_LENGTH);
      var done := To(f, NewMessage(f));
      if f.upgrade && (f.meth == HTTP_CONNECT || f.flags.skipBody || !hasBody)
      then Exit(done, ResetNotifying(MessageComplete))
      else if f.flags.skipBody then Next(done, ResetNotifying(MessageComplete))
      else if f.flags.chunked then Next(To(f, ChunkLine(ChunkSizeStart)), RESET)
      else if f.contentLength == 0 then Next(done, ResetNotifying(MessageComplete))
      else if f.contentLength != NO_LENGTH then Next(To(f, Payload(BodyIdentity)), RESET)
      else if !NeedsEof(f) then Next(done, ResetNotifying(MessageComplete))
      else Next(To(f, Payload(BodyIdentityEof)), RESET)
  }

  // ----- Bodies

  function ChunkLineSwitch(f: Fields, s: ChunkLineState, ch: char): Micro {
    if !f.flags.chunked then Abort else // assert(parser->flags & F_CHUNKED)
    match s
    case ChunkSizeStart =>
      if Unhex(ch) < 0 then Error(f, InvalidChunkSize)
      else Goto(f.(contentLength := Unhex(ch)), ChunkLine(ChunkSize))
    case ChunkSize =>
      if ch == '\r' then Goto(f, ChunkLine(ChunkSizeAlmostDone))
      else if Unhex(ch) < 0 then
        if ch == ';' || ch == ' ' then Goto(f, ChunkLine(ChunkParameters)) else Error(f, InvalidChunkSize)
      else if (NO_LENGTH - 16) / 16 < f.contentLength then Error(f, InvalidContentLength)
      else Stay(f.(contentLength := (f.contentLength * 16 + Unhex(ch)) % U64))
    case ChunkParameters => if ch == '\r' then Goto(f, ChunkLine(ChunkSizeAlmostDone)) else Stay(f)
    case _ => // s_chunk_size_almost_done
      if ch != '\n' then Error(f, StrictError)
      else if f.contentLength == 0
      then Next(To(f, Header(HeaderFieldStart)).(flags := f.flags.(trailing := true)), ResetNotifying(ChunkHeader))
      else Next(To(f, Payload(ChunkData)), ResetNotifying(ChunkHeader))
  }

  /** The body states on a single byte; their block forms are in `Execute`. */
  function PayloadSwitch(f: Fields, s: PayloadState, ch: char): Micro {
    match s
    case ChunkData =>
      if !f.flags.chunked || f.contentLength == 0 || f.contentLength == NO_LENGTH then Abort
      else
        var g := if f.contentLength == 1 then To(f, Payload(ChunkDataAlmostDone)) else f;
        Next(g.(contentLength := f.contentLength - 1), Marking(Body))
    case ChunkDataAlmostDone =>
      if !f.flags.chunked || f.contentLength != 0 then Abort
      else if ch != '\r' then Error(f, StrictError)
      else Next(To(f, Payload(ChunkDataDone)), Flushing(Body))
    case ChunkDataDone =>
      if !f.flags.chunked then Abort
      else if ch != '\n' then Error(f, StrictError)
      else Next(To(f, ChunkLine(ChunkSizeStart)), ResetNotifying(ChunkComplete))
    case BodyIdentity =>
      if f.contentLength == 0 || f.contentLength == NO_LENGTH then Abort
      else if f.contentLength == 1
      then Again(To(f, Payload(MessageDone)).(contentLength := 0), Act(Some(Body), Some(Body), true, false, None))
      else Next(f.(contentLength := f.contentLength - 1), Marking(Body))
    case BodyIdentityEof => Next(f, Marking(Body))
    case _ => // s_message_done
      var done := To(f, NewMessage(f));
      if f.upgrade then Exit(done, Notifying(MessageComplete)) else Next(done, Notifying(MessageComplete))
  }
}
