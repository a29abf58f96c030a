/** The data of http_parser.c: parser fields, character classes, actions and
    callbacks.  Bytes are modelled as characters; strict mode (the default of
    http_parser.h) is assumed throughout. */
module HttpTypes {
  datatype Option<+T> = None | Some(value: T)

  const HTTP_MAX_HEADER_SIZE: nat := 81920
  const U32: nat := 0x1_0000_0000
  const U64: nat := 0x1_0000_0000_0000_0000
  /** The sentinel ULLONG_MAX: no Content-Length seen. */
  const NO_LENGTH: nat := U64 - 1

  /** enum state, grouped by the part of a message it belongs to. */
  datatype State =
    | Start(start: StartState)
    | StatusLine(status: StatusLineState)
    | Method // s_req_method
    | Target(target: TargetState)
    | Version(version: VersionState)
    | Header(header: HeaderPosition)
    | HeadersEnd(end: HeadersEndState)
    | ChunkLine(line: ChunkLineState)
    | Payload(payload: PayloadState)

  datatype StartState = Dead | StartReqOrRes | ResOrRespH | StartRes | StartReq

  datatype StatusLineState =
    | ResH | ResHT | ResHTT | ResHTTP | ResHttpMajor | ResHttpDot | ResHttpMinor | ResHttpEnd
    | ResFirstStatusCode | ResStatusCode | ResStatusStart | ResStatus | ResLineAlmostDone

  datatype TargetState =
    | ReqSpacesBeforeUrl
    | ReqSchema | ReqSchemaSlash | ReqSchemaSlashSlash | ReqServerStart | ReqServer | ReqServerWithAt
    | ReqPath | ReqQueryStringStart | ReqQueryString | ReqFragmentStart | ReqFragment

  datatype VersionState =
    | ReqHttpStart | ReqHttpH | ReqHttpHT | ReqHttpHTT | ReqHttpHTTP
    | ReqHttpMajor | ReqHttpDot | ReqHttpMinor | ReqHttpEnd | ReqLineAlmostDone

  datatype HeaderPosition =
    | HeaderFieldStart | HeaderField | HeaderValueDiscardWs | HeaderValueDiscardWsAlmostDone
    | HeaderValueDiscardLws | HeaderValueStart | HeaderValue | HeaderValueLws | HeaderAlmostDone

  datatype HeadersEndState = HeadersAlmostDone | HeadersDone

  datatype ChunkLineState = ChunkSizeStart | ChunkSize | ChunkParameters | ChunkSizeAlmostDone

  datatype PayloadState =
    | ChunkData | ChunkDataAlmostDone | ChunkDataDone | BodyIdentity | BodyIdentityEof | MessageDone

  datatype HeaderState =
    | General | HC | HCO | HCON
    | MatchingConnection | MatchingProxyConnection | MatchingContentLength
    | MatchingTransferEncoding | MatchingUpgrade
    | HConnection | HContentLength | HTransferEncoding | HUpgrade
    | MatchingTransferEncodingChunked | MatchingConnectionTokenStart | MatchingConnectionKeepAlive
    | MatchingConnectionClose | MatchingConnectionUpgrade | MatchingConnectionToken
    | TransferEncodingChunked | ConnectionKeepAlive | ConnectionClose | ConnectionUpgrade

  datatype Kind = Request | Response | Both

  datatype Errno =
    | OK | InvalidEofState | HeaderOverflow | ClosedConnection | InvalidVersion | InvalidStatus
    | InvalidMethod | InvalidUrl | LfExpected | InvalidHeaderToken | InvalidContentLength
    | UnexpectedContentLength | InvalidChunkSize | InvalidConstant | StrictError

  /** The F_* bits of `parser->flags`. */
  datatype Flags = Flags(chunked: bool, keepAlive: bool, close: bool, connectionUpgrade: bool,
                         trailing: bool, upgrade: bool, skipBody: bool, contentLength: bool)

  const NO_FLAGS := Flags(false, false, false, false, false, false, false, false)

  /** struct http_parser, except `nread`, which is kept beside it because it is
      the one field that depends on how the stream was cut. */
  datatype Fields = Fields(kind: Kind, flags: Flags, state: State, hs: HeaderState, index: nat,
                           lenient: bool, contentLength: nat, major: nat, minor: nat,
                           statusCode: nat, meth: nat, errno: Errno, upgrade: bool)

  /** The callbacks that carry bytes, and those that do not. */
  datatype DataKind = Url | Status | Field | Value | Body
  datatype Notice = MessageBegin | HeadersComplete | MessageComplete | ChunkHeader | ChunkComplete

  /** What one run of the switch asks for besides changing fields, in this order:
      set a mark, run a data callback that ends before (or, with `plus`, after) the
      current byte, reset `nread`, run a notification. */
  datatype Act = Act(mark: Option<DataKind>, flush: Option<DataKind>, plus: bool, reset: bool, note: Option<Notice>)

  const NOTHING := Act(None, None, false, false, None)
  const RESET := Act(None, None, false, true, None)
  function Marking(k: DataKind): Act { Act(Some(k), None, false, false, None) }
  function Flushing(k: DataKind): Act { Act(None, Some(k), false, false, None) }
  function Notifying(n: Notice): Act { Act(None, None, false, false, Some(n)) }
  function ResetNotifying(n: Notice): Act { Act(None, None, false, true, Some(n)) }

  /** One run of the switch: leave it and consume the byte, REEXECUTE, consume
      the byte and return to the caller (upgrade), fail, or hit `assert(0)`. */
  datatype Micro =
    | Next(f: Fields, act: Act)
    | Again(f: Fields, act: Act)
    | Exit(f: Fields, act: Act)
    | Fail(f: Fields)
    | Abort

  // ----- Callbacks as the application sees them

  datatype Callback = DataCb(k: DataKind, bytes: string) | NoticeCb(n: Notice)

  /** One byte handed over by a data callback, or one notification.  A sequence of
      these is a callback sequence with adjacent data callbacks of one kind merged
      and empty ones dropped. */
  datatype Event = Byte(k: DataKind, b: char) | Note(n: Notice)

  function Bytes(k: DataKind, s: string): (r: seq<Event>)
    ensures |r| == |s| && forall i :: 0 <= i < |s| ==> r[i] == Byte(k, s[i])
  {
    seq(|s|, i requires 0 <= i < |s| => Byte(k, s[i]))
  }

  function Flat(log: seq<Callback>): seq<Event> {
    if log == [] then [] else
      Flat(log[..|log| - 1]) +
      match log[|log| - 1]
      case DataCb(k, s) => Bytes(k, s)
      case NoticeCb(n) => [Note(n)]
  }

  // ----- Character classes (strict mode)

  /** `(unsigned char)(c | 0x20)` on a byte. */
  function Lower(c: char): char {
    var i := c as int;
    if i < 256 && (i / 32) % 2 == 0 then (i + 32) as char else c
  }

  predicate IsAlpha(c: char) { 'a' <= c <= 'z' || 'A' <= c <= 'Z' }
  predicate IsNum(c: char) { '0' <= c <= '9' }
  predicate IsAlphaNum(c: char) { IsAlpha(c) || IsNum(c) }
  predicate IsHexLetter(c: char) { 'a' <= c <= 'f' || 'A' <= c <= 'F' }
  predicate IsMark(c: char) {
    c == '-' || c == '_' || c == '.' || c == '!' || c == '~' || c == '*' || c == '\'' || c == '(' || c == ')'
  }
  predicate IsUserinfoChar(c: char) { 
    IsAlphaNum(c) || IsMark(c) ||
    c == '%' || c == ';' || c == ':' || c == '&' || c == '=' || c == '+' || c == '$' || c == ','
  }
  predicate IsHostChar(c: char) { IsAlphaNum(c) || c == '.' || c == '-' }
  predicate IsUrlChar(c: char) { '!' <= c <= '~' && c != '#' && c != '?' }
  predicate IsLineEnd(c: char) { c == '\r' || c == '\n' }
  predicate IsHeaderChar(c: char) { IsLineEnd(c) || c == '\t' || ((c as int) > 31 && (c as int) != 127) }

  predicate IsTokenMark(c: char) {
    c == '!' || c == '#' || c == '$' || c == '%' || c == '&' || c == '\'' || c == '*' || c == '+' ||
    c == '-' || c == '.' || c == '^' || c == '_' || c == '`' || c == '|' || c == '~'
  }

  /** The `tokens` table: the lower-cased token character, or NUL. */
  function Token(c: char): char {
    if 'A' <= c <= 'Z' then Lower(c)
    else if 'a' <= c <= 'z' || IsNum(c) || IsTokenMark(c) then c
    else '\0'
  }

  function Digit(c: char): nat
    requires IsNum(c)
  {
    (c as int) - ('0' as int)
  }

  /** The value of a digit string. */
  function Decimal(s: string): nat
    requires forall i :: 0 <= i < |s| ==> IsNum(s[i])
  {
    if s == "" then 0 else 10 * Decimal(s[..|s| - 1]) + Digit(s[|s| - 1])
  }

  /** The `unhex` table; -1 where the byte is no hexadecimal digit. */
  function Unhex(c: char): int {
    if IsNum(c) then (c as int) - ('0' as int)
    else if 'a' <= c <= 'f' then (c as int) - ('a' as int) + 10
    else if 'A' <= c <= 'F' then (c as int) - ('A' as int) + 10
    else -1
  }

  // ----- Pure queries of the source

  /** `state <= s_headers_done` */
  predicate ParsingHeader(s: State) { !s.Payload? }

  /** http_message_needs_eof */
  predicate NeedsEof(f: Fields) {
    if f.kind == Request then false
    else if f.statusCode / 100 == 1 || f.statusCode == 204 || f.statusCode == 304 || f.flags.skipBody then false
    else !(f.flags.chunked || f.contentLength != NO_LENGTH)
  }

  /** http_should_keep_alive */
  predicate ShouldKeepAlive(f: Fields) {
    if f.major > 0 && f.minor > 0
    then !f.flags.close && !NeedsEof(f)
    else f.flags.keepAlive && !NeedsEof(f)
  }

  function StartOf(f: Fields): State { Start(if f.kind == Request then StartReq else StartRes) }

  /** NEW_MESSAGE() */
  function NewMessage(f: Fields): State { if ShouldKeepAlive(f) then StartOf(f) else Start(Dead) }

  // ----- Methods

  const METHOD_COUNT: nat := 33

  /** method_strings[m] */
  function MethodName(m: nat): (name: string)
    ensures m < METHOD_COUNT ==> 3 <= |name| <= 11
  {
    match m
    case 0 => "DELETE"
    case 1 => "GET"
    case 2 => "HEAD"
    case 3 => "POST"
    case 4 => "PUT"
    case 5 => "CONNECT"
    case 6 => "OPTIONS"
    case 7 => "TRACE"
    case 8 => "COPY"
    case 9 => "LOCK"
    case 10 => "MKCOL"
    case 11 => "MOVE"
    case 12 => "PROPFIND"
    case 13 => "PROPPATCH"
    case 14 => "SEARCH"
    case 15 => "UNLOCK"
    case 16 => "BIND"
    case 17 => "REBIND"
    case 18 => "UNBIND"
    case 19 => "ACL"
    case 20 => "REPORT"
    case 21 => "MKACTIVITY"
    case 22 => "CHECKOUT"
    case 23 => "MERGE"
    case 24 => "M-SEARCH"
    case 25 => "NOTIFY"
    case 26 => "SUBSCRIBE"
    case 27 => "UNSUBSCRIBE"
    case 28 => "PATCH"
    case 29 => "PURGE"
    case 30 => "MKCALENDAR"
    case 31 => "LINK"
    case 32 => "UNLINK"
    case _ => ""
  }

  const HTTP_HEAD: nat := 2
  const HTTP_CONNECT: nat := 5

  /** `word[i]` of a NUL-terminated string. */
  function CharAt(word: string, i: nat): char { if i < |word| then word[i] else '\0' }

  /** parse_url_char; None is s_dead. */
  function ParseUrlChar(s: TargetState, ch: char): Option<TargetState> {
    if ch == ' ' || IsLineEnd(ch) || ch == '\t' || (ch as int) == 12 then None else
    match s
    case ReqSpacesBeforeUrl =>
      if ch == '/' || ch == '*' then Some(ReqPath) else if IsAlpha(ch) then Some(ReqSchema) else None
    case ReqSchema =>
      if IsAlpha(ch) then Some(s) else if ch == ':' then Some(ReqSchemaSlash) else None
    case ReqSchemaSlash => if ch == '/' then Some(ReqSchemaSlashSlash) else None
    case ReqSchemaSlashSlash => if ch == '/' then Some(ReqServerStart) else None
    case ReqServerWithAt => if ch == '@' then None else ServerChar(ch)
    case ReqServerStart | ReqServer => ServerChar(ch)
    case ReqPath =>
      if IsUrlChar(ch) then Some(s) else if ch == '?' then Some(ReqQueryStringStart)
      else if ch == '#' then Some(ReqFragmentStart) else None
    case ReqQueryStringStart | ReqQueryString =>
      if IsUrlChar(ch) || ch == '?' then Some(ReqQueryString)
      else if ch == '#' then Some(ReqFragmentStart) else None
    case ReqFragmentStart =>
      if IsUrlChar(ch) || ch == '?' then Some(ReqFragment) else if ch == '#' then Some(s) else None
    case ReqFragment => if IsUrlChar(ch) || ch == '?' || ch == '#' then Some(s) else None
  }

  function ServerChar(ch: char): Option<TargetState> {
    if ch == '/' then Some(ReqPath) else if ch == '?' then Some(ReqQueryStringStart)
    else if ch == '@' then Some(ReqServerWithAt)
    else if IsUserinfoChar(ch) || ch == '[' || ch == ']' then Some(ReqServer) else None
  }

  /** The mark http_parser_execute sets before its loop. */
  function InitialMark(s: State): Option<DataKind> {
    match s
    case Header(HeaderField) => Some(Field)
    case Header(HeaderValue) => Some(Value)
    case Target(t) => if t.ReqSpacesBeforeUrl? then None else Some(Url)
    case StatusLine(ResStatus) => Some(Status)
    case _ => None
  }

  /** http_parser_init */
  function Init(kind: Kind, lenient: bool): Fields {
    Fields(kind, NO_FLAGS,
           Start(if kind == Request then StartReq else if kind == Response then StartRes else StartReqOrRes),
           General, 0, lenient, 0, 0, 0, 0, 0, OK, false)
  }
}
