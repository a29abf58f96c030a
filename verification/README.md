# Verified model of Flux and wrk

Flux is an event-driven C++ server library (`source/Reactor`, `source/Http`); `wrk` is the load
generator that its tests drive it with. This project models the parts of both whose correctness
does not show from reading one function, and proves what they promise. `dafny verify dfyconfig.toml`
checks everything.

## What is modelled

- **http_parser.c, the parser of wrk** (`HttpTypes`, `HttpStep`, `HttpRun`, `HttpCutting`, `HttpParser`).
  `HttpStep.Switch` is one run of the big switch on one byte; `HttpRun` chains REEXECUTE jumps and folds
  bytes into runs, and carries the invariant behind the source's assertions; `HttpParserModel.HttpParser`
  is `http_parser_execute` itself, with marks into the caller's buffer, block skips and header-size
  counting, proved to do what the byte-by-byte run does. `HttpCutting` proves that the cut of a stream
  does not matter, and exactly when it does. `HttpChunked`, `HttpLength`, `HttpMethod`, `HttpUrl`,
  `HttpConnect` and `HttpSplit` prove what bodies, lengths, methods, URLs and CONNECT targets come out as.
- **Whole messages of http_parser.c, told from their text.** `HttpJoin` composes runs; `HttpHeader`, `HttpValue`,
  `HttpOptions` and `HttpLine` say what each header line does, in any letter case and spelling; `HttpFold` what
  a value that goes on in the next line does; `HttpStart` what request and status lines do. `HttpMessage` puts them
  together: any printed messages on one connection, with no body, a Content-Length or chunks and a trailer, are
  delivered exactly as printed, for every cut. `HttpGrammar` is the converse: nothing but such lines leads through
  the states of a line. `HttpKinds` covers parsers of both kinds and closed connections.
- **Flux's own request parser** (`RequestText`, `HttpServing`, `HttpContext`, over `Buffer`), with the
  same cutting theorem, a bound on the input buffer, and a round trip with wrk's request printer
  (`WrkFormat`). `RequestGrammar` and `RequestOutcome` say from the text which request lines, parameters and
  headers it takes. `PercentCoding` is its URL coder.
- **TimerWheel** (`TimerSpec`, `TimerWheel`): shared references in slots refine a map from ids to deadlines.
- **Two protocols as step machines**: lock-free recording (`StatsRecord`) and the event loop's task queue
  (`EventLoop`).
- **Statistics, timer list, connection** (`StatsCorrect`, `AeTimers`, `Connection`).

Code that updates state in place is a class whose methods are proved against functions on values; the
lemmas about those functions hold for all inputs and all runs.

Ten results say where the code does not do what one would expect, with the exact condition:

- A forbidden byte inside a header value goes through if and only if it is in one piece with the byte
  before it (`HttpCutting.CuttingIndependence`).
- A refused byte drops the pending bytes of an open callback, so what a failing stream delivers depends
  on the cut if and only if that byte lies behind an open mark that already covers a byte
  (`HttpCutting.EventsIndependence`).
- In a Connection header the comma behind a proper beginning of an option separates nothing, so the list of `k`
  and `close` closes nothing; any other list of tokens is read as such (`HttpOptions.ItemsExact`,
  `HttpOptions.BeginningSwallowsComma`).
- A header value that goes on in the next line is delivered whole, but the coding that its first line named is
  forgotten, and a length is refused (`HttpFold.FoldedLine`, `HttpFold.FoldedLength`).
- Each line end in front of a status line announces a message of its own (`HttpGrammar.StatusLineOnly`).
- URL coding inverts exactly on bytes 0..127 and 255 (`PercentCoding.RoundTrip`).
- After `stats_correct` the percentiles are right exactly when no recorded value is a whole number of
  intervals above a place between the interval and the minimum (`StatsCorrect.PercentileExact`).
- A CONNECT target is accepted exactly if it is `hostname:port`, perhaps behind an `@` and before a `?`
  and any number of `#` (`HttpConnect.ConnectTargets`).
- The parameters of a query are read exactly if it is empty or has an `&` (`RequestText.QueryTaken`).
- The buffer takes every write that compaction would make room for exactly if nothing was read out of
  its block or the block has its full size (`BufferModel.ClampExact`).

## Conventions

Bytes are characters. `http_parser.c` is modelled in strict mode, the default of its header. Callbacks
of `http_parser` return 0 and leave the parser alone. An exception that nothing catches (`std::stol`)
ends a run. What the outside decides (bytes received or taken by a socket, clock readings, what
callbacks do, how threads interleave, in which order a table is enumerated) is a parameter or a
nondeterministic choice, so that theorems cover every case.

## Model

| member | source | states |
|---|---|---|
| HttpRun.SwitchGood | wrk_test_server/wrk-master/src/http_parser.c:706-1996 | From any state that satisfies the invariant, one run of the switch on any byte keeps it, fails no assertion, sets no second mark, resets `nread` before a chunk line, and re-executes only in a state of smaller rank. |
| HttpRun.ReguessKeepsPrefix | wrk_test_server/wrk-master/src/http_parser.c:980-1000 | Every change of the guessed method keeps the bytes matched so far and matches the byte at hand. |
| HttpRun.FieldByteGood | wrk_test_server/wrk-master/src/http_parser.c:1228-1338 | The inner switch of a header name never reaches its unknown-state assertion, and its index stays inside the word matched. |
| HttpRun.ValueByteGood | wrk_test_server/wrk-master/src/http_parser.c:1457-1616 | The inner switch of a header value never reaches its assertions; an accepted length stays below the sentinel. |
| HttpRun.HeadersEndGood | wrk_test_server/wrk-master/src/http_parser.c:1705-1818 | The end of the headers leads to a body state only with what that state asserts: a length that is neither 0 nor the sentinel, or the chunked flag. |
| HttpRun.PayloadGood | wrk_test_server/wrk-master/src/http_parser.c:1820-1990 | No body state's assertion fails, and at most the body mark is set. |
| HttpCutting.ChainKeeps | wrk_test_server/wrk-master/src/http_parser.c:62-66 | A whole chain of re-executions keeps the run invariant and the ownership of undelivered bytes by the one open mark. |
| HttpCutting.FeedKeeps | wrk_test_server/wrk-master/src/http_parser.c:631-2029 | Over every run, in any number of pieces: invariant kept, no assertion failed, pending bytes belong to the one open mark. |
| HttpCutting.InitOk | wrk_test_server/wrk-master/src/http_parser.c:2082-2091 | A fresh parser of any kind satisfies the run invariant. |
| HttpCutting.ChainSame | wrk_test_server/wrk-master/src/http_parser.c:674-697 | Two runs whose marks differ only by an earlier cut make the same moves and deliver the same bytes. |
| HttpCutting.UncheckedSame | wrk_test_server/wrk-master/src/http_parser.c:1457-1488 | Where the header-character check would pass, skipping it changes nothing. |
| HttpCutting.FeedFollows | wrk_test_server/wrk-master/src/http_parser.c:631-2029 | Without a hidden byte, the run over any cut of any prefix agrees with the run over single bytes. |
| HttpCutting.HiddenPasses | wrk_test_server/wrk-master/src/http_parser.c:1457-1488 | A forbidden byte behind another byte of a general value is consumed in one piece, and refused when it comes alone. |
| HttpCutting.CuttingIndependence | wrk_test_server/wrk-master/src/http_parser.c:631-2029 | Every cut of a stream gives the same parser state, at the same byte, with the same merged callbacks, if and only if no forbidden header-value byte can be hidden by the memchr skip. |
| HttpCutting.ChainFails | wrk_test_server/wrk-master/src/http_parser.c:2022-2029 | A byte that fails, after whatever REEXECUTE jumps, has run no callback: what is lost is what was pending before it. |
| HttpCutting.TailLost | wrk_test_server/wrk-master/src/http_parser.c:2022-2029 | A stream refused behind an open mark delivers fewer events in one piece than byte by byte. |
| HttpCutting.EventsIndependence | wrk_test_server/wrk-master/src/http_parser.c:631-2029 | Every cut gives the same state, at the same byte, with exactly the same merged callbacks, failing streams included, if and only if no forbidden byte can be hidden and the stream is not refused behind an open mark that already covers a byte. |
| HttpCutting.HiddenByteExample | wrk_test_server/wrk-master/src/http_parser.c:1457-1488 | A concrete two-byte header value for which the cut matters. |
| HttpCutting.LostTailExample | wrk_test_server/wrk-master/src/http_parser.c:2022-2029 | A concrete such stream: in one piece its first byte is lost, in two it is delivered. |
| HttpParserModel.SkipRun | wrk_test_server/wrk-master/src/http_parser.c:1465-1488 | A memchr skip over a general header value does what its bytes do one by one. |
| HttpParserModel.SwallowRun | wrk_test_server/wrk-master/src/http_parser.c:1820-1861 | A block skip over a body does what its bytes do one by one. |
| HttpParserModel.HttpParser.CountHeaderSize | wrk_test_server/wrk-master/src/http_parser.c:151-160 | The count grows and the call fails exactly past the limit. |
| HttpParserModel.HttpParser.Perform | wrk_test_server/wrk-master/src/http_parser.c:77-149 | Marks and callbacks of one switch run keep standing for the events delivered and held. |
| HttpParserModel.HttpParser.Jumps | wrk_test_server/wrk-master/src/http_parser.c:705-706 | The jumps on one byte end as the byte's chain does, with the same marks and callbacks, and reset `nread` exactly if the chain does. |
| HttpParserModel.HttpParser.Reexecute | wrk_test_server/wrk-master/src/http_parser.c:705-706 | The switch and its jumps on one byte of a piece end where the byte-by-byte run is. |
| HttpParserModel.HttpParser.ScanField | wrk_test_server/wrk-master/src/http_parser.c:1228-1345 | The header-name loop runs to the first non-token byte and ends where the byte-by-byte run is; which names that recognises, `HttpHeader.NameRuns` says. |
| HttpParserModel.HttpParser.FindLineEnd | wrk_test_server/wrk-master/src/http_parser.c:1465-1488 | The two memchr calls find the first CR or LF, or report that the limit was passed. |
| HttpParserModel.HttpParser.ScanValue | wrk_test_server/wrk-master/src/http_parser.c:1436-1618 | The header-value loop stops at a line end, a refused byte or the end, where the byte-by-byte run is. |
| HttpParserModel.HttpParser.SwallowBlock | wrk_test_server/wrk-master/src/http_parser.c:1820-1974 | A body block, one of a chunk, and a body until end of stream are swallowed as their bytes would be. |
| HttpParserModel.HttpParser.Turn | wrk_test_server/wrk-master/src/http_parser.c:699-1997 | One turn of the byte loop, of whatever block length, refines the byte-by-byte run. |
| HttpParserModel.HttpParser.RunCallbacksLeft | wrk_test_server/wrk-master/src/http_parser.c:1999-2020 | At the end of a piece at most one mark is left, and its callback delivers all held bytes. |
| HttpParserModel.HttpParser.Finish | wrk_test_server/wrk-master/src/http_parser.c:652-671 | End of stream succeeds exactly between messages or in a body until end of stream, which it completes. |
| HttpParserModel.HttpParser.Execute | wrk_test_server/wrk-master/src/http_parser.c:631-2029 | Unless the header-size limit stops it, a call ends in the state, at the byte and with the callbacks of the byte-by-byte run over its piece, which `HttpMessage.StreamRuns` tells from the text. The limit stops it only if the header bytes counted since the last reset, body bytes not among them, come within one byte of it, and lets no header pass that has more. At the end of the stream it does what `Finish` says. |
| HttpParserModel.HttpParser.ExecuteAll | wrk_test_server/wrk-master/src/http_parser.c:631-2029 | A caller that feeds pieces until one fails or exits gets the run over their concatenation; without hidden bytes the cut does not show, nor do lost bytes unless the stream is refused behind an open mark. A stream none of whose headers comes within one byte for each piece of the header-size limit is never stopped by it, and one that passes has no header beyond it. |
| HttpJoin.RunsJoin | wrk_test_server/wrk-master/src/http_parser.c:631-2029 | What the parser does with a text depends on the fields it starts with alone: runs over concatenated texts compose. |
| HttpHeader.NameByte | wrk_test_server/wrk-master/src/http_parser.c:1228-1338 | Each further byte of a name keeps what the matcher's state says: a proper beginning of that known name, the whole name, or none of them. |
| HttpHeader.NameRuns | wrk_test_server/wrk-master/src/http_parser.c:1178-1345 | Any token name is delivered whole, and the matcher ends in the state of connection, proxy-connection, content-length, transfer-encoding or upgrade exactly if the name is that word in some letter case. |
| HttpValue.LengthRuns | wrk_test_server/wrk-master/src/http_parser.c:1357-1520 | A Content-Length of digits, and spaces behind the first, whose value is below 2^64 - 6 is kept as its decimal value. |
| HttpValue.LengthFails | wrk_test_server/wrk-master/src/http_parser.c:1396-1520 | Every other one, and any second one, fails at one of its bytes with the errno of its reason. |
| HttpValue.CodingRuns | wrk_test_server/wrk-master/src/http_parser.c:1387-1530 | A Transfer-Encoding ends in the state of chunked exactly if it is that word in some letter case with nothing but spaces behind it. |
| HttpOptions.ItemRuns | wrk_test_server/wrk-master/src/http_parser.c:1411-1616 | Each item of a Connection header is read as an option, a beginning of one, or neither, by its text. |
| HttpOptions.ListRuns | wrk_test_server/wrk-master/src/http_parser.c:1411-1616 | A Connection header sets keep-alive, close and upgrade exactly if an item of its list is that word, and nothing else. |
| HttpOptions.ItemsExact | wrk_test_server/wrk-master/src/http_parser.c:1411-1616 | In a list of tokens, none a proper beginning of an option, the items are the tokens, and each names an option by its letters. |
| HttpOptions.BeginningSwallowsComma | wrk_test_server/wrk-master/src/http_parser.c:1554-1586 | A concrete list in which close is not found. |
| HttpLine.LineRuns | wrk_test_server/wrk-master/src/http_parser.c:1178-1703 | A header line with any token name, white space, value and line end delivers name and value, and ends in the fields its text says: length, chunked, keep-alive, close, the two upgrade flags. |
| HttpLine.LineFails | wrk_test_server/wrk-master/src/http_parser.c:1396-1520 | A refused header line stops the run with its reason. |
| HttpLine.SettledRuns | wrk_test_server/wrk-master/src/http_parser.c:1638-1703 | The byte behind a line end, if it continues no value, finds the flags of the line set. |
| HttpLine.LinesRun | wrk_test_server/wrk-master/src/http_parser.c:1178-1703 | A header block delivers its names and values in order and ends in the fields its lines say. |
| HttpLine.LinesFail | wrk_test_server/wrk-master/src/http_parser.c:1178-1703 | A header block with a refused line stops there. |
| HttpLine.EffectsExact | wrk_test_server/wrk-master/src/http_parser.c:1178-1703 | Each flag is set if and only if some line of its kind says so; the length is that of the one Content-Length line. |
| HttpFold.FoldExact | wrk_test_server/wrk-master/src/http_parser.c:1638-1645 | White space behind a line end goes on with the value: a length is refused, an open list of options stays open, and anything else is forgotten. |
| HttpFold.FoldedLine | wrk_test_server/wrk-master/src/http_parser.c:1638-1645 | A value in two lines is delivered whole, and of what its first line told only Upgrade is left. |
| HttpFold.FoldedLength | wrk_test_server/wrk-master/src/http_parser.c:1638-1645 | A Content-Length in two lines is refused. |
| HttpStart.TargetIs | wrk_test_server/wrk-master/src/http_parser.c:1012-1083 | The targets behind which a space or line end may follow are exactly the URL texts with a server, path or query, and for CONNECT what may follow `://` in one. |
| HttpStart.RequestLineRuns | wrk_test_server/wrk-master/src/http_parser.c:917-1176 | A request line in any spelling begins one message, delivers its target, and sets method and version; without a version it is 0.9. |
| HttpStart.StatusLineRuns | wrk_test_server/wrk-master/src/http_parser.c:755-915 | A status line begins one message, delivers its reason, and sets the version digits and the decimal value of the code. |
| HttpStart.StatusLineFails | wrk_test_server/wrk-master/src/http_parser.c:855-895 | A code above 999 is refused with InvalidStatus. |
| HttpMessage.NextStateIs | wrk_test_server/wrk-master/src/http_parser.c:2033-2079 | A connection persists by its version, its close or keep-alive option, and only if the end of the body shows. |
| HttpMessage.EndRuns | wrk_test_server/wrk-master/src/http_parser.c:1705-1818 | The empty line announces the headers and leads to the body that upgrade, chunked, length, status code and kind call for. |
| HttpMessage.TwoFramingsRefused | wrk_test_server/wrk-master/src/http_parser.c:1715-1722 | Headers with both a length and chunked are refused at the empty line. |
| HttpMessage.OpenEndedRuns | wrk_test_server/wrk-master/src/http_parser.c:1857-1861 | A body until the end of the stream is delivered byte for byte. |
| HttpMessage.TrailerRuns | wrk_test_server/wrk-master/src/http_parser.c:1705-1716 | The empty line behind a trailer completes the last chunk and the message. |
| HttpMessage.MessageRuns | wrk_test_server/wrk-master/src/http_parser.c:631-2029 | Any printed request or response, with no body, a Content-Length, or chunks in any spelling and a trailer, is consumed to its last byte and delivered exactly, between one message_begin and one message_complete; the parser is ready for the next exactly if the connection persists, and exits exactly on an upgrade. |
| HttpMessage.MessageUncut | wrk_test_server/wrk-master/src/http_parser.c:631-2029 | Every cut of a message delivers the same. |
| HttpMessage.OpenEndedMessage | wrk_test_server/wrk-master/src/http_parser.c:631-2029 | A response without framing is delivered as far as it has come, and its connection does not persist. |
| HttpMessage.MessageRefused | wrk_test_server/wrk-master/src/http_parser.c:1715-1722 | A message with both framings is refused with UnexpectedContentLength. |
| HttpMessage.HeadersExact | wrk_test_server/wrk-master/src/http_parser.c:1178-1703 | The fields behind the headers of a message, in terms of its text: method or code, version digits, and each flag by the lines that set it. |
| HttpMessage.StreamRuns | wrk_test_server/wrk-master/src/http_parser.c:631-2029 | Pipelined messages are delivered one behind the other. |
| HttpMessage.StreamDelivered | wrk_test_server/wrk-master/src/http_parser.c:631-2091 | A fresh parser delivers any messages that may follow each other on a connection, for every cut of their text, and consumes every byte. |
| HttpMessage.PostOk | wrk_test_server/wrk-master/src/http_parser.c:631-2029 | A concrete POST of five bytes with Content-Length in mixed case is such a message, and these are its events. |
| HttpGrammar.RequestLineOnly | wrk_test_server/wrk-master/src/http_parser.c:917-1176 | Only request lines, perhaps behind line ends, lead a request parser to the headers, with the events and fields they say. |
| HttpGrammar.StatusLineOnly | wrk_test_server/wrk-master/src/http_parser.c:755-915 | Only status lines with a code up to 999 lead a response parser to the headers; each line end in front announces a message. |
| HttpGrammar.HeaderLineOnly | wrk_test_server/wrk-master/src/http_parser.c:1178-1703 | Only header lines that are not refused lead to the end of a header line, with the events and fields they say. |
| HttpGrammar.EmptyLineOnly | wrk_test_server/wrk-master/src/http_parser.c:1178-1714 | Only an empty line leads out of the headers. |
| HttpGrammar.SizeLineOnly | wrk_test_server/wrk-master/src/http_parser.c:1872-1948 | Only size lines with a value below 2^64 - 16 lead to a chunk's data or the trailer, and the value is the length kept. |
| HttpGrammar.ChunkEndOnly | wrk_test_server/wrk-master/src/http_parser.c:1976-1990 | Only CR LF leads from the end of a chunk's data to the next size line. |
| HttpKinds.EitherDelivered | wrk_test_server/wrk-master/src/http_parser.c:718-753 | A parser of both kinds delivers what the parser of the first message's kind delivers. |
| HttpKinds.ClosedExact | wrk_test_server/wrk-master/src/http_parser.c:708-716 | On a closed connection line ends are skipped, and anything else is refused with ClosedConnection. |
| HttpChunked.NextDigitSwitch | wrk_test_server/wrk-master/src/http_parser.c:1888-1923 | A further size digit is accepted exactly while the value is below 2^64 - 16, and is never cut to 64 bits. |
| HttpChunked.SizeDigits | wrk_test_server/wrk-master/src/http_parser.c:1872-1923 | A size line's digits give their hexadecimal value. |
| HttpChunked.SizeRefused | wrk_test_server/wrk-master/src/http_parser.c:1911-1919 | A size of 2^64 - 16 or more is refused with InvalidContentLength. |
| HttpChunked.OneChunk | wrk_test_server/wrk-master/src/http_parser.c:1872-1990 | One chunk delivers its data between chunk_header and chunk_complete and returns to the next size line. |
| HttpChunked.ChunkedRoundTrip | wrk_test_server/wrk-master/src/http_parser.c:1872-1990 | For any chunks in any spelling of their sizes, with extensions, the encoding is consumed whole, delivers every chunk in order and message_complete once, and starts afresh, for every cut. |
| HttpChunked.ChunkedBody | wrk_test_server/wrk-master/src/http_parser.c:1705-1714 | Every cut of a chunked body delivers exactly the concatenated data and one message_complete. |
| HttpLength.NextLengthDigit | wrk_test_server/wrk-master/src/http_parser.c:1495-1520 | A further Content-Length digit is accepted exactly while the value is below 2^64 - 6, and is never cut to 64 bits. |
| HttpLength.LengthExact | wrk_test_server/wrk-master/src/http_parser.c:1396-1520 | A Content-Length is kept as its decimal value or refused, exactly by that bound. |
| HttpLength.LengthBody | wrk_test_server/wrk-master/src/http_parser.c:1820-1870 | A body of known length is delivered whole with one message_complete, for every cut. |
| HttpMethod.MethodByte | wrk_test_server/wrk-master/src/http_parser.c:960-1010 | In the method state a byte extends the matched prefix, ends a whole name, or fails. |
| HttpMethod.Prefix | wrk_test_server/wrk-master/src/http_parser.c:917-1010 | While in the method state, the consumed bytes are the first `index` bytes of the guessed name. |
| HttpMethod.Guessed | wrk_test_server/wrk-master/src/http_parser.c:930-1000 | From its last change on, the guess for a name is that name. |
| HttpMethod.MethodRecognition | wrk_test_server/wrk-master/src/http_parser.c:917-1010 | The request target is reached exactly behind one of the 33 names and a space, and `method` is that one. |
| HttpUrl.TargetMoves | wrk_test_server/wrk-master/src/http_parser.c:483-629 | A move of parse_url_char stays in a part, starts a later one, or skips a delimiter. |
| HttpUrl.ScanLaid | wrk_test_server/wrk-master/src/http_parser.c:2294-2352 | After any prefix, the fields are ordered, disjoint, non-empty slices with only delimiters outside them. |
| HttpUrl.HostMoves | wrk_test_server/wrk-master/src/http_parser.c:2111-2191 | A move of http_parse_host_char stays in userinfo, host or port, starts a later one, or skips a delimiter. |
| HttpUrl.HostScanLaid | wrk_test_server/wrk-master/src/http_parser.c:2193-2273 | The host region is split into userinfo, plain or bracketed host, and port, with only delimiters between. |
| HttpUrl.FieldsSound | wrk_test_server/wrk-master/src/http_parser.c:2280-2382 | Whenever both passes succeed, the fields split the whole URL in order, each of its own characters and behind its own delimiter. |
| HttpUrl.PortEnds | wrk_test_server/wrk-master/src/http_parser.c:2369-2379 | strtoul reads exactly the port field. |
| HttpUrl.StrToUl | wrk_test_server/wrk-master/src/http_parser.c:2369-2379 | The decimal value of the digits, saturated. |
| HttpUrl.HttpParserUrl.ParseHost | wrk_test_server/wrk-master/src/http_parser.c:2193-2273 | Fails or fills the fields exactly as the fold of http_parse_host_char says. |
| HttpUrl.HttpParserUrl.ParseUrl | wrk_test_server/wrk-master/src/http_parser.c:2280-2382 | Succeeds exactly on `Accepted` (told from the text by `HttpSplit.UrlExact` and `HttpConnect.ConnectTargets`); then the fields split the URL, `port` is the decimal value of its slice and fits 16 bits, and a CONNECT target has only host and port. |
| HttpConnect.ServerScan | wrk_test_server/wrk-master/src/http_parser.c:2294-2352 | In CONNECT mode the first pass finds a host and nothing else exactly in a server followed by nothing, or by a `?` and any number of `#`. |
| HttpConnect.RunShape | wrk_test_server/wrk-master/src/http_parser.c:2111-2191 | Every text that leads from the start of a host into a state of http_parse_host_char has that state's form. |
| HttpConnect.PortRun | wrk_test_server/wrk-master/src/http_parser.c:2111-2191 | Every plain or bracketed host name with a colon and digits is run through to the port state. |
| HttpConnect.HostPortOnly | wrk_test_server/wrk-master/src/http_parser.c:2364-2367 | The two passes set exactly host and port if and only if the text is such a server, split into an optional `@`, a host name, a colon and digits. |
| HttpConnect.ConnectTargets | wrk_test_server/wrk-master/src/http_parser.c:2280-2382 | A CONNECT target is accepted if and only if it is an optional `@`, a plain or bracketed host name, a colon, digits of value at most 65535, and nothing or a `?` and any number of `#`. |
| HttpConnect.PlainConnectTargets | wrk_test_server/wrk-master/src/http_parser.c:2364-2367 | An accepted target is plain hostname:port, as the comment wants, if and only if it does not begin with `@` and has no `?`. |
| HttpConnect.ConnectWithAtSign | wrk_test_server/wrk-master/src/http_parser.c:2364-2367 | `@h:1` and `h:1?#` are accepted, though the comment allows only hostname:port. |
| HttpSplit.FirstPassExact | wrk_test_server/wrk-master/src/http_parser.c:483-629 | The first pass finds the fields of every text that is a URL or a beginning of one. |
| HttpSplit.FirstPassText | wrk_test_server/wrk-master/src/http_parser.c:483-629 | It succeeds on no other text. |
| HttpSplit.SecondPassExact | wrk_test_server/wrk-master/src/http_parser.c:2111-2273 | The second pass splits every server text, or beginning of one, into userinfo, plain or bracketed host, and port. |
| HttpSplit.SecondPassText | wrk_test_server/wrk-master/src/http_parser.c:2111-2273 | It goes through no other text. |
| HttpSplit.UrlSplit | wrk_test_server/wrk-master/src/http_parser.c:2280-2382 | The fields of a URL are its scheme, userinfo, host, port, path, query and fragment, each where its text has it. |
| HttpSplit.SplitUrl | wrk_test_server/wrk-master/src/http_parser.c:2280-2382 | Whatever is split is the text of a URL. |
| HttpSplit.UrlExact | wrk_test_server/wrk-master/src/http_parser.c:2280-2382 | Without CONNECT a text is accepted if and only if it is an optional scheme with a server, a path from `/` or `*`, an optional query and an optional fragment, and its port is at most 65535. |
| BufferModel.EnsuredExact | source/Reactor/Buffer.hpp:71-94 | EnsureWriteSpace provides the space exactly when the write fits idle space or the limit behind the written bytes; it keeps the readable size and 1 MiB. |
| BufferModel.ClampExact | source/Reactor/Buffer.hpp:71-94 | Every write that a compacted block of 1 MiB would hold fits, if and only if nothing has been read out of the block or it already has 1 MiB. |
| BufferModel.ClampIgnoresHead | source/Reactor/Buffer.hpp:84-93 | A concrete write refused by the clamp although a compacted block would hold it. |
| BufferModel.LineOfIs | source/Reactor/Buffer.hpp:174-187 | A line is what ends with the first LF. |
| BufferModel.Buffer.EnsureWriteSpace | source/Reactor/Buffer.hpp:71-94 | Compaction and growth keep the readable bytes. |
| BufferModel.Buffer.Write | source/Reactor/Buffer.hpp:128-135 | A write changes no readable byte and lies behind them. |
| BufferModel.Buffer.WriteAndPush | source/Reactor/Buffer.hpp:137-141 | Appends to the readable bytes. |
| BufferModel.Buffer.ReadAsStringAndPop | source/Reactor/Buffer.hpp:121-126 | Returns a prefix of the readable bytes and drops it. |
| BufferModel.Buffer.WriteBufferAndPush | source/Reactor/Buffer.hpp:154-171 | Appends another buffer's readable bytes, or its own. |
| BufferModel.Buffer.FindCRLF | source/Reactor/Buffer.hpp:174-178 | Finds the first LF among the readable bytes. |
| BufferModel.Buffer.GetLineAndPop | source/Reactor/Buffer.hpp:181-194 | Returns and drops the first whole line, or nothing. |
| BufferModel.Buffer.Clear | source/Reactor/Buffer.hpp:197-207 | Empties the queue and returns to the default size. |
| PercentCoding.UrlEncode | source/Http/http.hpp:236-257 | The loop computes the encoding. |
| PercentCoding.UrlDecode | source/Http/http.hpp:280-304 | The loop computes the decoding, with `%` near the end kept. |
| PercentCoding.DecodeEncode | source/Http/http.hpp:236-304 | Decoding an encoding gives every byte below 128 back, and 255 for the others. |
| PercentCoding.RoundTrip | source/Http/http.hpp:236-304 | Decoding inverts encoding exactly on strings of bytes 0..127 and 255, in either space mode. |
| PercentCoding.EncodedIs | source/Http/http.hpp:236-257 | An encoding is made of unreserved characters, whole escapes and, in its mode, plus signs. |
| PercentCoding.DecodeWritten | source/Http/http.hpp:280-304 | However each byte is written, as itself, as an escape in either letter case, or as a plus sign in its mode, decoding gives the text. |
| RequestText.IndexOfFirst | source/Http/http.hpp:155-177 | The search finds the first occurrence, or there is none. |
| RequestText.Split | source/Http/http.hpp:155-177 | All non-empty stretches between separators, and nothing at all when there is no separator. |
| RequestText.LoneQueryIgnored | source/Http/http.hpp:155-177 | A query without `&` never yields a parameter and is never refused. |
| RequestText.QueryTaken | source/Http/http.hpp:607-652 | The parameters of a request line, and its refusal for one without `=`, are those of the pieces of its query if and only if the query is empty or has an `&`; what the pieces give, `RequestGrammar.QueryExact` says. |
| RequestGrammar.PiecesExact | source/Http/http.hpp:155-177 | The pieces are exactly the non-empty stretches between separators, in order. |
| RequestGrammar.LineExact | source/Http/http.hpp:607-652 | A line is matched exactly if it is a method in some letter case, a space, a path without `?` and perhaps a query, a space and a version, with these parts. |
| RequestGrammar.QueryExact | source/Http/http.hpp:607-652 | A line whose query is empty or has an `&` is refused exactly if some non-empty stretch has no `=`; otherwise the keys are exactly those of the stretches, each with the decoded value of its first one. |
| RequestGrammar.HeadExact | source/Http/http.hpp:687-707 | A header line is taken exactly if it has `: ` in it, and is cut at the first. |
| RequestGrammar.StolExact | source/Http/http.hpp:466-475 | std::stol reads spaces, a sign and all digits, and throws if the value does not fit; a negative value becomes a size_t. |
| RequestGrammar.StolNeedsDigits | source/Http/http.hpp:466-475 | It throws for every text without such a number in front. |
| RequestOutcome.CollectedExact | source/Http/http.hpp:687-707 | The headers kept are those there before and the first of each other name. |
| RequestOutcome.RequestServed | source/Http/http.hpp:655-788 | A request line, header lines, a blank line and the announced body are handed over with exactly these parts, and the next request begins behind them. |
| RequestOutcome.RequestWaits | source/Http/http.hpp:752-788 | With less of the body the request waits. |
| RequestOutcome.RequestThrows | source/Http/http.hpp:466-475 | A Content-Length without a number, or beyond `long`, throws. |
| RequestOutcome.LineRefused | source/Http/http.hpp:655-686 | Where a request line is wanted, exactly lines of more than 8192 bytes and lines that do not parse are refused. |
| RequestOutcome.HeadRefused | source/Http/http.hpp:710-749 | So it is with header lines. |
| HttpServing.StepShrinks | source/Http/http.hpp:655-788 | A step that ends a line or a request consumes input; a waiting one leaves at most one unfinished short line. |
| HttpServing.ServeEnds | source/Http/http.hpp:1011-1046 | A run ends waiting with an unfinished line of at most 8192 bytes, or reset and drained. |
| HttpServing.LineAppend | source/Reactor/Buffer.hpp:181-194 | More input does not change a line already complete. |
| HttpServing.StepAppend | source/Http/http.hpp:655-788 | More input does not change a step that did not wait. |
| HttpServing.ServeAppend | source/Http/http.hpp:1011-1046 | Reading a, then b, is reading both at once. |
| HttpServing.FragmentationIndependence | source/Http/http.hpp:1011-1046 | Every cut of every stream into reads parses the same requests, up to and including the first refusal, and leaves the same context and unread bytes. |
| HttpContextModel.HttpContext.ParseHttpLine | source/Http/http.hpp:607-652 | Fills the request from a request line, or refuses it with 400, as `ParseLine` does, which `RequestGrammar.LineExact` and `RequestGrammar.QueryExact` tell from the text. |
| HttpContextModel.HttpContext.RecvHttpLine | source/Http/http.hpp:655-686 | Waits, refuses with 400 or 414, or moves on, as the run over the unread bytes says. |
| HttpContextModel.HttpContext.ParseHttpHead | source/Http/http.hpp:687-707 | Inserts a header unless one of that name is there, or refuses with 400. |
| HttpContextModel.HttpContext.RecvHttpHead | source/Http/http.hpp:710-749 | Reads header lines up to the empty line, or waits or refuses, as the run says. |
| HttpContextModel.HttpContext.RecvHttpBody | source/Http/http.hpp:752-788 | Takes at most the missing bytes of the body. |
| HttpContextModel.HttpContext.RecvHttpRequest | source/Http/http.hpp:822-836 | One call with its fall-through cases ends a request, refuses one, or waits, as the run says. |
| HttpContextModel.HttpSession.OnMessage | source/Http/http.hpp:1011-1046 | The loop, re-entered by its own Shutdown calls, ends and hands over exactly the requests of the run over the unread bytes, which `RequestOutcome` tells from the text. |
| HttpContextModel.ReadFits | source/Reactor/Connection.hpp:32-51 | A read after at most 8192 unread bytes always fits, and the buffer stays within 147452 bytes. |
| HttpContextModel.WaitingAgain | source/Http/http.hpp:1011-1046 | Looking again at unread bytes that wait changes nothing. |
| HttpContextModel.HttpSession.HandleRead | source/Reactor/Connection.hpp:32-51 | After every read at most 8192 bytes stay unread, the buffer stays within 147452 bytes, and the requests are those of the run. |
| HttpContextModel.HttpSession.HandleReads | source/Reactor/Connection.hpp:32-51 | Over all reads of a connection, the requests up to the first refusal are those of the uncut stream. |
| WrkFormat.Wrk.Format | wrk_test_server/wrk-master/src/wrk.lua:50-72 | Prints the request line, the completed header table in some order, and the body, and leaves the completed table behind. |
| WrkFormat.CompletedExact | wrk_test_server/wrk-master/src/wrk.lua:57-61 | The completed table has the body's length or none, the caller's Host or the default's, and the caller's other headers. |
| WrkFormat.FormatMeasures | wrk_test_server/wrk-master/src/wrk.lua:61-61 | Content-Length is the length of the body, or absent without one. |
| WrkFormat.RequestLineParsed | source/Http/http.hpp:607-652 | The printed request line parses to its method and decoded path. |
| WrkFormat.HeadersServed | source/Http/http.hpp:710-749 | Printed header lines are inserted one by one. |
| WrkFormat.PrintedServed | source/Http/http.hpp:655-788 | A printed request parses to its method, decoded path, header table and body. |
| WrkFormat.PrintedRoundTrip | source/Http/http.hpp:1011-1046 | Any concatenation of printed requests, in any cut, parses to the same requests in order with nothing left over. |
| WrkFormat.PlainPath | source/Http/http.hpp:280-304 | A path without escapes comes back unchanged. |
| TimerSpec.DelayExact | source/Reactor/TimerWheel.hpp:129-136 | The wheel keeps a timeout exactly when it is shorter than a turn. |
| TimerSpec.Life | source/Reactor/TimerWheel.hpp:114-159 | Over every interleaving, a timer that is not rearmed lives through exactly the ticks up to its deadline, then runs its callback once unless canceled before. |
| TimerSpec.LifeAfterArming | source/Reactor/TimerWheel.hpp:114-159 | A timer of less than a turn is destroyed in exactly the (timeout+1)-th tick after it was last added or refreshed. |
| TimerSpec.LifeAfterRefresh | source/Reactor/TimerWheel.hpp:129-150 | Whatever happens between the Add of a timer of less than a turn and a later Refresh, the timer is destroyed in exactly the (timeout+1)-th tick after that Refresh, with the timeout of the Add. |
| TimerWheelModel.TimerWheel.HasTimer | source/Reactor/TimerWheel.hpp:178-186 | Holds exactly while the timer lives. |
| TimerWheelModel.TimerWheel.TimerAddInLoop | source/Reactor/TimerWheel.hpp:129-136 | Adds the id with its deadline and its own timeout to the map; `TimerSpec.LifeAfterRefresh` fixes both over whole runs. |
| TimerWheelModel.TimerWheel.TimerRefreshInLoop | source/Reactor/TimerWheel.hpp:138-150 | One more reference moves a live timer's deadline to the later of the two; an unknown id is ignored. |
| TimerWheelModel.TimerWheel.TimerCancelInLoop | source/Reactor/TimerWheel.hpp:152-159 | Silences a live timer without removing it. |
| TimerWheelModel.TimerWheel.Drop | source/Reactor/TimerWheel.hpp:47-52 | Dropping the last reference runs the callback unless canceled, then forgets the id. |
| TimerWheelModel.TimerWheel.RunTimerTask | source/Reactor/TimerWheel.hpp:114-118 | Clearing a slot destroys exactly the timers due now, and runs each uncanceled callback once. |
| TimerWheelModel.TimerWheel.OnTime | source/Reactor/TimerWheel.hpp:120-127 | That many ticks, and none for a negative count. |
| TimerWheelModel.Added | source/Reactor/TimerWheel.hpp:129-136 | Adding keeps reference counts, names and deadlines linked. |
| TimerWheelModel.Refreshed | source/Reactor/TimerWheel.hpp:138-150 | So does refreshing. |
| TimerWheelModel.DropLinked | source/Reactor/TimerWheel.hpp:76-82 | So does dropping a reference, down to the last one. |
| TimerWheelModel.Ticked | source/Reactor/TimerWheel.hpp:114-118 | With its slot cleared, exactly the tasks that were due are gone. |
| StatsRecord.StepKeeps | wrk_test_server/wrk-master/src/stats.c:22-31 | Every atomic access of any thread keeps the histogram, count and extremes accounted for. |
| StatsRecord.StepMonotone | wrk_test_server/wrk-master/src/stats.c:26-29 | `min` only falls and `max` only rises. |
| StatsRecord.CallsReturn | wrk_test_server/wrk-master/src/stats.c:22-31 | Over every run each call has returned or is under way, in order, and returns 0 exactly for a value not below the limit. |
| StatsRecord.RecordingExact | wrk_test_server/wrk-master/src/stats.c:22-31 | For any number of threads and every interleaving, at rest `data` counts each value below the limit that was passed to a call, `count` is their number, and `min` and `max` are their true extremes. |
| StatsRecord.LoopProgress | wrk_test_server/wrk-master/src/stats.c:28-29 | A thread's own access brings its CAS loop nearer to the end, and no other thread's moves it back. |
| StatsRecord.LoopBounded | wrk_test_server/wrk-master/src/stats.c:28-29 | A CAS loop makes only boundedly many accesses under any interference. |
| StatsCorrect.TailGrows | wrk_test_server/wrk-master/src/stats.c:34-42 | Spreading one more value adds it to every e-th entry below it and to no other. |
| StatsCorrect.Stats.Correct | wrk_test_server/wrk-master/src/stats.c:33-43 | In place: entries up to e stay, an entry above becomes the sum of every e-th original entry from it up to max, and count changes as the total does. |
| StatsCorrect.TailZero | wrk_test_server/wrk-master/src/stats.c:34-42 | The sum at a place is zero exactly if no recorded value up to max is that place plus a whole number of intervals. |
| StatsCorrect.CorrectedTotal | wrk_test_server/wrk-master/src/stats.c:33-43 | The sum over [min, max] is still the total if and only if no recorded value is a whole number of intervals above a place between e and min; always if min <= e + 1. |
| StatsCorrect.Stats.Percentile | wrk_test_server/wrk-master/src/stats.c:80-88 | The least value whose running total reaches the rank, or 0. |
| StatsCorrect.PercentileExact | wrk_test_server/wrk-master/src/stats.c:80-88 | Under the same condition on the histogram before the correction, and only then, it finds for every rank up to the total the least value with that many recorded values at or below it. |
| StatsCorrect.SpreadBelowMinimum | wrk_test_server/wrk-master/src/stats.c:33-43 | A concrete histogram where the sum over [min, max] is 1, the total 2, and the percentile of rank 2 comes out as 0 instead of 3. |
| EventLoopModel.StepKeeps | source/Reactor/EventLoop.hpp:72-88 | Every step keeps the tasks pushed equal to those run, swapped out and queued, in order, and no sleep unnoticed. |
| EventLoopModel.NoLostWakeUp | source/Reactor/EventLoop.hpp:107-120 | Over every interleaving, tasks run once each in push order, and the loop is never blocked on a non-empty queue unless the eventfd is readable or about to be. |
| EventLoopModel.NeverStuck | source/Reactor/EventLoop.hpp:72-88 | A producer can always push or write, and the loop can always go on, save for waiting in Poll, which a readable eventfd ends. |
| EventLoopModel.WokenRunsAll | source/Reactor/EventLoop.hpp:155-162 | A sleeping loop with work is woken, and its next turn runs everything pushed and goes back to sleep with nothing left to wake it. |
| AeTimers.LaterExact | wrk_test_server/wrk-master/src/ae.c:189-201 | The deadline is the clock plus the delay in milliseconds, carried into a normal time. |
| AeTimers.PassedExact | wrk_test_server/wrk-master/src/ae.c:315-318 | A timer is due exactly if its time is not after the clock. |
| AeTimers.AeEventLoop.CreateTimeEvent | wrk_test_server/wrk-master/src/ae.c:203-220 | A new timer with a fresh id becomes the head of the list. |
| AeTimers.AeEventLoop.DeleteTimeEvent | wrk_test_server/wrk-master/src/ae.c:222-233 | Leaves a tombstone on the timer of that id, if there is one, and nothing else. |
| AeTimers.AeEventLoop.Unlink | wrk_test_server/wrk-master/src/ae.c:293-303 | Takes one node out and keeps the rest of the list. |
| AeTimers.AeEventLoop.RunProc | wrk_test_server/wrk-master/src/ae.c:203-233 | A callback leaves a tombstone exactly on the timers it deletes, changes no other old timer, and puts as many new ones in front as it creates. |
| AeTimers.AeEventLoop.Fire | wrk_test_server/wrk-master/src/ae.c:317-328 | Beside what the callback does, its timer gets a tombstone if it returns AE_NOMORE and is rescheduled otherwise. |
| AeTimers.AeEventLoop.VisitOne | wrk_test_server/wrk-master/src/ae.c:288-332 | One turn of the walk reports the id that the node has, unlinks it if that is a tombstone, and fires it if it is due, whatever the callback does to the list; the id never exceeds those handed out before the pass. |
| AeTimers.AeEventLoop.ProcessTimeEvents | wrk_test_server/wrk-master/src/ae.c:262-334 | A pass reaches exactly the nodes it started with, each with the id that the callbacks run so far left it; unlinks and finalizes exactly those with a tombstone then, fires exactly the live ones whose time had passed at their clock reading, and keeps the others, with exactly stated ids and times, in order behind the new ones. |
| AeTimers.TombstonesExact | wrk_test_server/wrk-master/src/ae.c:288-304 | A pass finds a tombstone at a node if and only if one was there before or a callback it ran on an earlier node deleted that timer. |
| AeTimers.OncePerPass | wrk_test_server/wrk-master/src/ae.c:288-332 | A pass runs at most one callback or finalizer for each node. |
| ConnectionModel.ActOk | source/Reactor/Connection.hpp:144-173 | A send or shutdown, however deep the message callback is re-entered, sends and takes back nothing, and every graceful release found everything sent. |
| ConnectionModel.EventsOk | source/Reactor/Connection.hpp:54-173 | Over every run of events, what the socket took is always the beginning of what was accepted, nothing accepted or sent is taken back, and no graceful release happened before everything accepted was sent. |
| ConnectionModel.EventsAccept | source/Reactor/Connection.hpp:144-153 | Over every run, as long as the connection has not been released, everything sent has been accepted. |
| ConnectionModel.ShutdownCompletes | source/Reactor/Connection.hpp:155-173 | A shutdown releases a drained connection at once, and any other exactly when the socket has taken the rest. |
| ConnectionModel.Connection.SendInLoop | source/Reactor/Connection.hpp:144-153 | Accepted bytes go behind those waiting, and writing is watched for; a disconnected connection takes nothing. |
| ConnectionModel.Connection.HandleWrite | source/Reactor/Connection.hpp:54-84 | What the socket takes leaves the buffer; the last byte of a closing connection releases it. |
| ConnectionModel.Connection.ShutdownInLoop | source/Reactor/Connection.hpp:155-173 | Releases only a drained connection, and otherwise keeps writing watched, whatever the re-entered callback does. |
| ConnectionModel.Connection.Run | source/Reactor/Connection.hpp:54-173 | Over every run, sent bytes followed by waiting ones are the accepted ones, waiting bytes are watched for, and status, streams and releases are those of the run on values. |

## Left out

- Non-strict mode of `http_parser.c`, pausing, and callbacks that fail, stop or reset the parser.
- HttpFold.FoldedLine: does not follow a Connection list into a second line beyond what `HttpFold.FoldExact` says of its first byte.
- HttpParserModel.HttpParser.CountHeaderSize: amounts with which the 32-bit count could wrap past its check, see the next line.
- HttpParserModel.HttpParser.Execute: does not model pieces of 4 GiB less 80 KiB and more, where the 32-bit `nread` could wrap past its check, and says nothing further about a call that the header-size limit stopped: a piece boundary can count a header byte twice, so near the limit that depends on the cut.
- HttpParserModel.HttpParser.ExecuteAll: leaves open `header_state` after a refused header-value byte, which the source does not store then and never reads again.
- HttpUrl.HttpParserUrl.ParseUrl: URLs longer than 65535 bytes, whose offsets the 16-bit fields cannot hold.
- HttpContextModel.HttpContext.ParseHttpLine: the regular expression is modelled as the one match it can have; the recursion depth of the matcher is not modelled.
- Route handlers beyond whether they keep the connection open, response texts, static files and path checks: they do not touch the parser.
- WrkFormat.Wrk.Format: bodies of 10^14 bytes and more, where Lua prints the length in exponent form.
- BufferModel.Buffer.Write: writes that break the fit rule, after which the source copies out of bounds.
- BufferModel.Buffer.WriteAndPush: the same.
- BufferModel.Buffer.WriteBufferAndPush: the same.
- ConnectionModel.Connection.SendInLoop: the same, for the out buffer.
- TimerWheelModel.TimerWheel.TimerAddInLoop: adding an id that is still live, which its callers check first; timer tasks are records named by handles; the callback the source installs, `Connection::Release`, calls `HasTimer` and `TimerCancel` from the destructor, which change nothing because the weak reference no longer locks.
- StatsRecord.RecordingExact: plain reads of `min` and `max` are single accesses of a sequentially consistent memory.
- StatsCorrect.Stats.Correct: an expected interval of zero, with which the source never ends at a recorded value, or less, with which it does nothing; 64-bit wrap-around of counts; the rank of a percentile is an integer, because its rounding is floating point.
- EventLoopModel.NoLostWakeUp: stopping the loop, and an eventfd write that fails (a counter full at 2^64 - 1, or a signal), after which the source gives up or goes on without a wake-up.
- AeTimers.AeEventLoop.ProcessTimeEvents: finalizers that change the list.
- ConnectionModel.Connection.Run: it stops at a send that breaks the buffer's rule, where the source would write out of bounds; the number of close callbacks is not counted, because one batch of events can run several.
- Sockets, epoll, timerfd, threads and mutexes themselves, TLS, logging, the Lua API, `TcpServer`, `LoopThreadPool`, `Any`, the other event back ends and the example programs: calls into the system, or wrappers.
