# HTTP parsing and connection pools of the image host

The image host answers HTTP requests with an incremental push parser
(`src/http_parser.cc`), which a wrapper runs over the growing input buffer of a
connection (`src/http_parser_wrapper.cc`), and serves them with connections to
Redis and MySQL from blocking pools (`src/cache-pool`, `src/db-conn-pool`).
This project models the three and proves what they are relied on for.

* **The meaning of a byte.** `Parser.Micro` is one pass through the switch of
  `http_parser_execute` in strict mode for requests, `Parser.Step` one input
  byte, `Parser.Run` a call. Callbacks are atoms of a merged trace: a
  notification, or one byte of a data callback.
* **The code as it runs.** `Execute.HttpParser` has the fields of
  `struct http_parser`, updates them in place, moves the read position and the
  marks, skips body bytes in bulk and jumps back to `reexecute_byte`. It is
  proved equal to `Parser.Run`; the slices it hands to callbacks lie in the
  buffer, in order, without overlap.
* **Theorems about every run** (`Invariant`, `Split`, `Cuts`, `Grammar`,
  `EventLaws`, `HeaderLimit`, `Pipeline`), about parts of a message (`Methods`,
  `RequestLines`, `Names`, `Values`, `Lengths`, `Lines`, `Framing`) and about
  whole requests and connections (`Requests`, `Stream`): split independence, the
  event grammar, no stale state between pipelined messages, exact keyword and
  method recognition, exact lengths, folded header lines, chunked and identity
  framing, and a printer and parser that are inverse.
* **The language.** `Acceptance.AcceptsExactly`: the bytes that take the parser to the
  end of a message are exactly the well-formed requests of a grammar, whose targets
  `UrlGrammar` describes, and its events are what they say. `Completions`, `RequestLinesBack`, `LinesBack` and
  `FramingBack` read any accepted bytes back into their parts.
* **The words of the standards.** `Tables` says what each byte is taken for, in the
  classes of RFC 3986 and RFC 2616; `Methods.MethodWords`, `Names.MeaningIs`,
  `Lengths.PrintedSize`, `Ports` and `Errors` do so for the words, numbers and error
  numbers; `EndToEnd` follows requests that are written out letter by letter.
* **The wrapper** (`Wrapper`, `Handlers`): parsing again on every read is sound, and
  when a handler is given the first request whatever follows it.
* **URLs.** `Urls.ParseUrl` is the two-pass function, `Urls.ParseUrlFrom` the same
  in 16-bit fields that may be stale, `UrlParser.HttpParserUrl` the loops that fill
  the C struct. `UrlRoundTrip` characterises what is accepted, and with which
  fields, by a grammar without a state machine.
* **The pools.** `Pools` holds what each critical section does and a transition
  system of all threads; `CachePools` and `DbPools` are the classes.

What the code does, where one might expect something else:

* `M-SEARCH` is never accepted. Its table entry is stringised with blanks
  (`src/include/http_parser.h:104`); the bytes the machine takes for it are
  `M-- SEARCH` (`Methods.MSearchRefused`).
* The overflow guard of lengths misses wraps: 2^64 + 2^62 is accepted as 2^62
  (`Lengths.WrapAccepted`). A length is exact if and only if it is below 2^64 - 1.
* Bytes from 128 up count as the hex digit 0, since `unhex` initialises half of
  its entries (`Lengths.FirstSizeByte`).
* A number on a folded line replaces the Content-Length of the line before; a
  keyword counts only as the whole first line behind the colon (`Lines.RunFolds`).
* A name does not need a colon. Behind one without, ended by CR and LF, the field keeps
  its meaning for a folded line (`Lines.RunBareName`).
* An empty call inside a message is an end of file, and an error; it is the only way
  in which cutting a stream into calls changes the parser (`Cuts.AnySplit`).
* On an error the pending bytes of a field are dropped, so a stream cut into calls can
  deliver more than one call does. A cut is harmless whatever follows if and only if
  nothing is pending at it, or it lies inside an identity body (`Cuts.HarmlessCut`).
* A pipelined request that is already in the buffer is glued to the first one, even if
  it is refused. The handler gets exactly the first request if and only if that closes
  or upgrades the connection, or what follows has no target or body byte
  (`Wrapper.HandlerGetsRequest`); the condition that holds whatever follows is that it
  closes or upgrades the connection, or that its trailer has used up the header limit
  but for four bytes (`Handlers.HandlerIsSafe`).
* The destructor of `DBPool` sets its abort flag and wakes its waiting threads, which
  do not check it. They are handed nothing, unless a connection is released behind the
  destructor, which C++ does not define (`Pools.DbStaysShut`,
  `Pools.DbHandsOutOnlyByRelease`). `CachePool` checks the flag behind the wait
  (`Pools.CacheStaysShut`).
* `http_parser_parse_url` stores offsets and lengths in 16 bits: every URL of n bytes
  comes out right if and only if n is below 65536 (`Urls.SixteenBits`). Behind an offset
  that has wrapped, `strtoul` can meet a sign. A struct that is not zeroed is as good as
  a zeroed one, for all URLs, if and only if the length of its host field is zero
  (`Urls.StaleHost`): a URL with a schema and no host reads that field.
* A CONNECT target may carry an empty userinfo, a bare `?` and `#`s behind it;
  they make no field (`UrlRoundTrip.AcceptsExactly`).

A C `char` is a Dafny `char`. The standards are RFC 2616 (sections 2.2, 3.6.1,
4.4 and 5.1) and RFC 3986 (section 3).

## Model

| member | source | states |
|---|---|---|
| Parser.Micro | src/http_parser.cc:684-2075 | a jump to reexecute_byte lowers the rank of the state, so the backward gotos end |
| Parser.Run | src/http_parser.cc:668-2097 | a call reads at most the buffer, and all of it unless it errs or leaves for an upgrade |
| Parser.PushDigit | src/http_parser.cc:1671-1685 | the 64-bit guard never accepts a smaller value than before, nor all ones |
| Parser.UrlCharStates | src/http_parser.cc:435-603 | no byte leads out of the URL states, except to the dead one |
| Tables.PathBytes | src/http_parser.cc:196-235 | the bytes taken in a path are those of RFC 3986 and eleven other printable ones; a query takes a '?' as well, a fragment a '#' too |
| Tables.ServerBytes | src/http_parser.cc:365-382 | the bytes of a schema are letters, those of an authority those of a userinfo in RFC 3986, brackets and '@' |
| Tables.HostBytes | src/http_parser.cc:2177-2248 | the bytes of a userinfo, a host name, a bracketed host and a port, and what ends each |
| Tables.PathByte | src/http_parser.cc:1160-1215 | in the parser a byte keeps s_req_path if and only if it is one of a path, and is refused if and only if it is no '?', '#', blank or line end either |
| Tables.TokenBytes | src/http_parser.cc:136-183 | the bytes of a field name are the ASCII ones that are no controls and no separators of RFC 2616, lowercased |
| Tables.NameByte | src/http_parser.cc:1404-1548 | in the parser a byte keeps s_header_field if and only if it is one of them, and is refused if and only if it is no ':' or line end either |
| Tables.SkippedByte | src/http_parser.cc:935-1578 | what is skipped: line ends before a request, blanks behind the method and the target, blanks and tabs before a value |
| Tables.HexAccepts | src/http_parser.cc:187-188 | the bytes that are hex digits, and those that are taken for 0 |
| Tables.Limits | src/include/http_parser.h:57 | 80 KiB of header bytes, 64 bits for lengths, 16 for ports |
| Errors.ErrorNumber | src/http_parser.cc:674-2075 | a refused byte sets the error number of the state it is refused in, or that of the header limit; body bytes are not refused |
| Errors.EmptyCall | src/http_parser.cc:617-641 | a call with an empty buffer changes nothing between messages or after an error; inside a message it reads one byte and is HPE_INVALID_EOF_STATE |
| Invariant.MicroKeepsSound | src/http_parser.cc:684-2075 | one invariant over all states is kept by every pass through the switch: legal header_state and index per state, the subscript of the method spelling inside it, F_CHUNKED in the chunk states, nread 1 at a chunk size line, remaining length strictly between 0 and 2^64-1 in body data and 0 after a chunk |
| Invariant.FieldMatchStaysInside | src/http_parser.cc:1410-1522 | the subscripts of the field name matchers stay inside their keywords |
| Invariant.ValueMatchStaysInside | src/http_parser.cc:1689-1733 | the same for the value matchers |
| Invariant.StepKeepsInv | src/http_parser.cc:668-2075 | every byte keeps the invariant or ends in an error number |
| Invariant.RunKeepsInv | src/http_parser.cc:605-2098 | every call does, so no assertion of the C code fails and nread stays within 80 KiB |
| Tables.Fresh | src/http_parser.cc:2153-2162 | the fields that http_parser_init leaves, one by one |
| Execute.HttpParser.constructor | src/http_parser.cc:2153-2162 | a new parser waits for a request |
| Execute.HttpParser.Init | src/http_parser.cc:2153-2162 | whatever was parsed before is forgotten |
| Execute.HttpParser.ReadIdentity | src/http_parser.cc:1887-1922 | the bulk read of identity body bytes equals reading them one by one |
| Execute.HttpParser.ReadChunk | src/http_parser.cc:2024-2045 | the same for chunk data |
| Execute.HttpParser.ReadByte | src/http_parser.cc:684-2075 | the jumps back to reexecute_byte equal the settled meaning of the byte |
| Execute.HttpParser.ReadNext | src/http_parser.cc:668-2075 | one round of the loop reads its bytes as the per-byte meaning does, and the marks and callbacks show exactly their atoms |
| Execute.HttpParser.ReadAll | src/http_parser.cc:668-2097 | so does the whole loop, with the pending mark delivered at the end and dropped on an error |
| Execute.HttpParser.Execute | src/http_parser.cc:605-2098 | the call equals the fold of the per-byte meaning: same fields, same count of bytes, same merged trace; slices in the buffer, in order; the cases of an error state and of an empty buffer |
| Execute.SettleShows | src/http_parser.cc:684-2075 | the macros of all passes for a byte show its atoms, and a refused byte makes no callback |
| Execute.CallEnds | src/http_parser.cc:2077-2089 | at the end of a call the mark that is set holds exactly the bytes pending |
| BulkReads.BodyRun | src/http_parser.cc:1887-1922 | body bytes short of the remaining length, read one by one |
| BulkReads.IdentityRun | src/http_parser.cc:1887-1922 | body bytes up to the end of the body, and message_complete |
| BulkReads.ChunkRun | src/http_parser.cc:2024-2045 | body bytes up to the end of a chunk |
| Sinks.MicroTouches | src/http_parser.cc:82-127 | a pass through the switch assigns what its MARK or CALLBACK macro stands for, and moves between fields only through a state without a mark |
| Sinks.ApplyShows | src/http_parser.cc:88-127 | running a macro shows exactly the atoms of its byte |
| Split.RunConcat | src/http_parser.cc:668-2097 | within one call, a buffer may be cut anywhere |
| Split.RunHeld | src/http_parser.cc:643-666 | what is pending on entry matters only while its mark stays set |
| Cuts.SplitIndependence | src/http_parser.cc:605-2098 | cutting a buffer in two ends in the same parser if and only if the second call is not empty inside a message; then bytes read and ending are the same, and unless that is an error the merged trace is |
| Cuts.HarmlessCut | src/http_parser.cc:2077-2097 | whatever follows a cut, the two calls deliver what one does, if and only if nothing is pending at the cut or it lies in an identity body |
| Cuts.AnySplit | src/http_parser.cc:605-2098 | any number of calls ends in the parser of one call if and only if none is empty inside a message; then with the same bytes, ending and, but for an error, trace |
| Grammar.RunInOrder | src/http_parser.cc:687-2075 | from a fitting phase, every call keeps the events in the order of the grammar |
| Grammar.EventsInOrder | src/http_parser.cc:687-2075 | so do calls in any pieces, and the phase reached fits the parser |
| Grammar.ConnectionInOrder | src/http_parser.cc:605-2098 | every trace of a connection is a prefix of repetitions of begin, url, header fields and values, headers_complete, body, trailer, message_complete |
| EventLaws.EveryEventInPlace | src/http_parser.cc:605-2098 | in any connection, cut into calls in any way: between a begin and its complete comes one headers_complete; a target only before it and at once behind the begin, a value only behind its field name, body bytes only behind it |
| Grammar.ClosedForGood | src/http_parser.cc:687-695 | a closed connection makes no event any more; any byte but a line end is HPE_CLOSED_CONNECTION, unless the header limit comes first |
| HeaderLimit.StepCountsOne | src/http_parser.cc:674-683 | a byte counts once in the header states, or the count is reset |
| HeaderLimit.LongHeaderOverflows | src/http_parser.cc:674-683 | a stretch of header bytes without a reset is never longer than what is left of 80 KiB; the next byte is HPE_HEADER_OVERFLOW |
| Pipeline.FreshStart | src/http_parser.cc:935-1001 | a parser between messages is as good as new, up to its header count |
| Pipeline.MicroAlike | src/http_parser.cc:684-2075 | parsers that agree on the fields that still matter have the same effects: every stale field is overwritten before use |
| Pipeline.RunAlike | src/http_parser.cc:605-2098 | a run with stale fields is the run without, or cut short by the header limit |
| Pipeline.Pipelining | src/http_parser.cc:605-2098 | after a message boundary, the events of the rest are those of a fresh parser, unless the left-over count uses up the header limit, exactly where it does |
| Pipeline.PipeliningWithinLimit | src/http_parser.cc:605-2098 | and never when count and bytes stay within the limit |
| Methods.ReadingAgrees | src/http_parser.cc:1003-1137 | in s_req_method the bytes read agree with the candidate, through every switch of candidates |
| Methods.RunMethod | src/http_parser.cc:948-1137 | the spelling of every method is read as that method |
| Methods.MethodExact | src/http_parser.cc:948-1137 | a token ended by a blank is method m if and only if it is the spelling of m |
| Methods.MethodWords | src/include/http_parser.h:79-112 | the 25 registered methods, and the one misspelt, word by word |
| Methods.MSearchRefused | src/include/http_parser.h:104 | M-SEARCH is refused at its third byte |
| Names.NextMatches | src/http_parser.cc:1410-1522 | the incremental name matcher is comparison with the lowercased prefix |
| Names.MeaningIs | src/http_parser.cc:129-135 | a name means a header if and only if it is that word in any case |
| Names.NameExact | src/http_parser.cc:1366-1548 | at the colon, header_state names a header if and only if the name is that word in any case |
| Values.LoweredIsKeyword | src/http_parser.cc:370 | setting bit 5 of the bytes of a value compares it with a keyword in any case, and takes no other byte for one of its letters |
| Values.LineFlagsExact | src/http_parser.cc:1580-1764 | the matcher state at the end of a value sets exactly the flag of its keyword |
| Values.ValueExact | src/http_parser.cc:1551-1764 | chunked, keep-alive and close are set if and only if the value is the keyword in any case followed by blanks |
| Values.RunEmptyValue | src/http_parser.cc:1551-1573 | an empty value sets nothing; behind a bare line feed it cannot be continued |
| Lengths.AcceptedModulo | src/http_parser.cc:1671-1685 | an accepted value is the true one modulo 2^64 and never all ones |
| Lengths.ExactBelowBound | src/http_parser.cc:1671-1685 | a value is accepted and exact if and only if it is below 2^64-1 |
| Lengths.GuardMissesWrap | src/http_parser.cc:1678 | a push that wraps and is accepted |
| Lengths.WrapAccepted | src/http_parser.cc:1660-1686 | a whole Content-Length value that is wrapped and accepted |
| Lengths.ContentLengthExact | src/http_parser.cc:1597-1686 | a Content-Length is exact if and only if it is below 2^64-1, otherwise refused or wrapped |
| Lengths.ChunkSizeExact | src/http_parser.cc:1940-1991 | the same for a chunk size |
| Lengths.FirstSizeByte | src/http_parser.cc:1940-1950 | a chunk size may start with a hex digit or any byte from 128 up, and with no other |
| Lengths.PrintedSize | src/http_parser.cc:1940-1991 | a size printed in hex, in either case, is read as that number |
| Lengths.PrintedLength | src/http_parser.cc:1597-1686 | a length printed in decimal is read as that number |
| Lines.RunFolds | src/http_parser.cc:1551-1776 | any number of folded lines continue a value, without their line ends, and say what each of them means in turn |
| Lines.RunBareName | src/http_parser.cc:1531-1543 | a name without a colon is a field; behind a CR its meaning lasts for the lines that continue it |
| Lines.LengthExact | src/http_parser.cc:1660-1686 | the length that a line sets is the number its digits denote if and only if that is below 2^64-1 |
| Lines.RunLine | src/http_parser.cc:1350-1776 | a header field, with or without a colon, folded or not, with either line end, is delivered and establishes what it means |
| Lines.RunLines | src/http_parser.cc:1350-1776 | and any number of them |
| Framing.RunEmptyLine | src/http_parser.cc:1778-1885 | what follows the header, whichever line end the empty line has: upgrade, chunks, body or the end; chunked overrides Content-Length; behind a trailer, the end |
| Framing.IdentityBody | src/http_parser.cc:1887-1933 | with length n the body is exactly the first n bytes, and message_complete is fired at byte n |
| Framing.IdentityAnySplit | src/http_parser.cc:1887-1933 | the same in any pieces without an empty call inside the message |
| Framing.RunChunk | src/http_parser.cc:1935-2060 | a chunk delivers its data, whatever the spelling of its size and its extensions |
| Framing.PrintedChunk | src/http_parser.cc:1935-2060 | a chunk whose size is the length of its data, printed in hex, is read back, for any data |
| Framing.ChunkedRoundTrip | src/http_parser.cc:1935-2060 | a chunked body delivers the concatenation of its chunks, its trailer fields, and one message_complete at its last byte |
| Framing.ChunkedAnySplit | src/http_parser.cc:1935-2060 | the same in any split without an empty call inside the message |
| RequestLines.RunTarget | src/http_parser.cc:1139-1215 | a target is delivered byte by byte, and the state is that of the URL machine |
| RequestLines.RunVersion | src/http_parser.cc:1160-1348 | behind a target, a version of any digits up to 999, or none, is read as its numbers, with either line end |
| Requests.RequestRoundTrip | src/http_parser.cc:935-2060 | parsing a printed request delivers its target, lines and decoded body, reads all of it, is ready again if and only if the connection stays open, and completes with the last byte |
| EndToEnd.PlainPost | src/http_parser.cc:935-2060 | a POST with a Content-Length, written out: the handler gets its path and its body, and the connection goes on as its version and its Connection header say |
| EndToEnd.ChunkedPost | src/http_parser.cc:935-2060 | the same with one chunk, its size in hex in either case |
| Targets.TargetExact | src/http_parser.cc:1139-1215 | the targets taken for a method are the URL texts with an authority, a path or a query |
| RequestLines.ErrorDropsPending | src/http_parser.cc:2077-2097 | a refused byte behind a target: one call drops the target, two calls deliver it |
| Completions.CompletesExactly | src/http_parser.cc:668-2097 | completing byte by byte is completing, without an error, with the last byte of a run and not before |
| RequestLinesBack.ReadMethod | src/http_parser.cc:948-1137 | what is taken for a method is the spelling of one, and a blank |
| RequestLinesBack.ReadTarget | src/http_parser.cc:1139-1215 | what is taken for a target is one that the URL machine accepts |
| RequestLinesBack.ReadVersion | src/http_parser.cc:1160-1348 | what is taken for the rest of a request line is a version, or none, and a line end |
| LinesBack.ReadLine | src/http_parser.cc:1350-1776 | what is taken for a header field is one, with all the lines that continue it |
| LinesBack.ReadLines | src/http_parser.cc:1350-1828 | what is taken up to the end of a header or a trailer is header fields and an empty line |
| FramingBack.ReadIdentity | src/http_parser.cc:1887-1933 | what completes an identity body is as long as announced |
| FramingBack.ReadChunks | src/http_parser.cc:1935-2060 | what completes a chunked body is the coding of some chunks, a trailer and its empty line |
| Acceptance.ReadRequest | src/http_parser.cc:935-2060 | whatever takes the parser to the end of a message is a well-formed request within the header limit |
| Acceptance.AcceptsExactly | src/http_parser.cc:935-2060 | bytes take the parser to its first message_complete with the last of them, making certain events, if and only if they are a well-formed request with those events |
| Stream.RunRequests | src/http_parser.cc:605-2098 | requests sent back to back deliver their messages, in order |
| Stream.RequestsAnySplit | src/http_parser.cc:605-2098 | the same in any split without an empty call inside a message |
| Wrapper.HttpParserWrapper.OnUrl | src/http_parser_wrapper.cc:47-51 | appends to the URL |
| Wrapper.HttpParserWrapper.OnBody | src/http_parser_wrapper.cc:135-139 | appends to the body |
| Wrapper.HttpParserWrapper.OnMessageComplete | src/http_parser_wrapper.cc:141-144 | sets read_all_ |
| Wrapper.HttpParserWrapper.ParseHttpContent | src/http_parser_wrapper.cc:16-45 | URL, body and read_all_ are a function of the bytes given: nothing of an earlier call survives |
| Wrapper.PendingAreBytes | src/http_parser.cc:2077-2097 | what an error drops is never a notification |
| Wrapper.ReadAllStays | src/HttpConnection.cc:45-53 | once a prefix makes IsReadAll true, every longer buffer does |
| Wrapper.HandsOverRequest | src/HttpConnection.cc:45-57 | a request is handed over with its last byte and not before, with its target and its decoded body |
| Wrapper.LastRequestStands | src/HttpConnection.cc:45-57 | bytes behind a request that closes or upgrades the connection change nothing |
| Wrapper.FurtherEvents | src/http_parser_wrapper.cc:16-45 | bytes behind a request on a connection that stays open are parsed as by a fresh parser, up to the header bytes of the trailer |
| Wrapper.PipelinedRequestsGlue | src/http_parser_wrapper.cc:16-45 | so the target and body of a further request, complete or refused, are glued to those of the first one |
| Wrapper.HandlerGetsRequest | src/HttpConnection.cc:45-57 | the handler gets exactly the target and body of the first request if and only if that ends the connection or nothing else follows that has some |
| Handlers.HandlerIsSafe | src/HttpConnection.cc:45-57 | whatever follows, the handler gets exactly the first request if and only if that closes or upgrades the connection, or its trailer leaves no room for a target |
| UrlParser.HttpParserUrl.CutFields | src/http_parser.cc:2335-2404 | the first loop fills the struct as the first pass says, in 16 bits, and fails exactly when it dies |
| UrlParser.HttpParserUrl.ParseHost | src/http_parser.cc:2253-2333 | the second loop cuts the host field that the struct holds as the second pass says, and fails exactly when that may not end there |
| UrlParser.HttpParserUrl.ParseUrl | src/http_parser.cc:2335-2439 | for a buffer of any size and any struct whose host field lies inside it if it is read, the struct ends up with the fields and the port of the two-pass function in 16 bits |
| UrlParser.HttpParserUrl.FieldIndex | src/include/http_parser.h:236-246 | the index of each field in field_data |
| Urls.SixteenBits | src/include/http_parser.h:254-265 | every URL of n bytes is reported with its real offsets and lengths if and only if n is below 65536 |
| Urls.PathWraps | src/http_parser.cc:2397-2402 | a path of n bytes is reported with the length n modulo 65536 |
| Urls.StaleHost | src/http_parser.cc:2343-2412 | a struct that is not zeroed is as good as a zeroed one, for every URL, if and only if its host field has length zero |
| UrlGrammar.FirstPassOf | src/http_parser.cc:2349-2404 | every text of the grammar takes the first pass to its state and its fields |
| UrlGrammar.FirstPassReads | src/http_parser.cc:2349-2404 | and whatever the first pass takes is such a text |
| HostGrammar.SecondPassOf | src/http_parser.cc:2253-2315 | the same for the second pass |
| HostGrammar.SecondPassReads | src/http_parser.cc:2253-2315 | and back |
| UrlRoundTrip.ParsedParts | src/http_parser.cc:2335-2439 | parsing the print of some components gives their places, unless a limit is passed |
| UrlRoundTrip.PrintParse | src/http_parser.cc:2335-2439 | URL round trip: print, parse, and the fields are exactly the components |
| UrlRoundTrip.AcceptedParts | src/http_parser.cc:2335-2439 | every accepted URL is the print of some components |
| UrlRoundTrip.AcceptsExactly | src/http_parser.cc:2335-2439 | a URL parses to a result if and only if it is the print of components that lie where the result says |
| UrlRoundTrip.PortValue | src/http_parser.cc:2422-2435 | strtoul reads the digits of the port field and no others, and saturates past 64 bits |
| Ports.PrintedNumber | src/http_parser.cc:2425-2427 | strtoul of a printed number, with a '+', with a '-', and past 64 bits |
| Ports.PortExact | src/http_parser.cc:2422-2435 | a URL with port n is accepted, with that port and its three fields, if and only if n is at most 65535 |
| UrlRoundTrip.UrlLayout | src/http_parser.cc:2343-2438 | the fields lie in the buffer, in order, disjoint; the port is the value of its field; CONNECT has exactly host and port |
| DeliveredUrls.RunKeeps | src/http_parser.cc:1139-1215 | the state of the parser in the URL is that of the first pass over the bytes delivered |
| DeliveredUrls.DeliveredUrlLives | src/http_parser.cc:1139-1215 | no URL that is delivered drives the first pass of http_parser_parse_url into s_dead |
| CachePools.CachePool.constructor | src/cache-pool/cache_pool.cc:853-863 | an empty pool that counts the minimum of connections |
| CachePools.CachePool.Init | src/cache-pool/cache_pool.cc:884-900 | the list holds the connections made up to the first failure; 1 if there is one |
| CachePools.CachePool.GetCacheConn | src/cache-pool/cache_pool.cc:902-963 | a get up to its return or wait, field by field: it waits if and only if nothing is idle at the cap, it fails if and only if the pool is aborted or a connection that it may make cannot be made, and otherwise gives the first idle or the new one |
| CachePools.CachePool.GoOn | src/cache-pool/cache_pool.cc:911-939 | a get behind its wait: it goes back to sleep if and only if nothing is idle, aborted or expired, and fails if and only if the pool is aborted or the time is up with nothing idle |
| CachePools.CachePool.RelCacheConn | src/cache-pool/cache_pool.cc:965-982 | a release appends and notifies, unless the scan finds the connection idle |
| CachePools.CachePool.Abort | src/cache-pool/cache_pool.cc:866-870 | sets the abort flag and tells all waiting threads |
| CachePools.CachePool.Clear | src/cache-pool/cache_pool.cc:871-882 | deletes every idle connection once and empties the pool |
| CachePools.CacheManager.Init | src/cache-pool/cache_pool.cc:1005-1057 | each configured name, and no other, has a pool, with the cap of its first entry, two connections and no abort; 1 without a list of pools, otherwise the code of the first entry that is unusable |
| CachePools.InitFails | src/cache-pool/cache_pool.cc:1033-1052 | 2 if and only if the first unusable entry misses a setting, 3 if and only if it cannot make its connections |
| CachePools.CacheManager.GetCacheConn | src/cache-pool/cache_pool.cc:1059-1066 | a get goes to the pool of that name and to no other, waits and fails as that does, and gives one of its connections |
| CachePools.CacheManager.RelCacheConn | src/cache-pool/cache_pool.cc:1068-1078 | a connection goes back to the pool it came from, and to no other |
| CachePools.FirstWins | src/cache-pool/cache_pool.cc:1044-1053 | insert keeps the first pool of a name, with two connections and the cap of its entry |
| DbPools.DBPool.constructor | src/db-conn-pool/db_pool.cc:5-16 | an empty pool that counts the minimum of connections |
| DbPools.DBPool.Init | src/db-conn-pool/db_pool.cc:36-51 | the list holds the connections made up to the first failure; its error code if there is one |
| DbPools.DBPool.GetConnection | src/db-conn-pool/db_pool.cc:54-101 | a get up to its return or wait, field by field, as in CachePool |
| DbPools.DBPool.GoOn | src/db-conn-pool/db_pool.cc:66-79 | a get behind its wait: it goes back to sleep as in CachePool, and fails if and only if nothing is idle and the wait is over |
| DbPools.DBPool.ReleaseConnection | src/db-conn-pool/db_pool.cc:104-122 | a release appends and notifies, unless the scan finds the connection idle |
| DbPools.DBPool.Destroy | src/db-conn-pool/db_pool.cc:19-33 | aborts, tells all waiting threads, deletes every idle connection once and empties the list |
| Pools.StepKeepsGood | src/cache-pool/cache_pool.cc:865-982 | every step of every thread keeps the pool conserved, exclusive, capped and without lost wakeups |
| Pools.EveryRunIsGood | src/cache-pool/cache_pool.cc:865-982 | so every interleaving does, from a fresh pool on, for both kinds of pool |
| Pools.HandsOutIdle | src/cache-pool/cache_pool.cc:959-962 | a connection handed out was in nobody's hands |
| Pools.SomeoneComes | src/cache-pool/cache_pool.cc:911-931 | while a thread sleeps beside an idle connection, some woken thread will take one |
| Pools.GetWaits | src/cache-pool/cache_pool.cc:902-957 | a get falls asleep if and only if nothing is idle at the cap, and gives up at once if and only if the pool is aborted or the connection that it may make cannot be made |
| Pools.WokenWaits | src/cache-pool/cache_pool.cc:911-939 | a woken get goes back to sleep if and only if nothing is idle and neither abort nor timeout ends its wait, and when it gives up |
| Pools.NobodyLeavesEmptyHanded | src/db-conn-pool/db_pool.cc:66-79 | in every run before the abort a get leaves without a connection only if making one failed or its timeout has run out; an untimed wait never ends so |
| Pools.ReleaseWakesOne | src/cache-pool/cache_pool.cc:974-978 | a release puts the connection behind the idle ones and wakes one sleeper, if any |
| Pools.WakeTells | src/cache-pool/cache_pool.cc:865-939 | a timeout or a spurious wakeup changes nothing but who sleeps; the destructor of CachePool leaves an empty pool that counts nothing |
| Pools.AbortWakesAll | src/db-conn-pool/db_pool.cc:19-33 | the abort wakes every sleeper; in DBPool it empties the list |
| Pools.HandsOutAfterAbort | src/db-conn-pool/db_pool.cc:66-79 | after the abort a get hands out a connection if and only if it is DBPool's, was waiting, and finds one idle |
| Pools.CacheStaysShut | src/cache-pool/cache_pool.cc:936-939 | in no run after the abort does CachePool hand out a connection |
| Pools.DbStaysShut | src/db-conn-pool/db_pool.cc:19-33 | nor does DBPool, behind its destructor, in any run without a release |
| Pools.DbHandsOutOnlyByRelease | src/db-conn-pool/db_pool.cc:66-79 | behind the destructor some run hands out a connection if and only if one is still lent, to be released then, and a woken thread has not gone on |
| Pools.FirstInFirstOut | src/cache-pool/cache_pool.cc:959-977 | connections are handed out in the order in which they became idle |
| Pools.ReleaseExactly | src/cache-pool/cache_pool.cc:965-982 | giving back a connection keeps the pool conserved if and only if it is lent or already idle |

## Left out

- Responses, `s_start_req_or_res` and `s_body_identity_eof`: the wrapper parses requests only, for which `http_message_needs_eof` is false.
- Non-strict mode, failing or pausing callbacks, `http_parser_pause` and F_SKIPBODY: the callbacks of the wrapper always return 0.
- Names of methods and errors and the library version: table lookups.
- The values of `parser->type`, `status_code` and `data`: constant for requests.
- UrlParser.HttpParserUrl.ParseUrl: says nothing of the struct after a failure, whose fields the header tells callers not to read; when a URL has a schema and no host, the host field it reads must lie inside the buffer, which C would otherwise read past.
- Urls.Strtoul: reads to the end of the buffer at most; text behind the buffer that goes on with digits is not modelled, nor is white space in front, which no accepted URL has.
- The header copies of the wrapper (Referer, Host and the like) and `total_length_`: prefix comparisons on fragments.
- Wrapper.HttpParserWrapper.ParseHttpContent: makes the callbacks after the call instead of during it, in the same order; they touch no parser field.
- Creating a connection, its queries and its deletion: a step that succeeds with a new connection or fails.
- Pools.EveryRunIsGood: only lent connections are released, each once for each time it is handed out; a caller that keeps one is allowed. That the operating system wakes a notified thread, and fairness, are not modelled.
- The pools after destruction: C++ leaves a thread that still waits then without a defined meaning; the model lets it go on, and lets callers release, with the fields as the destructor leaves them.
- `DBManager`: routes as `CacheManager` does, by the name of the pool.
- Configuration files, the reactor, sockets, response formatting, the handlers of `src/api` and route lookup: input and output, or single comparisons.
